# Local AI Assistant chat core in Dafny

This project models the logic inside `chat_bot.py`, a PyQt desktop chat client
for a local Ollama server. The widgets are not modelled. What is modelled is the
state the window keeps and the transformations it applies:

- **Stream** (`stream.dfy`): the `OllamaWorker` streaming loop.
  - `OllamaWorker.run` reads the newline-delimited JSON of `POST /api/chat` and
    emits each non-empty `message.content` as a `response_chunk`.
  - It ends with one terminal signal, `full_response(full)` or
    `error_occurred(msg)`.
  - `stop()` clears the `_running` flag the loop checks after fetching each line.
  - `json.loads` and the HTTP body are abstracted as a sequence of `Line`
    values plus how the connection ends. The pure fold `Consume` describes the
    loop, and `Worker.Run` is the imperative loop, proved equal to it.
- **Sessions** (`sessions.dfy`): the session store `chat_sessions`.
  - The store is a list of `{id, title, messages}`, most recent first.
  - It covers the lookup of `_get_session` and the bookkeeping half of
    `_render_message`: append, then derive the title on the first user message.
  - It states, as pure functions, what `send_message` and `on_full` do to the
    store.
- **Models** (`models.dfy`): the name filter of `load_models` and the model it
  selects.
- **Text** (`text.dfy`): the pure string helpers.
  - `str.strip()`, the title expression and `_format_html`.
  - The tag-stripping substitution `re.sub(r"<[^>]*>", "", s)`, written as a
    left-to-right scan.
  - The label that `on_chunk` rebuilds while a reply streams.
- **Chat** (`chat.dfy`): the window `AIAssistantApp` as a class.
  - Its fields are the session list, the current session id, the selected model
    and the single worker slot `ollama_worker`.
  - Its methods are `__init__`, `load_models`, `start_new_chat`,
    `_on_chat_selected`, `_render_message`, `send_message` and the two terminal
    callbacks. Each is proved against the pure functions above.
  - Concrete exchanges are stated as lemmas over those functions.

The window methods model the code as written, including the double recording of
every message (see Findings). Corrected variants sit beside them, with the
intended properties proved: `Sessions.SendOnce`, `Sessions.ReplyOnce` and
`Chat.App.DeliverFrom`.

Where the code does not do what it evidently intends, the model follows the code:

- A stopped or superseded worker still emits `full_response` with the text it
  has accumulated, and `on_full` commits it. The evident intent of `stop()` is
  that a cancelled stream commits nothing.
- The title is never derived from the first message, because of the double
  append. The test at line 279 shows the intent: the title is set once, from
  the first user message.
- `error_occurred` does not clear the worker slot: of the two terminal
  callbacks, only `on_full` sets `ollama_worker = None`.
- The connection is read before `_running` is checked. So a connection that
  breaks while the worker is being stopped still produces `error_occurred`.

## Model

| member | source | states |
|---|---|---|
| Text.Strip | chat_bot.py:355 | `str.strip()` never lengthens the text, and what it returns neither starts nor ends with white space |
| Text.StripMeaning | chat_bot.py:355 | the stripped text is the slice of the input between its leading and its trailing white space, both of which are all white space |
| Text.StripEmpty | chat_bot.py:355-357 | the stripped input is empty exactly when every character is white space, which is when `send_message` returns early |
| Text.Title | chat_bot.py:280 | the title is the text itself when it has at most 30 characters; otherwise it is its first 30 characters followed by `...` (33 characters) |
| Text.ReplaceChar | chat_bot.py:347-349 | one substitution removes every occurrence of the character when the replacement does not contain it, and changes nothing when the text does not contain it |
| Text.FormatHtml | chat_bot.py:346-349 | the label markup holds no raw newline, and text without `<`, `>` or newline is returned unchanged |
| Text.FormatHtmlAppend | chat_bot.py:346-349 | `_format_html` distributes over concatenation |
| Text.FormatHtmlIsPerChar | chat_bot.py:346-349 | the three successive substitutions equal escaping each character on its own: `<` to `&lt;`, `>` to `&gt;`, newline to `<br>` |
| Text.FormatHtmlShape | chat_bot.py:346-349 | the label markup holds no newline, and every `<` or `>` in it belongs to a `<br>` made from a newline |
| Text.FormatHtmlOfPlain | chat_bot.py:346-349 | text without `<`, `>` or newline is left unchanged |
| Text.FormatHtmlNotInjective | chat_bot.py:346-349 | `&` is not escaped, so anywhere in a text a literal `&lt;` and a `<` give the same markup although the texts differ |
| Text.StripTags | chat_bot.py:391 | the tag substitution never lengthens the text and only keeps characters of its input |
| Text.StripTagsDropsSpan | chat_bot.py:391 | a `<` followed by text without `>` and then a `>` is dropped whole, and the text after it is stripped in turn |
| Text.StripTagsRemovesSpan | chat_bot.py:391 | text before the first `<` is kept, the following `<...>` span is removed, and the rest is stripped in turn, in order |
| Text.StripTagsKeepsTagFree | chat_bot.py:308 | text in which no `<` is followed later by a `>` is left unchanged |
| Text.StripTagsKeepsPlainText | chat_bot.py:308 | `<`-free text is left unchanged |
| Text.StripTagsLeavesNoTag | chat_bot.py:391 | after the substitution no `<` is followed later by a `>` |
| Text.StripTagsIdempotent | chat_bot.py:391 | stripping twice is stripping once |
| Text.StripFormatted | chat_bot.py:391-393 | stripping the tags of formatted text removes exactly the `<br>` of each newline and keeps the escapes |
| Text.ChunkLabel | chat_bot.py:390-394 | one `on_chunk` call shows the formatted stripped label followed by the formatted chunk |
| Text.StreamLabel | chat_bot.py:390-394 | the placeholder label never holds a raw newline, whatever chunks arrive |
| Text.StrippedLabel | chat_bot.py:390-394 | stripping the placeholder's tags gives back all text streamed so far, escaped, with its line breaks gone |
| Text.StreamLabelShape | chat_bot.py:390-394 | after chunks `cs` and then `d`, the placeholder shows the earlier text escaped but with its line breaks gone, followed by the newest chunk formatted |
| Sessions.Find | chat_bot.py:265-266 | the lookup returns the first position holding the id, and returns nothing exactly when no session holds it |
| Sessions.FindUnique | chat_bot.py:265-266 | with unique ids, looking up a session's own id finds that session |
| Sessions.UpdateKeepsLookup | chat_bot.py:278-280 | changing a session's messages or title in place changes no lookup and keeps the ids unique |
| Sessions.UserCount | chat_bot.py:279 | the user-message count is at most the number of messages |
| Sessions.UserCountZero | chat_bot.py:279 | the user-message count is zero exactly when no message is from the user |
| Sessions.UserCountAppend | chat_bot.py:279 | appending a message raises the user-message count by one exactly when the message is from the user |
| Sessions.Append | chat_bot.py:363 | `session["messages"].append(m)` keeps the id, the title and the earlier messages, and puts `m` last |
| Sessions.Record | chat_bot.py:276-281 | `_render_message` appends the message; it sets the title to the truncated text when the message is the session's first user message, and keeps it otherwise |
| Sessions.GrowsByUpdate | chat_bot.py:278-280 | extending one session's messages keeps every other session findable, with its log as a prefix of its new log |
| Sessions.InsertKeepsLookup | chat_bot.py:241 | a session with a new id inserted at the head is found at position 0, and ids stay unique |
| Sessions.GrowsByInsert | chat_bot.py:241 | inserting at the head keeps every earlier session, unchanged, one position further down, where its id now finds it; the store stays append-only with unique ids |
| Sessions.Send | chat_bot.py:362-364 | one `send_message` adds the user text twice to the current session, keeps its title, and leaves every other session unchanged |
| Sessions.Reply | chat_bot.py:409-410 | `on_full` adds the reply twice when the worker's session is current; otherwise it adds it once to the worker's session and once to the current session; titles are kept and other sessions are unchanged |
| Sessions.SendAppendOnly | chat_bot.py:362-364 | `send_message` keeps every log append-only and the ids unique |
| Sessions.ReplyAppendOnly | chat_bot.py:409-410 | `on_full` keeps every log append-only and the ids unique |
| Sessions.SendOnce | chat_bot.py:363-364 | the corrected send records the user text once and leaves the other sessions unchanged |
| Sessions.ReplyOnce | chat_bot.py:409-410 | the corrected reply records the text once, in the worker's session only, and keeps its title |
| Sessions.TitleSetByFirstMessage | chat_bot.py:279-280 | with single recording, the first user message sets the title, and neither the reply nor a later message changes it |
| Stream.Piece | chat_bot.py:65-69 | a line contributes at most one chunk, and does so exactly when it is a record whose message is a dict with a non-empty string content |
| Stream.Consume | chat_bot.py:54-76 | the chunks emitted so far stay a prefix of the chunks the loop reports; a full response is the concatenation of the reported chunks; the loop never reports a failed request |
| Stream.Process | chat_bot.py:47-76 | a request refused by `requests.post` or `raise_for_status` emits no chunk and `error_occurred` with its reason, and only a refused request does; a full response is the concatenation of the emitted chunks |
| Stream.UpToDone | chat_bot.py:71-72 | counts the lines up to and including the first `done` record; no earlier line is a `done` record |
| Stream.Taken | chat_bot.py:54-56 | the lines the loop takes are a prefix of the body |
| Stream.ConsumeChunks | chat_bot.py:54-69 | the emitted chunks are the non-empty contents of the taken lines, in order, up to the first that makes `full += content` raise |
| Stream.ConsumeOutcome | chat_bot.py:54-76 | the outcome is the type error if a taken line raises; else the connection error if the loop ran past the last line of a broken body; else `full_response` of the concatenated chunks |
| Stream.FullIsConcatenation | chat_bot.py:54-74 | `full` is the in-order concatenation of every non-empty content of the taken lines; empty, unparsable and non-dict lines add nothing |
| Stream.DoneStopsReading | chat_bot.py:65-72 | nothing after the first `done` record is read, not even how the connection ends |
| Stream.DoneKeepsContent | chat_bot.py:65-72 | when the stop does not land first, the chunks are the non-empty contents of the lines up to and including the first `done` record, whose own content is still appended, cut at the first line that makes `full += content` raise |
| Stream.StopIgnoresRest | chat_bot.py:54-56 | once the stop lands before line `k`, the run equals the run over the first `k` lines of an intact body |
| Stream.CancelledEmitsFull | chat_bot.py:44-74 | a worker stopped before the last line still emits `full_response`, never an error, unless a line it took raises |
| Stream.CancelledEmitsPrefix | chat_bot.py:44-74 | when no line the unstopped worker would take raises, a stopped worker emits `full_response` whose text is a prefix of the uninterrupted reply |
| Stream.StoppedBeforeStart | chat_bot.py:54-56 | a worker stopped before its first line emits no chunk and `full_response("")`, unless fetching the first line already fails |
| Stream.TwoChunks | chat_bot.py:54-74 | two content lines and a `done` record emit both chunks in order, and the full response is their concatenation |
| Stream.Worker.constructor | chat_bot.py:38-42 | a new worker holds its model and messages and is running |
| Stream.Worker.Stop | chat_bot.py:44-45 | `stop()` clears the flag |
| Stream.Worker.Run | chat_bot.py:47-78 | the imperative loop emits exactly the chunks and outcome of the fold, with the stop landing at `stopAt` (at once if already stopped); a full response is the concatenation of the emitted chunks; the flag ends cleared exactly when the stop lands while the loop runs, and is otherwise unchanged |
| Models.Names | chat_bot.py:222 | the kept names are non-empty and no more numerous than the entries |
| Models.NamesAppend | chat_bot.py:222 | the filter keeps the order of the entries |
| Models.NamesMembers | chat_bot.py:222 | a name is offered exactly when it is non-empty and some entry carries it |
| Models.LoadModels | chat_bot.py:215-232 | a model is selected exactly when some name is offered, and then it is the first name and the status is online; an unreachable server or an empty list selects none |
| Chat.App.CurrentIndex | chat_bot.py:265-266 | `_get_session` finds the one session holding the current id |
| Chat.App.constructor | chat_bot.py:135-152 | the window starts with the models loaded, one empty "New Chat" session that is current, and no worker |
| Chat.App.LoadModels | chat_bot.py:215-232 | the drop-down, selected model and status become those of `Models.LoadModels`, and nothing else changes |
| Chat.App.StartNewChat | chat_bot.py:237-246 | the fresh session goes to the head and becomes current; it has the greeting only when not initial; the other sessions keep their order |
| Chat.App.SelectChat | chat_bot.py:255-263 | selecting a chat changes only the current id; re-rendering with `initial=True` records nothing |
| Chat.App.RenderMessage | chat_bot.py:274-281 | with `initial` nothing changes; otherwise the current session becomes `Sessions.Record` of it |
| Chat.App.SendMessage | chat_bot.py:354-388 | an empty stripped input or no model changes nothing; otherwise the store becomes `Sessions.Send`, the old worker is stopped, and a fresh running worker over the session's messages takes the slot |
| Chat.App.Submit | chat_bot.py:362-388 | past the guard: the user text is recorded as `Sessions.Send` says and the worker slot is replaced |
| Chat.App.PostUserText | chat_bot.py:362-364 | the append at 363 followed by `_render_message` makes the store `Sessions.Send` |
| Chat.App.ReplaceWorker | chat_bot.py:379-388 | any worker in the slot is stopped before a fresh running worker takes the slot |
| Chat.App.Deliver | chat_bot.py:397-411 | `error_occurred` changes nothing; `full_response` makes the store `Sessions.Reply` for the worker's session and the current one, and empties the slot |
| Chat.App.DeliverFrom | chat_bot.py:409-411 | corrected `on_full`: only the worker in the slot commits, once, into its own session, and then the slot is emptied; otherwise nothing changes |
| Chat.Ready | chat_bot.py:355-360 | `send_message` goes past its guard exactly when a model is selected and the input holds a character that is not white space |
| Chat.WordIsReady | chat_bot.py:355-360 | a word that neither starts nor ends with white space passes the guard once a model is selected, and is recorded unchanged |
| Chat.HelloExchange | chat_bot.py:362-364 | after sending "Hello" and receiving "Hi there" in a new window, the session holds both messages twice and is still titled "New Chat" |
| Chat.SupersededReplyCommitted | chat_bot.py:379-385 | a worker stopped by a second send before its first line still emits `full_response("")`, and `on_full` records that empty reply twice |
| Chat.ReplyAfterNewChat | chat_bot.py:409-410 | a reply that arrives after a new chat was started is appended to its own session and also recorded in the new current one |

## Left out

- Qt widgets, layout, animation, scrolling, clipboard and the signal wiring are
  not modelled. A signal reaching the window is a call of `Chat.App.Deliver`
  with the worker's outcome. The placeholder bubble that `on_full` removes is
  not modelled, and neither are the `typing_signal` status texts.
- `_show_system` notices ("Select a model first", "AI Error: ...") are not
  modelled. Only the fact that nothing else changes is modelled.
- HTTP (`requests.post`, `requests.get`, timeouts, `raise_for_status`) is a
  parameter. The chat request is a `Stream.Response`. The tags request is a
  `Models.TagsReply`. The messages (`str(e)`) of request, connection and
  `load_models` exceptions are carried as opaque reasons.
- `Stream.ContentNotText`: the message of the `TypeError` that `full += content`
  raises for a non-string content is dropped; only the kind of error is kept,
  because its text comes from the Python runtime, not from the program.
- `json.loads` is abstracted into the `Stream.Line` datatype. Records that are
  not objects, and messages that are not dicts, are values of it.
- Threads, `wait(200)` and the order in which signals from two workers reach the
  window are not modelled. The moment `stop()` lands is the `stopAt` parameter
  of `Stream.Worker.Run`, and the order of deliveries is the order of calls.
- `Stream.Worker.messages`: the worker holds a snapshot of the session's message
  list. In the source it holds the list itself, which later appends also reach.
  The request is built when `run` starts, so only the timing of that start is
  lost.
- `uuid.uuid4()` is a parameter of `Chat.App.StartNewChat` and of the
  constructor, with the requirement that it differs from every existing id.
- `_on_model_selected` (reading the drop-down's current text),
  `_refresh_chat_list`, `_clear_chat_display`, voice input, text-to-speech and
  `load_file` are not modelled. These are UI, audio and file I/O over libraries
  that are not part of this model.
- `Models.Entry`: a model entry whose `name` is present but not a string is not
  modelled. Names are strings or absent.
- `Chat.App.SelectChat`: it requires that the selected id is in the list, as the
  list widget only offers ids of existing sessions.

## Findings

| source | as written | input that shows it | evidently intended | confidence | as-written member | corrected member |
|---|---|---|---|---|---|---|
| chat_bot.py:363-364, 279 | `send_message` appends the user message, then `_render_message` appends it again, so the first-message check sees two user messages and the title is never derived | send "Hello" in a new chat: the messages are [user Hello, user Hello] and the title stays "New Chat" | each message recorded once, and the title set from the first user message | high (not executed) | Chat.HelloExchange | Sessions.TitleSetByFirstMessage |
| chat_bot.py:409-410 | `on_full` appends the reply, then `_render_message` appends it again | a reply "Hi there" is stored as two assistant messages | the reply recorded once | high (not executed) | Sessions.Reply | Sessions.ReplyOnce |
| chat_bot.py:55-56, 74, 379-385, 409-411 | a worker stopped by a newer send still emits `full_response` with what it has; its `on_full` commits that text and empties the slot, which now holds the newer worker | send "A", then "B" before A's first line: A emits `full_response("")` and two empty assistant messages are stored | a superseded worker commits nothing and leaves the slot alone | medium (not executed) | Chat.SupersededReplyCommitted | Chat.App.DeliverFrom |
| chat_bot.py:409-410, 265-266 | `on_full` appends to the worker's session, but `_render_message` records the reply in whichever session is current | send "A", start a new chat, then the reply "Hi" arrives: the new chat also holds "Hi" after its greeting | the reply recorded only in the session it answers | high (not executed) | Chat.ReplyAfterNewChat | Chat.App.DeliverFrom |
