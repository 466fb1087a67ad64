/**
 * The bookkeeping of the chat window `AIAssistantApp`: the session list
 * `chat_sessions` (most recent first), the `current_session_id`, the selected
 * model, and the single worker slot `ollama_worker`. Widgets, layout and the
 * signal wiring are not modelled; a signal delivered to the window is a call
 * of `Deliver` with the worker's outcome.
 */
module Chat {
  import opened Wrappers
  import Text
  import Sessions
  import Stream
  import Models

  class App {
    var sessions: seq<Sessions.Session>
    var currentId: string
    var currentModel: Option<string>
    var offered: seq<string>          // the items of the model drop-down
    var status: Models.Status
    var worker: Stream.Worker?

    /** Ids are unique and the current id names a session, so `_get_session` never raises. */
    ghost predicate Valid()
      reads this
    {
      Sessions.UniqueIds(sessions) && Sessions.Find(sessions, currentId).Some?
    }

    /** `_get_session()`: the position of the current session. */
    function CurrentIndex(): (k: nat)
      reads this
      requires Valid()
      ensures k < |sessions| && sessions[k].id == currentId
      ensures forall j :: 0 <= j < |sessions| && sessions[j].id == currentId ==> j == k
    {
      var k := Sessions.Find(sessions, currentId).value;
      assert forall j :: 0 <= j < |sessions| && sessions[j].id == currentId ==> j == k by {
        forall j | 0 <= j < |sessions| && sessions[j].id == currentId
          ensures j == k
        {
          Sessions.FindUnique(sessions, j);
        }
      }
      k
    }

    /**
     * `__init__`: no sessions, no worker; the models are loaded and the first
     * session is created without a greeting.
     */
    constructor (freshId: string, reply: Models.TagsReply)
      ensures Valid()
      ensures sessions == [Sessions.Session(freshId, Sessions.NewChatTitle, [])] && currentId == freshId
      ensures (offered, currentModel, status) == Models.LoadModels(reply)
      ensures worker == null
    {
      sessions := [];
      currentId := freshId;
      currentModel := None;
      offered := [];
      status := Models.NoModels;
      worker := null;
      new;
      LoadModels(reply);
      StartNewChat(freshId, true);
    }

    /** `load_models()`: refreshes the drop-down, the selected model and the status. */
    method LoadModels(reply: Models.TagsReply)
      modifies this`offered, this`currentModel, this`status
      ensures (offered, currentModel, status) == Models.LoadModels(reply)
      ensures sessions == old(sessions) && currentId == old(currentId) && worker == old(worker)
    {
      var r := Models.LoadModels(reply);
      offered, currentModel, status := r.0, r.1, r.2;
    }

    /**
     * `start_new_chat(initial)`: a session with the fresh id, the default
     * title and no messages goes to the head of the list and becomes current;
     * unless `initial`, the greeting is then recorded in it.
     */
    method StartNewChat(id: string, initial: bool)
      requires Sessions.UniqueIds(sessions) && Sessions.Find(sessions, id).None?
      modifies this
      ensures Valid()
      ensures sessions == [Sessions.Session(id, Sessions.NewChatTitle,
                                            if initial then [] else [Sessions.Message(Sessions.Assistant, Sessions.Greeting)])]
                          + old(sessions)
      ensures currentId == id
      ensures worker == old(worker) && currentModel == old(currentModel)
      ensures offered == old(offered) && status == old(status)
    {
      var created := Sessions.Session(id, Sessions.NewChatTitle, []);
      Sessions.InsertKeepsLookup(sessions, created);
      sessions := [created] + sessions;
      currentId := id;
      if !initial {
        ghost var inserted := sessions;
        assert CurrentIndex() == 0;
        RenderMessage(Sessions.Assistant, Sessions.Greeting, false);
        var greeted := Sessions.Record(created, Sessions.Assistant, Sessions.Greeting);
        assert greeted == Sessions.Session(id, Sessions.NewChatTitle, [Sessions.Message(Sessions.Assistant, Sessions.Greeting)]);
        assert sessions == inserted[0 := greeted];
      }
    }

    /**
     * `_on_chat_selected`: another session of the list becomes current; the
     * re-rendering of its messages uses `initial=True` and records nothing.
     */
    method SelectChat(id: string)
      requires Valid() && Sessions.Find(sessions, id).Some?
      modifies this`currentId
      ensures Valid() && currentId == id
      ensures sessions == old(sessions) && worker == old(worker) && currentModel == old(currentModel)
      ensures offered == old(offered) && status == old(status)
    {
      if id == currentId {
        return;
      }
      currentId := id;
    }

    /**
     * The bookkeeping half of `_render_message(role, text, initial)`: with
     * `initial` nothing is recorded; otherwise the current session gets the
     * message appended and, when it is its first user message, its title.
     */
    method RenderMessage(role: Sessions.Role, text: string, initial: bool)
      requires Valid()
      modifies this`sessions
      ensures Valid()
      ensures initial ==> sessions == old(sessions)
      ensures !initial ==> sessions == old(sessions)[old(CurrentIndex()) := Sessions.Record(old(sessions)[old(CurrentIndex())], role, text)]
    {
      if !initial {
        var k := CurrentIndex();
        var s := Sessions.Record(sessions[k], role, text);
        Sessions.UpdateKeepsLookup(sessions, k, s, currentId);
        sessions := sessions[k := s];
      }
    }

    /**
     * `send_message()`: nothing happens when the stripped input is empty or
     * no model is selected. Otherwise the user text is recorded twice in the
     * current session (see `Sessions.Send`); the worker in the slot, if any,
     * is stopped and dropped, and a new running worker over the session's
     * messages takes the slot. `sid` is the session the callbacks of the new
     * worker hold on to.
     */
    method SendMessage(input: string) returns (w: Stream.Worker?, sid: string)
      requires Valid()
      modifies this`sessions, this`worker, worker
      ensures Valid() && currentId == old(currentId)
      ensures currentModel == old(currentModel) && offered == old(offered) && status == old(status)
      ensures !Ready(input, old(currentModel)) ==>
                w == null && sessions == old(sessions) && worker == old(worker)
                && (old(worker) != null ==> old(worker).running == old(worker.running))
      ensures Ready(input, old(currentModel)) ==>
                && sessions == Sessions.Send(old(sessions), old(CurrentIndex()), Text.Strip(input))
                && (old(worker) != null ==> !old(worker).running)
                && w != null && fresh(w) && worker == w && w.running
                && w.model == old(currentModel).value && w.messages == sessions[old(CurrentIndex())].messages
                && sid == currentId
    {
      w, sid := null, "";
      if !Ready(input, currentModel) {
        return;  // an empty input is ignored; without a model "Select a model first" is shown
      }
      w, sid := Submit(Text.Strip(input));
    }

    /** The part of `send_message` past its guard. */
    method Submit(text: string) returns (w: Stream.Worker, sid: string)
      requires Valid() && currentModel.Some?
      modifies this`sessions, this`worker, worker
      ensures Valid()
      ensures sessions == Sessions.Send(old(sessions), old(CurrentIndex()), text)
      ensures old(worker) != null ==> !old(worker).running
      ensures fresh(w) && worker == w && w.running
      ensures w.model == currentModel.value && w.messages == sessions[old(CurrentIndex())].messages
      ensures sid == currentId
    {
      var k := CurrentIndex();
      PostUserText(text);
      ghost var sent := sessions;
      assert Valid() && CurrentIndex() == k;
      w := ReplaceWorker(currentModel.value, sessions[k].messages);
      assert sessions == sent;
      sid := currentId;
    }

    /**
     * `send_message` records the user text in the current session twice: it
     * appends it itself, then `_render_message` records it again.
     */
    method PostUserText(text: string)
      requires Valid()
      modifies this`sessions
      ensures Valid()
      ensures sessions == Sessions.Send(old(sessions), old(CurrentIndex()), text)
    {
      var k := CurrentIndex();
      var appended := Sessions.Append(sessions[k], Sessions.Message(Sessions.User, text));
      Sessions.UpdateKeepsLookup(sessions, k, appended, currentId);
      sessions := sessions[k := appended];
      assert CurrentIndex() == k;
      RenderMessage(Sessions.User, text, false);
    }

    /**
     * The single worker slot in `send_message`: the worker it holds, if any,
     * is stopped and dropped before a new running worker over `messages`
     * takes the slot.
     */
    method ReplaceWorker(model: string, messages: seq<Sessions.Message>) returns (w: Stream.Worker)
      modifies this`worker, worker
      ensures fresh(w) && worker == w && w.running && w.model == model && w.messages == messages
      ensures old(worker) != null ==> !old(worker).running
    {
      if worker != null {
        worker.Stop();
        worker := null;
      }
      w := new Stream.Worker(model, messages);
      worker := w;
    }

    /**
     * A terminal signal of a worker started for session `sid` reaches the
     * window. `error_occurred` only shows a notice. `full_response` runs
     * `on_full` (see `Sessions.Reply`): the text is appended to `sid`'s
     * session, recorded again in the current session, and the slot is
     * emptied, whichever worker it holds.
     */
    method Deliver(sid: string, outcome: Stream.Outcome)
      requires Valid() && Sessions.Find(sessions, sid).Some?
      modifies this`sessions, this`worker
      ensures Valid() && currentId == old(currentId) && currentModel == old(currentModel)
      ensures offered == old(offered) && status == old(status)
      ensures outcome.ErrorOccurred? ==> sessions == old(sessions) && worker == old(worker)
      ensures outcome.FullResponse? ==>
                && sessions == Sessions.Reply(old(sessions), Sessions.Find(old(sessions), sid).value, old(CurrentIndex()), outcome.full)
                && worker == null
    {
      if outcome.ErrorOccurred? {
        return;  // "AI Error: ..." is shown
      }
      var j := Sessions.Find(sessions, sid).value;
      var appended := Sessions.Append(sessions[j], Sessions.Message(Sessions.Assistant, outcome.full));
      Sessions.UpdateKeepsLookup(sessions, j, appended, currentId);
      ghost var k := CurrentIndex();
      sessions := sessions[j := appended];
      assert CurrentIndex() == k;
      RenderMessage(Sessions.Assistant, outcome.full, false);
      worker := null;
    }

    /**
     * `full_response` delivered as evidently intended: only the worker that
     * still holds the slot may commit, and it records its text once, in the
     * session it was started for. A stopped, superseded worker changes
     * nothing, and neither does an error.
     */
    method DeliverFrom(w: Stream.Worker, sid: string, outcome: Stream.Outcome)
      requires Valid() && Sessions.Find(sessions, sid).Some?
      modifies this`sessions, this`worker
      ensures Valid() && currentId == old(currentId) && currentModel == old(currentModel)
      ensures offered == old(offered) && status == old(status)
      ensures w != old(worker) || outcome.ErrorOccurred? ==> sessions == old(sessions) && worker == old(worker)
      ensures w == old(worker) && outcome.FullResponse? ==>
                && sessions == Sessions.ReplyOnce(old(sessions), Sessions.Find(old(sessions), sid).value, outcome.full)
                && worker == null
    {
      if w != worker || outcome.ErrorOccurred? {
        return;
      }
      var j := Sessions.Find(sessions, sid).value;
      var reply := Sessions.Record(sessions[j], Sessions.Assistant, outcome.full);
      Sessions.UpdateKeepsLookup(sessions, j, reply, currentId);
      sessions := sessions[j := reply];
      worker := null;
    }
  }

  /** The guard of `send_message`: some text is left after stripping, and a model is selected. */
  function Ready(input: string, model: Option<string>): (ok: bool)
    ensures ok <==> model.Some? && model.value != ""
                    && exists k :: 0 <= k < |input| && !Text.IsSpace(input[k])
  {
    Text.StripEmpty(input);
    Text.Strip(input) != [] && model.Some? && model.value != ""
  }

  // ---------------------------------------------------------------------------
  // Whole exchanges
  // ---------------------------------------------------------------------------

  function UserSays(t: string): Sessions.Message {
    Sessions.Message(Sessions.User, t)
  }

  function AssistantSays(t: string): Sessions.Message {
    Sessions.Message(Sessions.Assistant, t)
  }

  /** The session `__init__` creates. */
  function FirstSession(): Sessions.Session {
    Sessions.Session("s1", Sessions.NewChatTitle, [])
  }

  /**
   * A word that neither starts nor ends with white space passes the guard of
   * `send_message` once a model is selected, and is recorded unchanged.
   */
  lemma {:induction false} WordIsReady(t: string, model: string)
    requires t != [] && !Text.IsSpace(t[0]) && !Text.IsSpace(t[|t| - 1]) && model != ""
    ensures Text.Strip(t) == t && Ready(t, Some(model))
  {
    Text.StripMeaning(t);
  }

  lemma {:induction false} Twice(u: Sessions.Message, a: Sessions.Message)
    ensures [u, u] + [a, a] == [u, u, a, a]
  {
  }

  /**
   * "Hello" is sent in a new window and the server streams "Hi", " there"
   * and `done` (`Stream.TwoChunks`): the session then holds both messages
   * twice and keeps the default title.
   */
  lemma {:induction false} HelloExchange()
    ensures Sessions.Reply(Sessions.Send([FirstSession()], 0, "Hello"), 0, 0, "Hi there")[0]
            == Sessions.Session("s1", Sessions.NewChatTitle,
                                [UserSays("Hello"), UserSays("Hello"), AssistantSays("Hi there"), AssistantSays("Hi there")])
  {
    var sent := Sessions.Send([FirstSession()], 0, "Hello");
    assert sent[0].messages == [UserSays("Hello"), UserSays("Hello")];
    var r := Sessions.Reply(sent, 0, 0, "Hi there");
    assert r[0].id == "s1" && r[0].title == Sessions.NewChatTitle;
    Twice(UserSays("Hello"), AssistantSays("Hi there"));
  }

  /**
   * "A" is sent, then "B" before the first worker has taken its first line:
   * `send_message` has stopped it, yet it emits `full_response("")`, and
   * `on_full` records that empty reply twice (and empties the slot, which
   * then holds the second worker).
   */
  lemma {:induction false} SupersededReplyCommitted(lines: seq<Stream.Line>, broken: Option<string>)
    requires lines != []
    ensures Stream.Consume(lines, broken, 0, []).outcome == Stream.FullResponse("")
    ensures var sent := Sessions.Send(Sessions.Send([FirstSession()], 0, "A"), 0, "B");
            Sessions.Reply(sent, 0, 0, "")[0].messages
            == [UserSays("A"), UserSays("A"), UserSays("B"), UserSays("B"), AssistantSays(""), AssistantSays("")]
  {
    Stream.StoppedBeforeStart(lines, broken);
    var once := Sessions.Send([FirstSession()], 0, "A");
    assert once[0].messages == [UserSays("A"), UserSays("A")];
    var sent := Sessions.Send(once, 0, "B");
    assert sent[0].messages == [UserSays("A"), UserSays("A"), UserSays("B"), UserSays("B")];
  }

  /**
   * "A" is sent in the first session, then a new chat is started before the
   * reply "Hi" arrives: the reply is appended to the first session and also
   * recorded in the new, current one after its greeting.
   */
  lemma {:induction false} ReplyAfterNewChat()
    ensures var sent := Sessions.Send([FirstSession()], 0, "A");
            var created := Sessions.Session("s2", Sessions.NewChatTitle, [AssistantSays(Sessions.Greeting)]);
            var r := Sessions.Reply([created] + sent, 1, 0, "Hi");
            && r[1].messages == [UserSays("A"), UserSays("A"), AssistantSays("Hi")]
            && r[0].messages == [AssistantSays(Sessions.Greeting), AssistantSays("Hi")]
  {
    var a, g, hi := UserSays("A"), AssistantSays(Sessions.Greeting), AssistantSays("Hi");
    var sent := Sessions.Send([FirstSession()], 0, "A");
    assert sent[0].messages == [a, a];
    var created := Sessions.Session("s2", Sessions.NewChatTitle, [g]);
    var ss := [created] + sent;
    assert ss[1] == sent[0] && ss[0] == created;
    var r := Sessions.Reply(ss, 1, 0, "Hi");
    assert r[1].messages == [a, a] + [hi];
    assert r[0].messages == [g] + [hi];
  }
}
