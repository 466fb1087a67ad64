/**
 * The session store as values: a session is `{id, title, messages}`, the store
 * is the list `chat_sessions`, most recently created first. The functions here
 * are the pure halves of `_get_session` and of the bookkeeping in
 * `_render_message`; the class in module Chat applies them in place.
 */
module Sessions {
  import opened Wrappers
  import Text

  datatype Role = User | Assistant

  /** `{"role": ..., "content": ...}` */
  datatype Message = Message(role: Role, content: string)

  /** `{"id": ..., "title": ..., "messages": [...]}` */
  datatype Session = Session(id: string, title: string, messages: seq<Message>)

  const NewChatTitle: string := "New Chat"
  const Greeting: string := "Hello! How can I help you?"

  /** No two sessions share an id. */
  predicate UniqueIds(ss: seq<Session>) {
    forall i, j :: 0 <= i < j < |ss| ==> ss[i].id != ss[j].id
  }

  /**
   * `next(s for s in chat_sessions if s["id"] == id)`: the position of the first
   * session with that id; `None` where Python would raise StopIteration.
   */
  function Find(ss: seq<Session>, id: string): (r: Option<nat>)
    ensures r.Some? ==> r.value < |ss| && ss[r.value].id == id
    ensures r.Some? ==> forall k :: 0 <= k < r.value ==> ss[k].id != id
    ensures r.None? <==> forall k :: 0 <= k < |ss| ==> ss[k].id != id
    decreases |ss|
  {
    if ss == [] then None
    else if ss[0].id == id then Some(0)
    else match Find(ss[1..], id)
      case None => None
      case Some(k) => Some(k + 1)
  }

  /** With unique ids, looking up a session's id finds that session. */
  lemma {:induction false} FindUnique(ss: seq<Session>, k: nat)
    requires UniqueIds(ss) && k < |ss|
    ensures Find(ss, ss[k].id) == Some(k)
  {
  }

  /** Two stores with the same ids at the same positions. */
  predicate SameIds(a: seq<Session>, b: seq<Session>) {
    |a| == |b| && forall k :: 0 <= k < |a| ==> a[k].id == b[k].id
  }

  /** Changing sessions in place, without touching ids, changes no lookup. */
  lemma {:induction false} SameIdsSameLookup(a: seq<Session>, b: seq<Session>, id: string)
    requires SameIds(a, b)
    ensures Find(a, id) == Find(b, id)
    ensures UniqueIds(a) <==> UniqueIds(b)
  {
  }

  /** Replacing one session by one with the same id changes no lookup. */
  lemma {:induction false} UpdateKeepsLookup(ss: seq<Session>, i: nat, s: Session, id: string)
    requires i < |ss| && s.id == ss[i].id
    ensures Find(ss[i := s], id) == Find(ss, id)
    ensures UniqueIds(ss[i := s]) <==> UniqueIds(ss)
  {
    SameIdsSameLookup(ss, ss[i := s], id);
  }

  /** The number of messages from the user. */
  function UserCount(msgs: seq<Message>): (n: nat)
    ensures n <= |msgs|
    decreases |msgs|
  {
    if msgs == [] then 0
    else UserCount(msgs[..|msgs| - 1]) + (if msgs[|msgs| - 1].role == User then 1 else 0)
  }

  /** The count is zero exactly when no message is from the user. */
  lemma {:induction false} UserCountZero(msgs: seq<Message>)
    ensures UserCount(msgs) == 0 <==> forall k :: 0 <= k < |msgs| ==> msgs[k].role != User
    decreases |msgs|
  {
    if msgs != [] {
      var front := msgs[..|msgs| - 1];
      UserCountZero(front);
      assert forall k :: 0 <= k < |front| ==> front[k] == msgs[k];
    }
  }

  lemma {:induction false} UserCountAppend(msgs: seq<Message>, m: Message)
    ensures UserCount(msgs + [m]) == UserCount(msgs) + (if m.role == User then 1 else 0)
  {
    assert (msgs + [m])[..|msgs|] == msgs;
  }

  /** `session["messages"].append(m)` on its own, as `send_message` and `on_full` do it. */
  function Append(s: Session, m: Message): (r: Session)
    ensures r.id == s.id && r.title == s.title
    ensures |r.messages| == |s.messages| + 1 && r.messages[..|s.messages|] == s.messages
    ensures r.messages[|s.messages|] == m
  {
    s.(messages := s.messages + [m])
  }

  /**
   * The persistence half of `_render_message(role, text)` with initial=False:
   * the message is appended, and the title is recomputed when, after the
   * append, the session holds exactly one user message. Read in terms of the
   * session before the call: the title changes only for the first user message.
   */
  function Record(s: Session, role: Role, text: string): (r: Session)
    ensures r.id == s.id
    ensures r.messages == s.messages + [Message(role, text)]
    ensures role == User && UserCount(s.messages) == 0 ==> r.title == Text.Title(text)
    ensures role != User || UserCount(s.messages) != 0 ==> r.title == s.title
  {
    var msgs := s.messages + [Message(role, text)];
    UserCountAppend(s.messages, Message(role, text));
    Session(s.id, if role == User && UserCount(msgs) == 1 then Text.Title(text) else s.title, msgs)
  }

  /**
   * The log only grows: every session of `before` is still present under its
   * id in `after`, and its old messages are a prefix of its new ones.
   */
  ghost predicate Grows(before: seq<Session>, after: seq<Session>) {
    forall k :: 0 <= k < |before| ==>
      Find(after, before[k].id).Some?
      && before[k].messages <= after[Find(after, before[k].id).value].messages
  }

  lemma {:induction false} GrowsByUpdate(ss: seq<Session>, i: nat, s: Session)
    requires UniqueIds(ss) && i < |ss| && s.id == ss[i].id && ss[i].messages <= s.messages
    ensures Grows(ss, ss[i := s]) && SameIds(ss, ss[i := s]) && UniqueIds(ss[i := s])
  {
    var after := ss[i := s];
    forall k | 0 <= k < |ss|
      ensures Find(after, ss[k].id) == Some(k)
    {
      SameIdsSameLookup(ss, after, ss[k].id);
      FindUnique(ss, k);
    }
    SameIdsSameLookup(ss, after, s.id);
  }

  /** A session with a new id goes to the head; it is found there and ids stay unique. */
  lemma {:induction false} InsertKeepsLookup(ss: seq<Session>, s: Session)
    requires UniqueIds(ss) && Find(ss, s.id).None?
    ensures UniqueIds([s] + ss) && Find([s] + ss, s.id) == Some(0)
  {
  }

  lemma {:induction false} GrowsByInsert(ss: seq<Session>, s: Session)
    requires UniqueIds(ss) && Find(ss, s.id).None?
    ensures Grows(ss, [s] + ss) && UniqueIds([s] + ss) && Find([s] + ss, s.id) == Some(0)
    ensures forall k :: 0 <= k < |ss| ==> Find([s] + ss, ss[k].id) == Some(k + 1) && ([s] + ss)[k + 1] == ss[k]
  {
    InsertKeepsLookup(ss, s);
    forall k | 0 <= k < |ss|
      ensures Find([s] + ss, ss[k].id) == Some(k + 1)
    {
      FindUnique(ss, k);
      FindCons(s, ss, ss[k].id);
    }
  }

  /** Looking past a head session with another id. */
  lemma {:induction false} FindCons(s: Session, ss: seq<Session>, id: string)
    requires s.id != id
    ensures Find([s] + ss, id) == if Find(ss, id).Some? then Some(Find(ss, id).value + 1) else None
  {
    assert ([s] + ss)[1..] == ss;
  }

  lemma {:induction false} GrowsTransitive(a: seq<Session>, b: seq<Session>, c: seq<Session>)
    requires Grows(a, b) && Grows(b, c)
    ensures Grows(a, c)
  {
    forall k | 0 <= k < |a|
      ensures Find(c, a[k].id).Some? && a[k].messages <= c[Find(c, a[k].id).value].messages
    {
      var j := Find(b, a[k].id).value;
      assert b[j].id == a[k].id;
    }
  }

  // ---------------------------------------------------------------------------
  // The store updates of send_message and on_full
  // ---------------------------------------------------------------------------

  /**
   * What `send_message` does to the store, `k` being the current session:
   * its own append of the user text, then `_render_message`'s. The title
   * check then counts two user messages, so the title is never derived.
   */
  function Send(ss: seq<Session>, k: nat, text: string): (r: seq<Session>)
    requires k < |ss|
    ensures SameIds(ss, r)
    ensures r[k].messages == ss[k].messages + [Message(User, text), Message(User, text)]
    ensures r[k].title == ss[k].title
    ensures forall i :: 0 <= i < |ss| && i != k ==> r[i] == ss[i]
  {
    var once := Append(ss[k], Message(User, text));
    UserCountAppend(ss[k].messages, Message(User, text));
    ss[k := Record(once, User, text)]
  }

  /**
   * What `on_full(full)` does to the store: the reply is appended to the
   * session `j` the worker was started for, then `_render_message` records it
   * in the current session `k`. When they are the same session it holds the
   * reply twice; otherwise each of them holds it once.
   */
  function Reply(ss: seq<Session>, j: nat, k: nat, full: string): (r: seq<Session>)
    requires j < |ss| && k < |ss|
    ensures SameIds(ss, r)
    ensures j == k ==> r[j].messages == ss[j].messages + [Message(Assistant, full), Message(Assistant, full)]
    ensures j != k ==> r[j].messages == ss[j].messages + [Message(Assistant, full)]
                       && r[k].messages == ss[k].messages + [Message(Assistant, full)]
    ensures forall i :: 0 <= i < |ss| ==> r[i].title == ss[i].title
    ensures forall i :: 0 <= i < |ss| && i != j && i != k ==> r[i] == ss[i]
  {
    var once := ss[j := Append(ss[j], Message(Assistant, full))];
    once[k := Record(once[k], Assistant, full)]
  }

  /** What `send_message` does to the store keeps every log append-only. */
  lemma {:induction false} SendAppendOnly(ss: seq<Session>, k: nat, text: string)
    requires UniqueIds(ss) && k < |ss|
    ensures Grows(ss, Send(ss, k, text)) && UniqueIds(Send(ss, k, text))
  {
    GrowsByUpdate(ss, k, Send(ss, k, text)[k]);
    assert Send(ss, k, text) == ss[k := Send(ss, k, text)[k]];
  }

  /** What `on_full` does to the store keeps every log append-only. */
  lemma {:induction false} ReplyAppendOnly(ss: seq<Session>, j: nat, k: nat, full: string)
    requires UniqueIds(ss) && j < |ss| && k < |ss|
    ensures Grows(ss, Reply(ss, j, k, full)) && UniqueIds(Reply(ss, j, k, full))
  {
    var once := ss[j := Append(ss[j], Message(Assistant, full))];
    GrowsByUpdate(ss, j, once[j]);
    GrowsByUpdate(once, k, Record(once[k], Assistant, full));
    GrowsTransitive(ss, once, once[k := Record(once[k], Assistant, full)]);
  }

  // ---------------------------------------------------------------------------
  // The same updates, each message recorded once
  // ---------------------------------------------------------------------------

  /** `send_message` recording the user text once, through `_render_message` alone. */
  function SendOnce(ss: seq<Session>, k: nat, text: string): (r: seq<Session>)
    requires k < |ss|
    ensures SameIds(ss, r)
    ensures r[k].messages == ss[k].messages + [Message(User, text)]
    ensures forall i :: 0 <= i < |ss| && i != k ==> r[i] == ss[i]
  {
    ss[k := Record(ss[k], User, text)]
  }

  /** `on_full` recording the reply once, in the session the worker was started for. */
  function ReplyOnce(ss: seq<Session>, j: nat, full: string): (r: seq<Session>)
    requires j < |ss|
    ensures SameIds(ss, r)
    ensures r[j].messages == ss[j].messages + [Message(Assistant, full)] && r[j].title == ss[j].title
    ensures forall i :: 0 <= i < |ss| && i != j ==> r[i] == ss[i]
  {
    ss[j := Record(ss[j], Assistant, full)]
  }

  /**
   * With each message recorded once, the title is derived from the first
   * user message and is not recomputed by the reply or by later messages.
   */
  lemma {:induction false} TitleSetByFirstMessage(ss: seq<Session>, k: nat, first: string, full: string, next: string)
    requires k < |ss| && UserCount(ss[k].messages) == 0
    ensures SendOnce(ss, k, first)[k].title == Text.Title(first)
    ensures ReplyOnce(SendOnce(ss, k, first), k, full)[k].title == Text.Title(first)
    ensures SendOnce(ReplyOnce(SendOnce(ss, k, first), k, full), k, next)[k].title == Text.Title(first)
  {
    var s1 := SendOnce(ss, k, first);
    UserCountAppend(ss[k].messages, Message(User, first));
    var s2 := ReplyOnce(s1, k, full);
    UserCountAppend(s1[k].messages, Message(Assistant, full));
  }
}
