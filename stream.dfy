/**
 * The streaming worker `OllamaWorker`: `run` reads the newline-delimited
 * records of one `/api/chat` response, concatenates the `message.content`
 * strings into `full`, emits each of them as a `response_chunk`, and ends with
 * exactly one of `full_response(full)` or `error_occurred(msg)`; `stop` clears
 * the `_running` flag that `run` checks before each line.
 *
 * The HTTP response and `json.loads` are abstracted: a response is the list of
 * lines `iter_lines` yields, each already classified as it parses, and the way
 * the iteration ends (normally, or by raising).
 */
module Stream {
  import opened Wrappers
  import Text
  import Sessions

  /** What `data["message"].get("content")` gives when `data["message"]` is a dict. */
  datatype Content =
    | Falsy              // the key is absent, or `None`, `0`, `false`, `[]`, `{}`: `if content:` skips it
    | Str(s: string)     // a JSON string; the empty string is skipped like any falsy value
    | NotText            // a truthy non-string (a number, a list, ...): `full += content` raises

  /** One element of `r.iter_lines()`, as `json.loads(line.decode("utf-8"))` classifies it. */
  datatype Line =
    | Empty                                          // `if not line: continue`
    | Malformed                                      // decoding or parsing raised: skipped
    | NotAnObject                                    // parsed, but not a dict: neither test applies
    | Record(message: Option<Content>, done: bool)   // a dict; `message` is None unless `data["message"]` is a dict;
                                                     // `done` is the truth of `data.get("done", False)`

  /** The HTTP exchange as `run` sees it. */
  datatype Response =
    | Refused(reason: string)                         // `requests.post` or `raise_for_status` raised
    | Lines(lines: seq<Line>, broken: Option<string>) // the lines, then the end of the body or the error
                                                      // raised when the line after the last is asked for

  /** The exceptions `run` turns into `error_occurred(str(e))`. */
  datatype Error =
    | RequestFailed(reason: string)
    | ConnectionLost(reason: string)
    | ContentNotText

  /** The terminal signal: exactly one of the two is emitted. */
  datatype Outcome = FullResponse(full: string) | ErrorOccurred(error: Error)

  /** The `response_chunk` signals in order, then the terminal signal. */
  datatype Report = Report(chunks: seq<string>, outcome: Outcome)

  /** The line makes `full += content` raise. */
  predicate Raises(l: Line) {
    l.Record? && l.message == Some(NotText)
  }

  /** The line is a record with a true `done`. */
  predicate Ends(l: Line) {
    l.Record? && l.done
  }

  /** The chunk a line contributes: its content when that is a non-empty string. */
  function Piece(l: Line): (r: seq<string>)
    ensures |r| <= 1 && forall k :: 0 <= k < |r| ==> r[k] != ""
    ensures r != [] <==> l.Record? && l.message.Some? && l.message.value.Str? && l.message.value.s != ""
  {
    if l.Record? && l.message.Some? && l.message.value.Str? && l.message.value.s != "" then [l.message.value.s] else []
  }

  /**
   * The loop of `run`, one line at a time. `budget` counts the lines the loop
   * may still take before it finds `_running` cleared; `emitted` holds the
   * chunks emitted so far, whose concatenation is `full`. The next line is
   * asked for before the flag is checked, so a broken connection raises even
   * when the worker has been stopped.
   */
  function Consume(lines: seq<Line>, broken: Option<string>, budget: nat, emitted: seq<string>): (r: Report)
    ensures emitted <= r.chunks
    ensures r.outcome.FullResponse? ==> r.outcome.full == Text.Concat(r.chunks)
    ensures !(r.outcome.ErrorOccurred? && r.outcome.error.RequestFailed?)
    decreases |lines|
  {
    if lines == [] then
      Report(emitted, if broken.Some? then ErrorOccurred(ConnectionLost(broken.value)) else FullResponse(Text.Concat(emitted)))
    else if budget == 0 then Report(emitted, FullResponse(Text.Concat(emitted)))
    else if Raises(lines[0]) then Report(emitted, ErrorOccurred(ContentNotText))
    else if Ends(lines[0]) then
      var e := emitted + Piece(lines[0]);
      Report(e, FullResponse(Text.Concat(e)))
    else Consume(lines[1..], broken, budget - 1, emitted + Piece(lines[0]))
  }

  /** `run` on a whole response, with `budget` lines allowed before the stop lands. */
  function Process(resp: Response, budget: nat): (r: Report)
    ensures r.outcome.FullResponse? ==> r.outcome.full == Text.Concat(r.chunks)
    ensures (r.outcome.ErrorOccurred? && r.outcome.error.RequestFailed?) <==> resp.Refused?
    ensures resp.Refused? ==> r.chunks == [] && r.outcome.error.reason == resp.reason
  {
    match resp
    case Refused(reason) => Report([], ErrorOccurred(RequestFailed(reason)))
    case Lines(lines, broken) => Consume(lines, broken, budget, [])
  }

  // ---------------------------------------------------------------------------
  // A reference description: which lines are taken, and what they contribute
  // ---------------------------------------------------------------------------

  /** The number of lines up to and including the first `done` record (all of them if there is none). */
  function UpToDone(lines: seq<Line>): (n: nat)
    ensures n <= |lines|
    ensures forall k :: 0 <= k < n - 1 ==> !Ends(lines[k])
    ensures n < |lines| ==> 0 < n && Ends(lines[n - 1])
    decreases |lines|
  {
    if lines == [] then 0 else if Ends(lines[0]) then 1 else 1 + UpToDone(lines[1..])
  }

  function Min(a: nat, b: nat): nat {
    if a <= b then a else b
  }

  /** The lines the loop takes: at most `budget`, and none after the first `done` record. */
  function Taken(lines: seq<Line>, budget: nat): (r: seq<Line>)
    ensures r <= lines
  {
    lines[..Min(budget, UpToDone(lines))]
  }

  /** The loop takes every line and then asks for one more. */
  predicate Exhausted(lines: seq<Line>, budget: nat) {
    budget >= |lines| && forall k :: 0 <= k < |lines| ==> !Ends(lines[k])
  }

  predicate AnyRaises(lines: seq<Line>) {
    exists k :: 0 <= k < |lines| && Raises(lines[k])
  }

  /** The non-empty content strings of the lines, in order, up to the first line that raises. */
  function Pieces(lines: seq<Line>): (r: seq<string>)
    decreases |lines|
  {
    if lines == [] then []
    else if Raises(lines[0]) then []
    else Piece(lines[0]) + Pieces(lines[1..])
  }

  lemma {:induction false} UpToDoneTail(lines: seq<Line>)
    requires lines != [] && !Ends(lines[0])
    ensures UpToDone(lines) == 1 + UpToDone(lines[1..])
  {
  }

  lemma {:induction false} PiecesPrefix(a: seq<Line>, b: seq<Line>)
    requires a <= b
    ensures Pieces(a) <= Pieces(b)
    decreases |a|
  {
    if a != [] {
      assert a[1..] <= b[1..];
      PiecesPrefix(a[1..], b[1..]);
    }
  }

  lemma {:induction false} ConcatPrefix(ps: seq<string>, qs: seq<string>)
    requires ps <= qs
    ensures Text.Concat(ps) <= Text.Concat(qs)
  {
    var rest := qs[|ps|..];
    assert qs == ps + rest;
    Text.ConcatAppend(ps, rest);
  }

  lemma {:induction false} TakenStep(lines: seq<Line>, budget: nat)
    requires lines != [] && budget > 0
    ensures Taken(lines, budget) == [lines[0]] + (if Ends(lines[0]) then [] else Taken(lines[1..], budget - 1))
  {
    if Ends(lines[0]) {
      assert Taken(lines, budget) == lines[..1];
    } else {
      UpToDoneTail(lines);
      var n := Min(budget - 1, UpToDone(lines[1..]));
      assert Taken(lines, budget) == lines[..n + 1];
      assert lines[..n + 1] == [lines[0]] + lines[1..][..n];
    }
  }

  lemma {:induction false} PiecesCons(l: Line, t: seq<Line>)
    ensures Pieces([l] + t) == if Raises(l) then [] else Piece(l) + Pieces(t)
  {
    assert ([l] + t)[0] == l && ([l] + t)[1..] == t;
  }

  lemma {:induction false} AnyRaisesCons(l: Line, t: seq<Line>)
    ensures AnyRaises([l] + t) <==> Raises(l) || AnyRaises(t)
  {
    if AnyRaises([l] + t) && !Raises(l) {
      var k :| 0 <= k < |[l] + t| && Raises(([l] + t)[k]);
      assert k > 0 && t[k - 1] == ([l] + t)[k];
    }
    if AnyRaises(t) {
      var k :| 0 <= k < |t| && Raises(t[k]);
      assert ([l] + t)[k + 1] == t[k];
    }
    if Raises(l) {
      assert ([l] + t)[0] == l;
    }
  }

  lemma {:induction false} ExhaustedStep(lines: seq<Line>, budget: nat)
    requires lines != [] && budget > 0 && !Ends(lines[0])
    ensures Exhausted(lines, budget) <==> Exhausted(lines[1..], budget - 1)
  {
    if Exhausted(lines[1..], budget - 1) {
      forall k | 0 <= k < |lines|
        ensures !Ends(lines[k])
      {
        if k > 0 { assert lines[k] == lines[1..][k - 1]; }
      }
    }
  }

  /**
   * The chunks the loop emits are the non-empty contents of the taken lines,
   * in order, up to the first that raises.
   */
  lemma {:induction false} ConsumeChunks(lines: seq<Line>, broken: Option<string>, budget: nat, emitted: seq<string>)
    ensures Consume(lines, broken, budget, emitted).chunks == emitted + Pieces(Taken(lines, budget))
    decreases |lines|
  {
    if lines == [] || budget == 0 {
      assert Taken(lines, budget) == [];
      assert emitted + [] == emitted;
    } else if Raises(lines[0]) || Ends(lines[0]) {
      LastChunks(lines, broken, budget, emitted);
    } else {
      ConsumeChunks(lines[1..], broken, budget - 1, emitted + Piece(lines[0]));
      NextChunks(lines, broken, budget, emitted);
    }
  }

  /** The induction step of `ConsumeChunks`: one more line that neither raises nor ends the stream. */
  lemma {:induction false} NextChunks(lines: seq<Line>, broken: Option<string>, budget: nat, emitted: seq<string>)
    requires lines != [] && budget > 0 && !Raises(lines[0]) && !Ends(lines[0])
    requires Consume(lines[1..], broken, budget - 1, emitted + Piece(lines[0])).chunks
             == emitted + Piece(lines[0]) + Pieces(Taken(lines[1..], budget - 1))
    ensures Consume(lines, broken, budget, emitted).chunks == emitted + Pieces(Taken(lines, budget))
  {
    ConsumeStep(lines, broken, budget, emitted);
    TakenStep(lines, budget);
    var rest := Taken(lines[1..], budget - 1);
    PiecesCons(lines[0], rest);
    SeqAssoc(emitted, Piece(lines[0]), Pieces(rest));
  }

  lemma {:induction false} SeqAssoc(a: seq<string>, b: seq<string>, c: seq<string>)
    ensures a + b + c == a + (b + c)
  {
  }

  /** A line that neither raises nor ends the stream: its piece is emitted and the loop goes on. */
  lemma ConsumeStep(lines: seq<Line>, broken: Option<string>, budget: nat, emitted: seq<string>)
    requires lines != [] && budget > 0 && !Raises(lines[0]) && !Ends(lines[0])
    ensures Consume(lines, broken, budget, emitted) == Consume(lines[1..], broken, budget - 1, emitted + Piece(lines[0]))
  {
  }

  /** The loop's last line: one that raises, or a `done` record. */
  lemma {:induction false} LastChunks(lines: seq<Line>, broken: Option<string>, budget: nat, emitted: seq<string>)
    requires lines != [] && budget > 0 && (Raises(lines[0]) || Ends(lines[0]))
    ensures Consume(lines, broken, budget, emitted).chunks == emitted + Pieces(Taken(lines, budget))
  {
    TakenStep(lines, budget);
    var rest := if Ends(lines[0]) then [] else Taken(lines[1..], budget - 1);
    PiecesCons(lines[0], rest);
    if Raises(lines[0]) {
      assert emitted + [] == emitted;
    } else {
      assert Pieces(rest) == [];
      assert Piece(lines[0]) + [] == Piece(lines[0]);
    }
  }

  /**
   * The terminal signal, stated without the loop: the type error if one of
   * the taken lines raises, else the connection error if the loop ran past
   * the last line of a broken body, else `full_response` of the concatenated
   * chunks.
   */
  lemma {:induction false} ConsumeOutcome(lines: seq<Line>, broken: Option<string>, budget: nat, emitted: seq<string>)
    ensures Consume(lines, broken, budget, emitted).outcome ==
              if AnyRaises(Taken(lines, budget)) then ErrorOccurred(ContentNotText)
              else if Exhausted(lines, budget) && broken.Some? then ErrorOccurred(ConnectionLost(broken.value))
              else FullResponse(Text.Concat(Consume(lines, broken, budget, emitted).chunks))
    decreases |lines|
  {
    if lines == [] || budget == 0 {
      assert Taken(lines, budget) == [];
      assert lines != [] ==> !Exhausted(lines, budget);
    } else if Raises(lines[0]) {
      assert Taken(lines, budget)[0] == lines[0];
    } else if Ends(lines[0]) {
      TakenStep(lines, budget);
      AnyRaisesCons(lines[0], []);
      assert !Exhausted(lines, budget);
    } else {
      TakenStep(lines, budget);
      AnyRaisesCons(lines[0], Taken(lines[1..], budget - 1));
      ExhaustedStep(lines, budget);
      ConsumeOutcome(lines[1..], broken, budget - 1, emitted + Piece(lines[0]));
    }
  }

  /**
   * The full text is the in-order concatenation of every non-empty content
   * string of the taken lines; empty lines, unparsable lines, non-dict
   * messages and empty contents add nothing.
   */
  lemma {:induction false} FullIsConcatenation(lines: seq<Line>, broken: Option<string>, budget: nat)
    requires Consume(lines, broken, budget, []).outcome.FullResponse?
    ensures Consume(lines, broken, budget, []).outcome.full == Text.Concat(Pieces(Taken(lines, budget)))
    ensures forall l :: l in Taken(lines, budget) ==> !Raises(l)
  {
    ConsumeChunks(lines, broken, budget, []);
    ConsumeOutcome(lines, broken, budget, []);
    assert [] + Pieces(Taken(lines, budget)) == Pieces(Taken(lines, budget));
    var t := Taken(lines, budget);
    forall l | l in t
      ensures !Raises(l)
    {
      var k :| 0 <= k < |t| && t[k] == l;
    }
  }

  /**
   * A `done` record ends the reading: nothing after it is looked at, not even
   * how the connection ends, and its own content is still appended.
   */
  lemma {:induction false} DoneStopsReading(before: seq<Line>, last: Line, after: seq<Line>,
                                            broken: Option<string>, budget: nat, emitted: seq<string>)
    requires Ends(last) && forall k :: 0 <= k < |before| ==> !Ends(before[k])
    ensures Consume(before + [last] + after, broken, budget, emitted) == Consume(before + [last], None, budget, emitted)
    decreases |before|
  {
    var ls := before + [last] + after;
    if before == [] {
      assert ls[0] == last && (before + [last])[0] == last;
    } else {
      assert ls[0] == before[0] && (before + [last])[0] == before[0];
      assert ls[1..] == before[1..] + [last] + after;
      assert (before + [last])[1..] == before[1..] + [last];
      if budget > 0 && !Raises(before[0]) {
        DoneStopsReading(before[1..], last, after, broken, budget - 1, emitted + Piece(before[0]));
      }
    }
  }

  /**
   * When the stop does not land first, the chunks are those of the lines up
   * to and including the first `done` record, whose own content is appended
   * too; as everywhere, they are cut at the first line that makes
   * `full += content` raise.
   */
  lemma {:induction false} DoneKeepsContent(before: seq<Line>, last: Line, after: seq<Line>,
                                            broken: Option<string>, budget: nat, emitted: seq<string>)
    requires Ends(last) && forall k :: 0 <= k < |before| ==> !Ends(before[k])
    requires budget > |before|
    ensures Consume(before + [last] + after, broken, budget, emitted).chunks == emitted + Pieces(before + [last])
  {
    var ls := before + [last];
    DoneStopsReading(before, last, after, broken, budget, emitted);
    ConsumeChunks(ls, None, budget, emitted);
    assert forall k :: 0 <= k < |before| ==> !Ends(ls[k]);
    assert UpToDone(ls) == |ls|;
    assert Taken(ls, budget) == ls;
  }

  /**
   * After the stop lands, before the line at index `k`, no line from `k` on
   * is consumed and the end of the connection does not matter: the run is
   * the run over the first `k` lines of an intact body.
   */
  lemma {:induction false} StopIgnoresRest(lines: seq<Line>, broken: Option<string>, k: nat, emitted: seq<string>)
    requires k < |lines|
    ensures Consume(lines, broken, k, emitted) == Consume(lines[..k], None, k, emitted)
    decreases k
  {
    if k > 0 {
      assert lines[..k][0] == lines[0] && lines[..k][1..] == lines[1..][..k - 1];
      if !Raises(lines[0]) && !Ends(lines[0]) {
        StopIgnoresRest(lines[1..], broken, k - 1, emitted + Piece(lines[0]));
      }
    }
  }

  /**
   * A stopped worker still emits `full_response`, never the connection error,
   * unless one of the lines it took raises.
   */
  lemma {:induction false} CancelledEmitsFull(lines: seq<Line>, broken: Option<string>, k: nat)
    requires k < |lines| && !AnyRaises(Taken(lines, k))
    ensures Consume(lines, broken, k, []).outcome.FullResponse?
  {
    ConsumeOutcome(lines, broken, k, []);
  }

  /**
   * When no line the unstopped worker would take raises, the text of a
   * stopped worker is a prefix of the text the intact body gives when
   * nobody stops it.
   */
  lemma {:induction false} CancelledEmitsPrefix(lines: seq<Line>, broken: Option<string>, k: nat)
    requires k < |lines| && !AnyRaises(Taken(lines, |lines|))
    ensures Consume(lines, broken, k, []).outcome.FullResponse?
    ensures Consume(lines, None, |lines|, []).outcome.FullResponse?
    ensures Consume(lines, broken, k, []).outcome.full <= Consume(lines, None, |lines|, []).outcome.full
  {
    var a, b := Taken(lines, k), Taken(lines, |lines|);
    assert forall j :: 0 <= j < |a| ==> a[j] == lines[j];
    assert forall j :: 0 <= j < |b| ==> b[j] == lines[j];
    assert a <= b;
    ConsumeChunks(lines, broken, k, []);
    ConsumeOutcome(lines, broken, k, []);
    ConsumeChunks(lines, None, |lines|, []);
    ConsumeOutcome(lines, None, |lines|, []);
    PiecesPrefix(a, b);
    assert [] + Pieces(a) == Pieces(a) && [] + Pieces(b) == Pieces(b);
    ConcatPrefix(Pieces(a), Pieces(b));
  }

  /**
   * A worker stopped before its first line emits `full_response("")` when
   * there is a line to fetch, but the connection error when fetching the
   * first line already fails.
   */
  lemma {:induction false} StoppedBeforeStart(lines: seq<Line>, broken: Option<string>)
    ensures Consume(lines, broken, 0, []).chunks == []
    ensures Consume(lines, broken, 0, []).outcome ==
              if lines == [] && broken.Some? then ErrorOccurred(ConnectionLost(broken.value)) else FullResponse("")
  {
  }

  /**
   * Two content lines and a `done` record, e.g. "Hi", " there", then `done`:
   * both chunks are emitted in order and the full response is their
   * concatenation.
   */
  lemma {:induction false} TwoChunks(a: string, b: string)
    requires a != "" && b != ""
    ensures Process(Lines([Record(Some(Str(a)), false), Record(Some(Str(b)), false), Record(None, true)], None), 3)
            == Report([a, b], FullResponse(a + b))
  {
    var ls := [Record(Some(Str(a)), false), Record(Some(Str(b)), false), Record(None, true)];
    assert ls[1..][1..] == [Record(None, true)];
    assert Piece(ls[0]) == [a] && Piece(ls[1]) == [b] && Piece(ls[2]) == [];
    assert [] + [a] == [a] && [a] + [b] == [a, b] && [a, b] + [] == [a, b];
    assert Consume(ls, None, 3, []) == Consume(ls[1..], None, 2, [a]);
    assert Consume(ls[1..], None, 2, [a]) == Consume(ls[1..][1..], None, 1, [a, b]);
    assert Consume(ls[1..][1..], None, 1, [a, b]) == Report([a, b], FullResponse(Text.Concat([a, b])));
    assert [a, b][1..] == [b] && [b][1..] == [];
    assert Text.Concat([b]) == b + "" && b + "" == b;
  }

  // ---------------------------------------------------------------------------
  // The worker object
  // ---------------------------------------------------------------------------

  /**
   * The stop lands while the loop runs: the line at `stopAt` is fetched, all
   * lines before it having been read without raising or ending the stream.
   */
  predicate StopLands(resp: Response, stopAt: nat) {
    resp.Lines? && stopAt < |resp.lines|
    && forall j :: 0 <= j < stopAt ==> !Raises(resp.lines[j]) && !Ends(resp.lines[j])
  }

  /** `OllamaWorker`: the request it was made for and the `_running` flag. */
  class Worker {
    const model: string
    const messages: seq<Sessions.Message>
    var running: bool

    /** `OllamaWorker(model, messages)`: a new worker is running. */
    constructor (model: string, messages: seq<Sessions.Message>)
      ensures this.model == model && this.messages == messages && running
    {
      this.model := model;
      this.messages := messages;
      running := true;
    }

    /** `stop()`: clears the flag; the loop sees it at its next check. */
    method Stop()
      modifies this
      ensures !running
    {
      running := false;
    }

    /**
     * `run()` over the response `resp`. The other thread's `stop()` is
     * modelled by `stopAt`: it lands after the line at that index has been
     * fetched and before the flag is checked. A worker stopped before it
     * runs takes no line at all.
     */
    method Run(resp: Response, stopAt: nat) returns (chunks: seq<string>, outcome: Outcome)
      modifies this
      ensures Report(chunks, outcome) == Process(resp, if old(running) then stopAt else 0)
      ensures outcome.FullResponse? ==> outcome.full == Text.Concat(chunks)
      ensures running == (old(running) && !StopLands(resp, stopAt))
    {
      chunks := [];
      if resp.Refused? {
        outcome := ErrorOccurred(RequestFailed(resp.reason));
        return;
      }
      var lines, broken := resp.lines, resp.broken;
      ghost var budget: nat := if running then stopAt else 0;
      var full := "";
      var i := 0;
      var left := false;  // the loop was left by a `break`
      while i < |lines|
        invariant 0 <= i <= |lines| && i <= budget
        invariant running == old(running) && (old(running) ==> budget == stopAt)
        invariant full == Text.Concat(chunks)
        invariant Process(resp, budget) == Consume(lines[i..], broken, budget - i, chunks)
        invariant !left
        invariant forall j :: 0 <= j < i ==> !Raises(lines[j]) && !Ends(lines[j])
      {
        if i == stopAt {
          Stop();
        }
        if !running {
          assert budget - i == 0;
          assert Process(resp, budget) == Report(chunks, FullResponse(full));
          left := true;
          break;
        }
        var line := lines[i];
        assert lines[i..][0] == line && lines[i..][1..] == lines[i + 1..];
        assert Piece(line) == [] ==> chunks + Piece(line) == chunks;
        if line.Record? {
          if line.message == Some(NotText) {
            outcome := ErrorOccurred(ContentNotText);
            assert Report(chunks, outcome) == Process(resp, budget);
            return;
          }
          ghost var before := chunks;
          var piece := Piece(line);
          if piece != [] {
            Text.ConcatAppend(chunks, piece);
            assert piece == [piece[0]] && Text.Concat(piece) == piece[0];
            full := full + piece[0];
            chunks := chunks + piece;
          }
          if line.done {
            assert chunks == before + piece;
            assert Process(resp, budget) == Report(chunks, FullResponse(full));
            left := true;
            break;
          }
        }
        i := i + 1;
      }
      if !left && broken.Some? {
        outcome := ErrorOccurred(ConnectionLost(broken.value));
        assert Report(chunks, outcome) == Process(resp, budget);
        return;
      }
      outcome := FullResponse(full);
      assert Report(chunks, outcome) == Process(resp, budget);
    }
  }
}
