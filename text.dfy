/**
 * The pure string helpers of the chat window: `str.strip()` on the compose
 * box, the session-title expression, `_format_html`, and the tag-stripping
 * substitution `re.sub(r"<[^>]*>", "", ...)` used before text-to-speech and by
 * the streaming placeholder.
 */
module Text {

  /** The concatenation of a list of strings, in order. */
  function Concat(parts: seq<string>): string
    decreases |parts|
  {
    if parts == [] then "" else parts[0] + Concat(parts[1..])
  }

  lemma {:induction false} ConcatAppend(ps: seq<string>, qs: seq<string>)
    ensures Concat(ps + qs) == Concat(ps) + Concat(qs)
    decreases |ps|
  {
    if ps == [] {
      assert ps + qs == qs;
    } else {
      assert (ps + qs)[1..] == ps[1..] + qs;
      ConcatAppend(ps[1..], qs);
    }
  }

  // ---------------------------------------------------------------------------
  // str.strip()
  // ---------------------------------------------------------------------------

  /** Python's `str.isspace` for one character: the characters `str.strip()` removes. */
  predicate IsSpace(c: char) {
    c == ' ' || ('\t' <= c <= '\r') || ('\U{1c}' <= c <= '\U{1f}')
    || c == '\U{85}' || c == '\U{a0}' || c == '\U{1680}'
    || ('\U{2000}' <= c <= '\U{200a}') || c == '\U{2028}' || c == '\U{2029}'
    || c == '\U{202f}' || c == '\U{205f}' || c == '\U{3000}'
  }

  /** Drops the leading white space. */
  function TrimStart(s: string): (r: string)
    ensures |r| <= |s| && r == s[|s| - |r|..]
    ensures forall k :: 0 <= k < |s| - |r| ==> IsSpace(s[k])
    ensures r == [] || !IsSpace(r[0])
    decreases |s|
  {
    if s != [] && IsSpace(s[0]) then TrimStart(s[1..]) else s
  }

  /** Drops the trailing white space. */
  function TrimEnd(s: string): (r: string)
    ensures |r| <= |s| && r == s[..|r|]
    ensures forall k :: |r| <= k < |s| ==> IsSpace(s[k])
    ensures r == [] || !IsSpace(r[|r| - 1])
    decreases |s|
  {
    if s != [] && IsSpace(s[|s| - 1]) then TrimEnd(s[..|s| - 1]) else s
  }

  /** `str.strip()`: the white space at both ends is removed. */
  function Strip(s: string): (r: string)
    ensures |r| <= |s|
    ensures r != [] ==> !IsSpace(r[0]) && !IsSpace(r[|r| - 1])
  {
    TrimEnd(TrimStart(s))
  }

  /** `r` is the slice of `s` that starts at `i`, and everything of `s` around it is white space. */
  predicate SpaceAround(s: string, r: string, i: nat) {
    i + |r| <= |s| && r == s[i..i + |r|]
    && (forall k :: 0 <= k < i ==> IsSpace(s[k]))
    && (forall k :: i + |r| <= k < |s| ==> IsSpace(s[k]))
  }

  /**
   * What `str.strip()` keeps: the slice of `s` between its leading and its
   * trailing white space.
   */
  lemma {:induction false} StripMeaning(s: string)
    ensures SpaceAround(s, Strip(s), |s| - |TrimStart(s)|)
  {
    var t := TrimStart(s);
    var i := |s| - |t|;
    var r := TrimEnd(t);
    StripSlice(s, t, r, i);
    TrailingSpace(s, t, r, i);
    assert SpaceAround(s, r, i);
  }

  lemma {:induction false} StripSlice(s: string, t: string, r: string, i: nat)
    requires i <= |s| && t == s[i..] && |r| <= |t| && r == t[..|r|]
    ensures i + |r| <= |s| && r == s[i..i + |r|]
  {
    SliceOfSuffix(s, i, |r|);
  }

  lemma {:induction false} SliceOfSuffix(s: string, i: nat, m: nat)
    requires i + m <= |s|
    ensures s[i..][..m] == s[i..i + m]
  {
  }

  /** `str.strip()` leaves nothing exactly when the text is all white space. */
  lemma {:induction false} StripEmpty(s: string)
    ensures Strip(s) == [] <==> forall k :: 0 <= k < |s| ==> IsSpace(s[k])
  {
    StripMeaning(s);
    var t := TrimStart(s);
    assert t == [] || t[0] == s[|s| - |t|];
  }

  /** The characters `TrimEnd` drops from `t == s[i..]` are white space of `s`. */
  lemma {:induction false} TrailingSpace(s: string, t: string, r: string, i: nat)
    requires i <= |s| && t == s[i..] && |r| <= |t|
    requires forall k :: |r| <= k < |t| ==> IsSpace(t[k])
    ensures forall k :: i + |r| <= k < |s| ==> IsSpace(s[k])
  {
    forall k | i + |r| <= k < |s|
      ensures IsSpace(s[k])
    {
      assert s[k] == t[k - i];
    }
  }

  // ---------------------------------------------------------------------------
  // The session title
  // ---------------------------------------------------------------------------

  const TitleWidth: nat := 30
  const Ellipsis: string := "..."

  /**
   * `text[:30] + ("..." if len(text) > 30 else "")`: the text itself when it
   * has at most 30 characters, otherwise its first 30 characters and an
   * ellipsis.
   */
  function Title(text: string): (r: string)
    ensures |r| == if |text| <= TitleWidth then |text| else TitleWidth + |Ellipsis|
    ensures |r| <= TitleWidth + |Ellipsis|
    ensures |text| <= TitleWidth ==> r == text
    ensures |text| > TitleWidth ==> r[..TitleWidth] == text[..TitleWidth] && r[TitleWidth..] == Ellipsis
  {
    if |text| <= TitleWidth then text else text[..TitleWidth] + Ellipsis
  }

  // ---------------------------------------------------------------------------
  // _format_html
  // ---------------------------------------------------------------------------

  /** `s.replace(c, rep)` (or `re.sub` with a one-character pattern): each `c`, left to right, becomes `rep`. */
  function ReplaceChar(s: string, c: char, rep: string): (r: string)
    ensures c !in rep ==> c !in r
    ensures c !in s ==> r == s
    decreases |s|
  {
    if s == [] then [] else (if s[0] == c then rep else [s[0]]) + ReplaceChar(s[1..], c, rep)
  }

  lemma {:induction false} ReplaceCharAppend(a: string, b: string, c: char, rep: string)
    ensures ReplaceChar(a + b, c, rep) == ReplaceChar(a, c, rep) + ReplaceChar(b, c, rep)
    decreases |a|
  {
    if a == [] {
      assert a + b == b;
    } else {
      var h := if a[0] == c then rep else [a[0]];
      var t := a[1..];
      assert (a + b)[0] == a[0] && (a + b)[1..] == t + b;
      ReplaceCharAppend(t, b, c, rep);
      calc {
        ReplaceChar(a + b, c, rep);
        h + ReplaceChar(t + b, c, rep);
        h + (ReplaceChar(t, c, rep) + ReplaceChar(b, c, rep));
        { StringAssoc(h, ReplaceChar(t, c, rep), ReplaceChar(b, c, rep)); }
        h + ReplaceChar(t, c, rep) + ReplaceChar(b, c, rep);
        ReplaceChar(a, c, rep) + ReplaceChar(b, c, rep);
      }
    }
  }

  lemma {:induction false} StringAssoc(x: string, y: string, z: string)
    ensures x + (y + z) == x + y + z
  {
  }

  /** A one-character text: the character, or its replacement. */
  lemma {:induction false} ReplaceCharOne(x: char, c: char, rep: string)
    ensures ReplaceChar([x], c, rep) == if x == c then rep else [x]
  {
    assert [x][1..] == [];
    assert (if x == c then rep else [x]) + [] == if x == c then rep else [x];
  }

  /** `_format_html`: replace `<` by `&lt;`, then `>` by `&gt;`, then each newline by `<br>`. */
  function FormatHtml(t: string): (r: string)
    ensures '\n' !in r
    ensures '<' !in t && '>' !in t && '\n' !in t ==> r == t
  {
    ReplaceChar(ReplaceChar(ReplaceChar(t, '<', "&lt;"), '>', "&gt;"), '\n', "<br>")
  }

  /** What one input character becomes in the label markup. */
  function Escape(c: char): string {
    if c == '<' then "&lt;" else if c == '>' then "&gt;" else if c == '\n' then "<br>" else [c]
  }

  /** A one-pass reference for `FormatHtml`: every character escaped on its own. */
  function EscapeEach(t: string): string
    decreases |t|
  {
    if t == [] then "" else Escape(t[0]) + EscapeEach(t[1..])
  }

  lemma {:induction false} FormatHtmlAppend(a: string, b: string)
    ensures FormatHtml(a + b) == FormatHtml(a) + FormatHtml(b)
  {
    var a1, b1 := ReplaceChar(a, '<', "&lt;"), ReplaceChar(b, '<', "&lt;");
    ReplaceCharAppend(a, b, '<', "&lt;");
    var a2, b2 := ReplaceChar(a1, '>', "&gt;"), ReplaceChar(b1, '>', "&gt;");
    ReplaceCharAppend(a1, b1, '>', "&gt;");
    ReplaceCharAppend(a2, b2, '\n', "<br>");
  }

  lemma {:induction false} FormatHtmlOne(c: char)
    ensures FormatHtml([c]) == Escape(c)
  {
    var lt, gt, br := "&lt;", "&gt;", "<br>";
    ReplaceCharOne(c, '<', lt);
    var s1 := ReplaceChar([c], '<', lt);
    if c == '<' {
      assert '>' !in s1 && '\n' !in s1;
    } else if c == '>' {
      ReplaceCharOne(c, '>', gt);
      assert '\n' !in gt;
    } else {
      ReplaceCharOne(c, '>', gt);
      ReplaceCharOne(c, '\n', br);
    }
  }

  /** The three successive substitutions escape each character independently. */
  lemma {:induction false} FormatHtmlIsPerChar(t: string)
    ensures FormatHtml(t) == EscapeEach(t)
    decreases |t|
  {
    if t != [] {
      assert t == [t[0]] + t[1..];
      FormatHtmlAppend([t[0]], t[1..]);
      FormatHtmlOne(t[0]);
      FormatHtmlIsPerChar(t[1..]);
    }
  }

  /** The four characters of `r` from position `i` on spell `<br>`. */
  predicate BreakAt(r: string, i: int) {
    0 <= i && i + 4 <= |r| && r[i] == '<' && r[i + 1] == 'b' && r[i + 2] == 'r' && r[i + 3] == '>'
  }

  /**
   * The shape of label markup: a sequence of `<br>` tokens and characters that
   * are neither `<`, `>` nor a newline.
   */
  predicate Markup(r: string)
    decreases |r|
  {
    if r == [] then true
    else if BreakAt(r, 0) then Markup(r[4..])
    else r[0] != '<' && r[0] != '>' && r[0] != '\n' && Markup(r[1..])
  }

  /** A string with none of `<`, `>`, newline. */
  predicate Plain(p: string) {
    forall k :: 0 <= k < |p| ==> p[k] != '<' && p[k] != '>' && p[k] != '\n'
  }

  lemma {:induction false} MarkupPlainPrefix(p: string, x: string)
    requires Plain(p) && Markup(x)
    ensures Markup(p + x)
    decreases |p|
  {
    if p != [] {
      assert (p + x)[0] == p[0] && (p + x)[1..] == p[1..] + x;
      MarkupPlainPrefix(p[1..], x);
    } else {
      assert p + x == x;
    }
  }

  lemma {:induction false} MarkupOfEscapeEach(t: string)
    ensures Markup(EscapeEach(t))
    decreases |t|
  {
    if t != [] {
      var x := EscapeEach(t[1..]);
      MarkupOfEscapeEach(t[1..]);
      var e := Escape(t[0]);
      if t[0] == '\n' {
        assert BreakAt(e + x, 0) && (e + x)[4..] == x;
      } else {
        assert Plain(e);
        MarkupPlainPrefix(e, x);
      }
    }
  }

  /** Unfolding `Markup` one token: either a leading `<br>` or one plain character. */
  lemma {:induction false} MarkupStep(r: string)
    requires Markup(r) && r != []
    ensures BreakAt(r, 0) ==> Markup(r[4..])
    ensures !BreakAt(r, 0) ==> r[0] != '<' && r[0] != '>' && r[0] != '\n' && Markup(r[1..])
  {
  }

  lemma {:induction false} BreakShift(r: string, n: nat, j: int)
    requires n <= |r| && BreakAt(r[n..], j)
    ensures BreakAt(r, j + n)
  {
    assert r[n..][j] == r[j + n] && r[n..][j + 3] == r[j + n + 3];
    assert r[n..][j + 1] == r[j + n + 1] && r[n..][j + 2] == r[j + n + 2];
  }

  lemma {:induction false} MarkupNoNewline(r: string)
    requires Markup(r)
    ensures forall i :: 0 <= i < |r| ==> r[i] != '\n'
    decreases |r|
  {
    if r != [] {
      MarkupStep(r);
      var n := if BreakAt(r, 0) then 4 else 1;
      MarkupNoNewline(r[n..]);
      assert forall i :: n <= i < |r| ==> r[i] == r[n..][i - n];
    }
  }

  lemma {:induction false} MarkupOpen(r: string)
    requires Markup(r)
    ensures forall i :: 0 <= i < |r| && r[i] == '<' ==> BreakAt(r, i)
    decreases |r|
  {
    if r != [] {
      MarkupStep(r);
      var n := if BreakAt(r, 0) then 4 else 1;
      var x := r[n..];
      MarkupOpen(x);
      forall i | n <= i < |r| && r[i] == '<'
        ensures BreakAt(r, i)
      {
        assert x[i - n] == r[i];
        BreakShift(r, n, i - n);
      }
    }
  }

  lemma {:induction false} MarkupClose(r: string)
    requires Markup(r)
    ensures forall i :: 0 <= i < |r| && r[i] == '>' ==> BreakAt(r, i - 3)
    decreases |r|
  {
    if r != [] {
      MarkupStep(r);
      var n := if BreakAt(r, 0) then 4 else 1;
      var x := r[n..];
      MarkupClose(x);
      forall i | n <= i < |r| && r[i] == '>'
        ensures BreakAt(r, i - 3)
      {
        assert x[i - n] == r[i];
        BreakShift(r, n, i - n - 3);
      }
    }
  }

  /**
   * What `_format_html` hands to the label: no newline survives, and every `<`
   * or `>` in it belongs to a `<br>` made from a newline (the text's own angle
   * brackets are all `&lt;` / `&gt;`).
   */
  lemma {:induction false} FormatHtmlShape(t: string)
    ensures FormatHtml(t) == EscapeEach(t)
    ensures forall i :: 0 <= i < |FormatHtml(t)| ==> FormatHtml(t)[i] != '\n'
    ensures forall i :: 0 <= i < |FormatHtml(t)| && FormatHtml(t)[i] == '<' ==> BreakAt(FormatHtml(t), i)
    ensures forall i :: 0 <= i < |FormatHtml(t)| && FormatHtml(t)[i] == '>' ==> BreakAt(FormatHtml(t), i - 3)
  {
    FormatHtmlIsPerChar(t);
    MarkupOfEscapeEach(t);
    MarkupNoNewline(FormatHtml(t));
    MarkupOpen(FormatHtml(t));
    MarkupClose(FormatHtml(t));
  }

  /**
   * `&` is not escaped, so two different texts can give the same markup:
   * anywhere in a text, a literal `&lt;` and a `<` look alike once formatted.
   */
  lemma {:induction false} FormatHtmlNotInjective(p: string, x: string)
    ensures p + "&lt;" + x != p + "<" + x
    ensures FormatHtml(p + "&lt;" + x) == FormatHtml(p + "<" + x)
  {
    var lt, c := "&lt;", "<";
    assert (p + lt + x)[|p|] != (p + c + x)[|p|];
    LtLooksLikeOpen();
    FormatHtmlAround(p, lt, x);
    FormatHtmlAround(p, c, x);
  }

  lemma {:induction false} LtLooksLikeOpen()
    ensures FormatHtml("&lt;") == FormatHtml("<")
  {
    var t := "&lt;";
    assert |t| == 4 && t[0] == '&' && t[1] == 'l' && t[2] == 't' && t[3] == ';';
    assert '<' !in t && '>' !in t && '\n' !in t;
    FormatHtmlOne('<');
  }

  lemma {:induction false} FormatHtmlAround(p: string, m: string, x: string)
    ensures FormatHtml(p + m + x) == FormatHtml(p) + FormatHtml(m) + FormatHtml(x)
  {
    FormatHtmlAppend(p, m);
    FormatHtmlAppend(p + m, x);
  }

  // ---------------------------------------------------------------------------
  // re.sub(r"<[^>]*>", "", s)
  // ---------------------------------------------------------------------------

  /** The position of the first `c` in `s`. */
  function IndexOf(s: string, c: char): (i: nat)
    requires c in s
    ensures i < |s| && s[i] == c
    ensures forall k :: 0 <= k < i ==> s[k] != c
    decreases |s|
  {
    if s[0] == c then 0 else 1 + IndexOf(s[1..], c)
  }

  /**
   * `re.sub(r"<[^>]*>", "", s)` as a left-to-right scan: a `<` that has a `>`
   * somewhere after it opens a tag that runs to the first such `>`, and the tag
   * is dropped; every other character is kept.
   */
  function StripTags(s: string): (r: string)
    ensures |r| <= |s|
    ensures forall k :: 0 <= k < |r| ==> r[k] in s
    decreases |s|
  {
    if s == [] then ""
    else if s[0] == '<' && '>' in s then StripTags(s[IndexOf(s, '>') + 1..])
    else [s[0]] + StripTags(s[1..])
  }

  /** No `<` is followed, anywhere later, by a `>`: the string holds no `<...>` span. */
  predicate TagFree(s: string) {
    forall i, j :: 0 <= i < j < |s| && s[i] == '<' ==> s[j] != '>'
  }

  /** Text without a tag is left as it is; in particular `<`-free text. */
  lemma {:induction false} StripTagsKeepsTagFree(s: string)
    requires TagFree(s)
    ensures StripTags(s) == s
    decreases |s|
  {
    if s != [] {
      if s[0] == '<' {
        NoCloseAfterOpen(s);
      }
      assert StripTags(s) == [s[0]] + StripTags(s[1..]);
      TagFreeTail(s);
      StripTagsKeepsTagFree(s[1..]);
      assert [s[0]] + s[1..] == s;
    }
  }

  lemma {:induction false} NoCloseAfterOpen(s: string)
    requires TagFree(s) && s != [] && s[0] == '<'
    ensures '>' !in s
  {
    forall j | 0 <= j < |s|
      ensures s[j] != '>'
    {
      if j > 0 {
        assert s[0] == '<';
      }
    }
  }

  lemma {:induction false} TagFreeTail(s: string)
    requires TagFree(s) && s != []
    ensures TagFree(s[1..])
  {
    forall i, j | 0 <= i < j < |s[1..]| && s[1..][i] == '<'
      ensures s[1..][j] != '>'
    {
      assert s[i + 1] == '<' && s[1..][j] == s[j + 1];
    }
  }

  lemma {:induction false} StripTagsKeepsPlainText(s: string)
    requires '<' !in s
    ensures StripTags(s) == s
  {
    StripTagsKeepsTagFree(s);
  }

  /** After the substitution no `<...>` span is left. */
  lemma {:induction false} StripTagsLeavesNoTag(s: string)
    ensures TagFree(StripTags(s))
    decreases |s|
  {
    if s == [] {
    } else if s[0] == '<' && '>' in s {
      StripTagsLeavesNoTag(s[IndexOf(s, '>') + 1..]);
    } else {
      var rest := StripTags(s[1..]);
      StripTagsLeavesNoTag(s[1..]);
      var r := [s[0]] + rest;
      forall i, j | 0 <= i < j < |r| && r[i] == '<'
        ensures r[j] != '>'
      {
        if i == 0 {
          assert '>' !in s;
          assert rest[j - 1] in s[1..];
        } else {
          assert rest[i - 1] == '<';
        }
      }
    }
  }

  /** Stripping twice is stripping once. */
  lemma {:induction false} StripTagsIdempotent(s: string)
    ensures StripTags(StripTags(s)) == StripTags(s)
  {
    StripTagsLeavesNoTag(s);
    StripTagsKeepsTagFree(StripTags(s));
  }

  lemma {:induction false} StripTagsPlainPrefix(p: string, x: string)
    requires '<' !in p
    ensures StripTags(p + x) == p + StripTags(x)
    decreases |p|
  {
    if p == [] {
      assert p + x == x;
    } else {
      assert p[0] != '<' && (p + x)[0] == p[0] && (p + x)[1..] == p[1..] + x;
      assert StripTags(p + x) == [p[0]] + StripTags(p[1..] + x);
      StripTagsPlainPrefix(p[1..], x);
      StringAssoc([p[0]], p[1..], StripTags(x));
      assert [p[0]] + p[1..] == p;
    }
  }

  /**
   * The rule of the substitution: a `<` whose span up to the next `>` holds no
   * other `>` opens a tag that is dropped whole, and the text after it is
   * stripped in turn.
   */
  lemma {:induction false} StripTagsDropsSpan(m: string, x: string)
    requires '>' !in m
    ensures StripTags(['<'] + m + ['>'] + x) == StripTags(x)
  {
    var s := ['<'] + m + ['>'] + x;
    assert s[0] == '<' && s[|m| + 1] == '>';
    assert forall k :: 0 <= k < |m| + 1 ==> s[k] != '>' by {
      forall k | 0 <= k < |m| + 1
        ensures s[k] != '>'
      {
        if k > 0 {
          assert s[k] == m[k - 1];
        }
      }
    }
    assert IndexOf(s, '>') == |m| + 1;
    assert s[|m| + 2..] == x;
  }

  /**
   * Text before the first `<` is kept, the tag is removed, and what follows
   * is stripped in turn: `re.sub` keeps the surrounding text in order.
   */
  lemma {:induction false} StripTagsRemovesSpan(p: string, m: string, x: string)
    requires '<' !in p && '>' !in m
    ensures StripTags(p + ['<'] + m + ['>'] + x) == p + StripTags(x)
  {
    var tail := ['<'] + m + ['>'] + x;
    assert p + ['<'] + m + ['>'] + x == p + tail;
    StripTagsPlainPrefix(p, tail);
    StripTagsDropsSpan(m, x);
  }

  lemma {:induction false} StripTagsBreak(x: string)
    ensures StripTags("<br>" + x) == StripTags(x)
  {
    var s := "<br>" + x;
    assert s[0] == '<' && s[3] == '>' && s[1] != '>' && s[2] != '>';
    assert IndexOf(s, '>') == 3;
    assert s[4..] == x;
  }

  /** What one character leaves once its markup is stripped again: line breaks are gone. */
  function Unbroken(c: char): string {
    if c == '<' then "&lt;" else if c == '>' then "&gt;" else if c == '\n' then "" else [c]
  }

  /** `Unbroken` over a whole string: `_format_html` without the line breaks. */
  function EscapeNoBreaks(t: string): (r: string)
    ensures Plain(r)
    decreases |t|
  {
    if t == [] then "" else Unbroken(t[0]) + EscapeNoBreaks(t[1..])
  }

  lemma {:induction false} EscapeNoBreaksAppend(a: string, b: string)
    ensures EscapeNoBreaks(a + b) == EscapeNoBreaks(a) + EscapeNoBreaks(b)
    decreases |a|
  {
    if a == [] {
      assert a + b == b;
    } else {
      assert (a + b)[0] == a[0] && (a + b)[1..] == a[1..] + b;
      EscapeNoBreaksAppend(a[1..], b);
    }
  }

  /** Stripping the tags of formatted text removes exactly the `<br>` of each newline. */
  lemma {:induction false} StripFormatted(t: string)
    ensures StripTags(FormatHtml(t)) == EscapeNoBreaks(t)
  {
    FormatHtmlIsPerChar(t);
    StripEscaped(t);
  }

  lemma {:induction false} StripEscaped(t: string)
    ensures StripTags(EscapeEach(t)) == EscapeNoBreaks(t)
    decreases |t|
  {
    if t != [] {
      var c, x := t[0], EscapeEach(t[1..]);
      assert EscapeEach(t) == Escape(c) + x;
      assert EscapeNoBreaks(t) == Unbroken(c) + EscapeNoBreaks(t[1..]);
      StripEscaped(t[1..]);
      if c == '\n' {
        StripTagsBreak(x);
        assert Unbroken(c) == "";
      } else {
        assert Escape(c) == Unbroken(c) && '<' !in Escape(c);
        StripTagsPlainPrefix(Escape(c), x);
      }
    }
  }

  lemma {:induction false} FormatHtmlOfPlain(p: string)
    requires Plain(p)
    ensures FormatHtml(p) == p
  {
    assert '<' !in p && '>' !in p && '\n' !in p;
  }

  // ---------------------------------------------------------------------------
  // The streaming placeholder (on_chunk)
  // ---------------------------------------------------------------------------

  /** One `on_chunk` call: strip the label's tags, append the chunk, format again. */
  function ChunkLabel(shown: string, chunk: string): (r: string)
    ensures r == FormatHtml(StripTags(shown)) + FormatHtml(chunk)
  {
    FormatHtmlAppend(StripTags(shown), chunk);
    FormatHtml(StripTags(shown) + chunk)
  }

  /** The placeholder label, which starts empty, after the given chunks in order. */
  function StreamLabel(chunks: seq<string>): (r: string)
    ensures '\n' !in r
    decreases |chunks|
  {
    if chunks == [] then ""
    else ChunkLabel(StreamLabel(chunks[..|chunks| - 1]), chunks[|chunks| - 1])
  }

  /**
   * The label after chunks `cs` and then `d`: only the newest chunk keeps its
   * line breaks; all earlier text is shown escaped but with its newlines gone.
   */
  lemma {:induction false} StreamLabelShape(cs: seq<string>, d: string)
    ensures StreamLabel(cs + [d]) == EscapeNoBreaks(Concat(cs)) + FormatHtml(d)
    decreases |cs|, 1
  {
    assert (cs + [d])[..|cs|] == cs;
    StrippedLabel(cs);
    FormatHtmlOfPlain(StripTags(StreamLabel(cs)));
  }

  /** Stripping the label's tags gives back all the text so far, escaped, without its line breaks. */
  lemma {:induction false} StrippedLabel(cs: seq<string>)
    ensures StripTags(StreamLabel(cs)) == EscapeNoBreaks(Concat(cs))
    decreases |cs|, 0
  {
    if cs != [] {
      var front, c := cs[..|cs| - 1], cs[|cs| - 1];
      assert cs == front + [c];
      StreamLabelShape(front, c);
      StripTagsPlainPrefix(EscapeNoBreaks(Concat(front)), FormatHtml(c));
      StripFormatted(c);
      ConcatAppend(front, [c]);
      assert Concat([c]) == c;
      EscapeNoBreaksAppend(Concat(front), c);
    }
  }
}
