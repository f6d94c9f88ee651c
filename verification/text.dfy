/**
 * The JavaScript string operations the panellist pipeline relies on, each
 * stated over `string`, a sequence of Unicode scalar values (lone surrogates
 * and UTF-16 lengths are not modelled):
 * - `String.prototype.trim`,
 * - `split(',')` and its inverse `join(',')`,
 * - the global lazy footnote regex `/\[.*?\]/g` replaced by `''`,
 * - the anchored prefix rewrite `replace(/^\/wiki\//, …)`,
 * - the global `replace(/_/g, ' ')`,
 * - JavaScript truthiness of an optional string.
 */
module Text {
  import opened Wrappers

  /** `decodeURIComponent`, which is not modelled: `None` stands for the URIError it throws. */
  type Decoder = string -> Option<string>

  /** A string value is truthy in JavaScript when it is present and non-empty. */
  predicate Truthy(s: Option<string>) {
    s.Some? && s.value != ""
  }

  /** The characters `.` in a JavaScript regular expression does not match. */
  predicate IsLineTerminator(c: char) {
    c == '\n' || c == '\r' || c == '\U{2028}' || c == '\U{2029}'
  }

  /** JavaScript's WhiteSpace and LineTerminator characters: what `trim` removes. */
  predicate IsSpace(c: char) {
    || c == ' ' || c == '\t' || c == '\U{000B}' || c == '\U{000C}'
    || c == '\U{00A0}' || c == '\U{1680}' || ('\U{2000}' <= c <= '\U{200A}')
    || c == '\U{202F}' || c == '\U{205F}' || c == '\U{3000}' || c == '\U{FEFF}'
    || IsLineTerminator(c)
  }

  // ---------------------------------------------------------------- trim

  /** Number of white-space characters that open `s`. */
  function LeadingSpaces(s: string): (n: nat)
    ensures n <= |s|
    ensures forall k :: 0 <= k < n ==> IsSpace(s[k])
    ensures n < |s| ==> !IsSpace(s[n])
  {
    if |s| > 0 && IsSpace(s[0]) then 1 + LeadingSpaces(s[1..]) else 0
  }

  /** Number of white-space characters that close `s`. */
  function TrailingSpaces(s: string): (n: nat)
    ensures n <= |s|
    ensures forall k :: |s| - n <= k < |s| ==> IsSpace(s[k])
    ensures n < |s| ==> !IsSpace(s[|s| - n - 1])
  {
    if |s| > 0 && IsSpace(s[|s| - 1]) then 1 + TrailingSpaces(s[..|s| - 1]) else 0
  }

  /** `s` is `r` with only white space around it. */
  ghost predicate Framed(s: string, i: int, j: int, r: string) {
    && 0 <= i <= j <= |s|
    && r == s[i..j]
    && (forall k :: 0 <= k < i ==> IsSpace(s[k]))
    && (forall k :: j <= k < |s| ==> IsSpace(s[k]))
  }

  /** `String.prototype.trim`. */
  function Trim(s: string): string {
    var a := LeadingSpaces(s);
    s[a..][..|s[a..]| - TrailingSpaces(s[a..])]
  }

  /**
   * Trimming removes white space from both ends and nothing else: the result
   * is a slice of `s` with only white space around it, and it neither starts
   * nor ends with white space.
   */
  lemma TrimFramed(s: string)
    ensures exists i, j :: Framed(s, i, j, Trim(s))
    ensures Trim(s) == [] || (!IsSpace(Trim(s)[0]) && !IsSpace(Trim(s)[|Trim(s)| - 1]))
  {
    var a := LeadingSpaces(s);
    var b := TrailingSpaces(s[a..]);
    assert Framed(s, a, |s| - b, Trim(s));
  }

  /** Text that neither starts nor ends with white space is left as it is. */
  lemma TrimUnchanged(s: string)
    requires s == [] || (!IsSpace(s[0]) && !IsSpace(s[|s| - 1]))
    ensures Trim(s) == s
  {
    assert LeadingSpaces(s) == 0;
    assert s[0..] == s;
    assert TrailingSpaces(s) == 0;
  }

  /** Text without `[` that neither starts nor ends with white space is already clean. */
  lemma CleanUnchanged(s: string)
    requires '[' !in s
    requires s == [] || (!IsSpace(s[0]) && !IsSpace(s[|s| - 1]))
    ensures Clean(s) == s
  {
    StripFootnotesNoBracket(s);
    TrimUnchanged(s);
  }

  // ------------------------------------------------------ lazy `.*?` + close

  /** Index of the first `close` or line terminator in `s`, or `|s|` when there is none. */
  function FirstStop(s: string, close: char): (n: nat)
    ensures n <= |s|
    ensures forall k :: 0 <= k < n ==> s[k] != close && !IsLineTerminator(s[k])
    ensures n < |s| ==> s[n] == close || IsLineTerminator(s[n])
  {
    if |s| == 0 || s[0] == close || IsLineTerminator(s[0]) then 0
    else 1 + FirstStop(s[1..], close)
  }

  /**
   * The lazy pattern `.*?` followed by `close`, tried at the start of `s`:
   * the length of the text it consumes before `close`, or None when a line
   * terminator (which `.` does not match) or the end comes first.
   */
  function LazyUntil(s: string, close: char): (r: Option<nat>)
    ensures r.Some? ==> r.value < |s| && s[r.value] == close
    ensures r.Some? ==> forall k :: 0 <= k < r.value ==> s[k] != close && !IsLineTerminator(s[k])
  {
    var n := FirstStop(s, close);
    if n < |s| && s[n] == close then Some(n) else None
  }

  /** The lazy match fails only when every `close` in `s` comes after a line terminator. */
  lemma LazyUntilNone(s: string, close: char)
    ensures LazyUntil(s, close).None? <==>
              forall k :: 0 <= k < |s| && s[k] == close ==> exists j :: 0 <= j < k && IsLineTerminator(s[j])
  {
    var n := FirstStop(s, close);
    if LazyUntil(s, close).None? {
      forall k | 0 <= k < |s| && s[k] == close
        ensures exists j :: 0 <= j < k && IsLineTerminator(s[j])
      {
        assert n < |s| && n < k && IsLineTerminator(s[n]);
      }
    }
  }

  /** When the stop is found inside `s`, text appended after `s` cannot move it. */
  lemma FirstStopAppend(s: string, t: string, close: char)
    requires FirstStop(s, close) < |s|
    ensures FirstStop(s + t, close) == FirstStop(s, close)
  {
    assert forall k :: 0 <= k < |s| ==> (s + t)[k] == s[k];
  }

  /** A lazy match completed inside `s` is unchanged by text appended after `s`. */
  lemma LazyUntilAppend(s: string, t: string, close: char)
    requires LazyUntil(s, close).Some?
    ensures LazyUntil(s + t, close) == LazyUntil(s, close)
  {
    FirstStopAppend(s, t, close);
    assert (s + t)[FirstStop(s, close)] == s[FirstStop(s, close)];
  }

  /** A lazy match that fails inside `s`, though `close` occurs in `s`, still fails with text appended. */
  lemma LazyUntilAppendNone(s: string, t: string, close: char, q: nat)
    requires LazyUntil(s, close).None?
    requires q < |s| && s[q] == close
    ensures LazyUntil(s + t, close).None?
  {
    FirstStopAppend(s, t, close);
    assert (s + t)[FirstStop(s, close)] == s[FirstStop(s, close)];
  }

  // ------------------------------------------------------------ footnotes

  /** `s` has no match of `/\[.*?\]/`: every `[` … `]` pair is broken by a line terminator. */
  ghost predicate NoFootnote(s: string) {
    forall i, j :: 0 <= i < j < |s| && s[i] == '[' && s[j] == ']' ==>
      exists k :: i < k < j && IsLineTerminator(s[k])
  }

  /** Length of the footnote marker `[`…`]` that opens `s`, or 0 when `s` does not open one. */
  function MarkerLength(s: string): (n: nat)
    ensures n == 0 || (2 <= n <= |s| && s[0] == '[' && s[n - 1] == ']')
  {
    if |s| > 0 && s[0] == '[' then
      match LazyUntil(s[1..], ']')
      case Some(k) => k + 2
      case None => 0
    else 0
  }

  /** `s.replace(/\[.*?\]/g, '')`: every footnote marker removed, scanning left to right. */
  function StripFootnotes(s: string): string
    decreases |s|
  {
    if |s| == 0 then []
    else if MarkerLength(s) > 0 then StripFootnotes(s[MarkerLength(s)..])
    else [s[0]] + StripFootnotes(s[1..])
  }

  /** Text without any `[` passes through unchanged. */
  lemma {:induction false} StripFootnotesNoBracket(s: string)
    requires '[' !in s
    ensures StripFootnotes(s) == s
    decreases |s|
  {
    if |s| > 0 {
      assert s[0] in s;
      StripFootnotesNoBracket(s[1..]);
      assert [s[0]] + s[1..] == s;
    }
  }

  /** A character that does not open a footnote marker is kept. */
  lemma StripKeepsHead(t: string)
    requires |t| > 0 && MarkerLength(t) == 0
    ensures StripFootnotes(t) == [t[0]] + StripFootnotes(t[1..])
  {
  }

  /** `a` holds neither `]` nor a line terminator: a lazy `.*?\]` can run across all of it. */
  predicate Open(a: string) {
    |a| == 0 || (a[0] != ']' && !IsLineTerminator(a[0]) && Open(a[1..]))
  }

  /** `Open`, character by character. */
  lemma {:induction false} OpenAll(a: string)
    ensures Open(a) <==> forall k :: 0 <= k < |a| ==> a[k] != ']' && !IsLineTerminator(a[k])
    decreases |a|
  {
    if |a| > 0 {
      OpenAll(a[1..]);
      assert forall k :: 1 <= k < |a| ==> a[k] == a[1..][k - 1];
    }
  }

  /** `u` is empty or starts with a line terminator. */
  predicate AtLineEnd(u: string) {
    |u| == 0 || IsLineTerminator(u[0])
  }

  /** Text that is open up to a line end opens no marker, and stays open after its first character. */
  lemma OpenNoMarker(a: string, u: string)
    requires |a| > 0 && Open(a) && AtLineEnd(u)
    ensures MarkerLength(a + u) == 0
    ensures (a + u)[0] == a[0] && (a + u)[1..] == a[1..] + u
    ensures Open(a[1..])
  {
    var rest := a[1..] + u;
    assert (a + u)[1..] == rest;
    OpenStop(a[1..], u);
    assert |rest| == |a| - 1 || rest[|a| - 1] == u[0];
  }

  /** The scan for `]` runs across an open stretch and stops where it ends. */
  lemma OpenStop(a: string, u: string)
    requires Open(a) && AtLineEnd(u)
    ensures FirstStop(a + u, ']') == |a|
  {
    OpenAll(a);
    var s := a + u;
    assert forall k :: 0 <= k < |a| ==> s[k] == a[k];
    assert |s| == |a| || s[|a|] == u[0];
    FirstStopAt(s, ']', |a|);
  }

  /** Text that is open up to a line end is kept verbatim. */
  lemma {:induction false} UnclosedKept(a: string, u: string)
    requires Open(a) && AtLineEnd(u)
    ensures StripFootnotes(a + u) == a + StripFootnotes(u)
    decreases |a|
  {
    if |a| > 0 {
      OpenNoMarker(a, u);
      StripKeepsHead(a + u);
      UnclosedKept(a[1..], u);
      assert [a[0]] + (a[1..] + StripFootnotes(u)) == a + StripFootnotes(u);
    } else {
      assert a + u == u;
    }
  }

  /** The scan stops at `n` when `close`, a line terminator or the end is there and nothing before it stops the scan. */
  lemma {:induction false} FirstStopAt(s: string, close: char, n: nat)
    requires n <= |s| && (n == |s| || s[n] == close || IsLineTerminator(s[n]))
    requires forall k :: 0 <= k < n ==> s[k] != close && !IsLineTerminator(s[k])
    ensures FirstStop(s, close) == n
    decreases n
  {
    if n > 0 {
      var rest := s[1..];
      assert forall k :: 0 <= k < n - 1 ==> rest[k] == s[k + 1];
      FirstStopAt(rest, close, n - 1);
    }
  }

  /** A `[`, an open stretch and a `]` form a marker of exactly that length. */
  lemma MarkerAt(y: string, z: string)
    requires Open(y)
    ensures MarkerLength("[" + y + "]" + z) == |y| + 2
  {
    var m := "[" + y + "]" + z;
    var t := y + "]" + z;
    assert m == ['['] + t;
    assert m[1..] == t;
    ClosedStop(y, z);
  }

  /** The scan for `]` runs across an open stretch and stops at the `]` that closes it. */
  lemma ClosedStop(y: string, z: string)
    requires Open(y)
    ensures LazyUntil(y + "]" + z, ']') == Some(|y|)
  {
    OpenAll(y);
    var t := y + "]" + z;
    assert forall k :: 0 <= k < |y| ==> t[k] == y[k];
    assert t[|y|] == ']';
    FirstStopAt(t, ']', |y|);
  }

  /** Text without `[` is kept as it is, whatever follows it. */
  lemma {:induction false} PlainKept(x: string, u: string)
    requires '[' !in x
    ensures StripFootnotes(x + u) == x + StripFootnotes(u)
    decreases |x|
  {
    if |x| == 0 {
      assert x + u == u;
    } else {
      assert x[0] in x;
      assert (x + u)[0] == x[0] && (x + u)[1..] == x[1..] + u;
      assert '[' !in x[1..] by {
        forall c | c in x[1..] ensures c != '[' { assert c in x; }
      }
      StripKeepsHead(x + u);
      PlainKept(x[1..], u);
      assert [x[0]] + (x[1..] + StripFootnotes(u)) == x + StripFootnotes(u);
    }
  }

  /**
   * A closed footnote marker is removed, and only it: the text before it and
   * the text after it are kept (the latter cleaned in turn).
   */
  lemma MarkerRemoved(x: string, y: string, z: string)
    requires '[' !in x && Open(y)
    ensures StripFootnotes(x + ("[" + y + "]" + z)) == x + StripFootnotes(z)
  {
    var m := "[" + y + "]" + z;
    PlainKept(x, m);
    MarkerAt(y, z);
    assert m[|y| + 2..] == z;
  }

  /** Text without `]` holds no footnote marker. */
  lemma NoCloseNoFootnote(a: string)
    requires ']' !in a
    ensures NoFootnote(a)
  {
    forall j | 0 <= j < |a| ensures a[j] != ']' {
      assert a[j] in a;
    }
  }

  lemma NoFootnoteAppend(a: string, b: string)
    requires NoFootnote(a) && NoFootnote(b)
    requires '[' !in a || |b| == 0 || IsLineTerminator(b[0])
    ensures NoFootnote(a + b)
  {
    var s := a + b;
    forall i, j | 0 <= i < j < |s| && s[i] == '[' && s[j] == ']'
      ensures exists k :: i < k < j && IsLineTerminator(s[k])
    {
      if j < |a| {
        assert a[i] == '[' && a[j] == ']';
        var k :| i < k < j && IsLineTerminator(a[k]);
        assert s[k] == a[k];
      } else if i >= |a| {
        assert b[i - |a|] == '[' && b[j - |a|] == ']';
        var k :| i - |a| < k < j - |a| && IsLineTerminator(b[k]);
        assert s[k + |a|] == b[k];
      } else {
        assert a[i] == '[';
        assert s[|a|] == b[0];
      }
    }
  }

  /** Where an opening `[` that starts no marker stops: the next line terminator, or the end. */
  lemma UnclosedStop(s: string)
    requires |s| > 0 && s[0] == '[' && MarkerLength(s) == 0
    ensures var m := 1 + FirstStop(s[1..], ']');
            m <= |s| && Open(s[..m]) && AtLineEnd(s[m..])
  {
    var rest := s[1..];
    assert forall k :: 0 <= k < |rest| ==> rest[k] == s[k + 1];
    OpenAll(s[..1 + FirstStop(rest, ']')]);
  }

  /** An unclosed `[` keeps the stretch up to its line terminator, which then separates it from the rest. */
  lemma UnclosedComplete(s: string)
    requires |s| > 0 && s[0] == '[' && MarkerLength(s) == 0
    requires NoFootnote(StripFootnotes(s[1 + FirstStop(s[1..], ']')..]))
    ensures NoFootnote(StripFootnotes(s))
  {
    var m := 1 + FirstStop(s[1..], ']');
    UnclosedStop(s);
    var a := s[..m];
    var u := s[m..];
    assert a + u == s;
    UnclosedKept(a, u);
    var b := StripFootnotes(u);
    assert ']' !in a by {
      OpenAll(a);
      forall k | 0 <= k < |a| ensures a[k] != ']' { }
    }
    NoCloseNoFootnote(a);
    if |u| > 0 {
      StripKeepsHead(u);
    }
    NoFootnoteAppend(a, b);
  }

  /** After stripping, no footnote marker is left for the regex to match. */
  lemma {:induction false} StripFootnotesComplete(s: string)
    ensures NoFootnote(StripFootnotes(s))
    decreases |s|
  {
    if |s| == 0 {
    } else if MarkerLength(s) > 0 {
      StripFootnotesComplete(s[MarkerLength(s)..]);
    } else if s[0] == '[' {
      StripFootnotesComplete(s[1 + FirstStop(s[1..], ']')..]);
      UnclosedComplete(s);
    } else {
      StripFootnotesComplete(s[1..]);
      NoFootnoteAppend([s[0]], StripFootnotes(s[1..]));
    }
  }

  /** The cleaning applied to panellist names and anchor texts alike. */
  function Clean(s: string): string {
    Trim(StripFootnotes(s))
  }

  // -------------------------------------------------------- split and join

  /** `pieces.join(sep)`. */
  function Join(pieces: seq<string>, sep: char): string {
    if |pieces| == 0 then []
    else if |pieces| == 1 then pieces[0]
    else pieces[0] + [sep] + Join(pieces[1..], sep)
  }

  /** `s.split(sep)`: always at least one piece (see `SplitShape` for the rest). */
  function Split(s: string, sep: char): (pieces: seq<string>)
    ensures |pieces| >= 1
  {
    if |s| == 0 then [[]]
    else
      var rest := Split(s[1..], sep);
      if s[0] == sep then [[]] + rest
      else [[s[0]] + rest[0]] + rest[1..]
  }

  /** The pieces are free of the separator and joining them back gives the input. */
  lemma {:induction false} SplitShape(s: string, sep: char)
    ensures forall p :: p in Split(s, sep) ==> sep !in p
    ensures Join(Split(s, sep), sep) == s
    decreases |s|
  {
    if |s| > 0 {
      var rest := Split(s[1..], sep);
      SplitShape(s[1..], sep);
      if s[0] == sep {
        assert Split(s, sep) == [[]] + rest;
        assert ([[]] + rest)[1..] == rest;
        assert [sep] + s[1..] == s;
      } else {
        var head := [s[0]] + rest[0];
        assert Split(s, sep) == [head] + rest[1..];
        assert ([head] + rest[1..])[1..] == rest[1..];
        assert rest[0] in rest;
        if |rest| == 1 {
          assert Join(rest, sep) == rest[0];
        } else {
          assert Join(rest, sep) == rest[0] + [sep] + Join(rest[1..], sep);
          assert head + [sep] + Join(rest[1..], sep) == [s[0]] + (rest[0] + [sep] + Join(rest[1..], sep));
        }
        assert [s[0]] + s[1..] == s;
      }
    }
  }

  lemma {:induction false} SplitPrefix(x: string, y: string, sep: char)
    requires sep !in x
    ensures Split(x + [sep] + y, sep) == [x] + Split(y, sep)
    decreases |x|
  {
    var s := x + [sep] + y;
    if |x| == 0 {
      assert s[1..] == y;
    } else {
      assert s[1..] == x[1..] + [sep] + y;
      assert s[0] == x[0] && x[0] in x;
      SplitPrefix(x[1..], y, sep);
      var rest := Split(s[1..], sep);
      assert rest == [x[1..]] + Split(y, sep);
      assert Split(s, sep) == [[x[0]] + rest[0]] + rest[1..];
      assert [x[0]] + x[1..] == x;
    }
  }

  lemma {:induction false} SplitWhole(x: string, sep: char)
    requires sep !in x
    ensures Split(x, sep) == [x]
    decreases |x|
  {
    if |x| > 0 {
      SplitWhole(x[1..], sep);
      assert [x[0]] + x[1..] == x;
    }
  }

  /** Splitting undoes joining when no piece contains the separator. */
  lemma {:induction false} SplitJoin(pieces: seq<string>, sep: char)
    requires |pieces| >= 1
    requires forall p :: p in pieces ==> sep !in p
    ensures Split(Join(pieces, sep), sep) == pieces
  {
    if |pieces| == 1 {
      SplitWhole(pieces[0], sep);
    } else {
      SplitJoin(pieces[1..], sep);
      SplitPrefix(pieces[0], Join(pieces[1..], sep), sep);
      assert [pieces[0]] + pieces[1..] == pieces;
    }
  }

  // ------------------------------------------------------ other rewrites

  /** `s.replace(/from/g, to)` for a single character. */
  function ReplaceChar(s: string, from: char, to: char): (r: string)
    ensures |r| == |s|
    ensures forall k :: 0 <= k < |s| ==> r[k] == (if s[k] == from then to else s[k])
  {
    if |s| == 0 then [] else [if s[0] == from then to else s[0]] + ReplaceChar(s[1..], from, to)
  }

  /** Rewriting the prefix of text that carries it swaps the prefix and keeps the rest. */
  lemma RewriteCarried(prefix: string, rest: string, replacement: string)
    ensures RewritePrefix(prefix + rest, prefix, replacement) == replacement + rest
  {
    assert prefix <= prefix + rest;
    assert (prefix + rest)[|prefix|..] == rest;
  }

  /** `s.replace(/^prefix/, replacement)`: the rewrite happens only at the very start. */
  function RewritePrefix(s: string, prefix: string, replacement: string): (r: string)
    ensures prefix <= s ==> r == replacement + s[|prefix|..]
    ensures !(prefix <= s) ==> r == s
  {
    if prefix <= s then replacement + s[|prefix|..] else s
  }
}
