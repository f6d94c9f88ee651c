/**
 * Extraction of the party token from a politician's rendered Wikipedia page:
 * the regular expression
 *   /<tr><th scope="row">Political party<\/th><td>\n<a href="\/wiki\/(.*?)"/
 * run once (`exec`, no global flag), so only its leftmost match counts.
 * The matcher is stated for any literal `prefix` in front of the lazy
 * capture `(.*?)"`; `PartyToken` fixes the prefix to the infobox row.
 */
module Infobox {
  import opened Wrappers
  import opened Text

  /** The literal text the pattern requires before the captured article name. */
  const PartyRow: string := "<tr><th scope=\"row\">Political party</th><td>\n<a href=\"/wiki/"

  /** `s` carries `prefix` at position `i`. */
  predicate PrefixAt(s: string, prefix: string, i: nat) {
    i + |prefix| <= |s| && s[i..i + |prefix|] == prefix
  }

  /** The capture of `prefix(.*?)"` matched exactly at `i`, or None when the pattern does not match there. */
  function CaptureAt(s: string, prefix: string, i: nat): (r: Option<string>)
    ensures r.Some? ==> PrefixAt(s, prefix, i)
  {
    if PrefixAt(s, prefix, i) then
      var start := i + |prefix|;
      match LazyUntil(s[start..], '"')
      case Some(n) => Some(s[start..start + n])
      case None => None
    else None
  }

  /**
   * A capture is followed by the closing quote in `s`, and holds neither a
   * quote nor a line terminator.
   */
  lemma CaptureShape(s: string, prefix: string, i: nat)
    requires CaptureAt(s, prefix, i).Some?
    ensures var c := CaptureAt(s, prefix, i).value;
            && i + |prefix| + |c| < |s|
            && s[i + |prefix|..i + |prefix| + |c|] == c
            && s[i + |prefix| + |c|] == '"'
            && forall k :: 0 <= k < |c| ==> c[k] != '"' && !IsLineTerminator(c[k])
  {
    var start := i + |prefix|;
    var n := LazyUntil(s[start..], '"').value;
    assert s[start..][..n] == s[start..start + n];
  }

  /** The pattern matches nowhere in `s` from `i` to `j` (exclusive). */
  ghost predicate NoCaptureBetween(s: string, prefix: string, i: nat, j: nat) {
    forall k :: i <= k < j ==> CaptureAt(s, prefix, k).None?
  }

  /** The leftmost position at or after `i` where the pattern matches: where `RegExp.prototype.exec` stops. */
  function FirstMatch(s: string, prefix: string, i: nat): (r: Option<nat>)
    requires i <= |s|
    ensures r.Some? ==> i <= r.value <= |s| && CaptureAt(s, prefix, r.value).Some?
    ensures r.Some? ==> NoCaptureBetween(s, prefix, i, r.value)
    ensures r.None? ==> NoCaptureBetween(s, prefix, i, |s| + 1)
    decreases |s| - i
  {
    if CaptureAt(s, prefix, i).Some? then Some(i)
    else if i == |s| then None
    else FirstMatch(s, prefix, i + 1)
  }

  /** The capture of the leftmost match. */
  function FirstCapture(s: string, prefix: string): Option<string> {
    match FirstMatch(s, prefix, 0)
    case Some(j) => CaptureAt(s, prefix, j)
    case None => None
  }

  /** The party token of a page's rendered content, if its infobox names one. */
  function PartyToken(content: string): Option<string> {
    FirstCapture(content, PartyRow)
  }

  /** The captured token never contains a quote or a line break. */
  lemma PartyTokenShape(content: string)
    requires PartyToken(content).Some?
    ensures '"' !in PartyToken(content).value
    ensures forall k :: 0 <= k < |PartyToken(content).value| ==> !IsLineTerminator(PartyToken(content).value[k])
  {
    CaptureShape(content, PartyRow, FirstMatch(content, PartyRow, 0).value);
  }

  /** A match that fits inside `s` survives any text appended after it. */
  lemma CaptureAppend(s: string, t: string, prefix: string, i: nat)
    requires CaptureAt(s, prefix, i).Some?
    ensures CaptureAt(s + t, prefix, i) == CaptureAt(s, prefix, i)
  {
    var start := i + |prefix|;
    assert (s + t)[i..start] == s[i..start];
    assert (s + t)[start..] == s[start..] + t;
    LazyUntilAppend(s[start..], t, '"');
    var n := LazyUntil(s[start..], '"').value;
    assert (s + t)[start..start + n] == s[start..start + n];
  }

  /** A match in `s` is closed by a quote inside `s`, after the prefix. */
  lemma CaptureCloses(s: string, prefix: string, i: nat) returns (q: nat)
    requires CaptureAt(s, prefix, i).Some?
    ensures i + |prefix| <= q < |s| && s[q] == '"'
  {
    var start := i + |prefix|;
    q := start + LazyUntil(s[start..], '"').value;
  }

  /** A prefix whose lazy capture finds no quote, though one follows later in `s`, still fails with text appended. */
  lemma UnclosedAppend(s: string, t: string, prefix: string, k: nat, q: nat)
    requires PrefixAt(s, prefix, k) && CaptureAt(s, prefix, k).None?
    requires k + |prefix| <= q < |s| && s[q] == '"'
    ensures CaptureAt(s + t, prefix, k).None?
  {
    var start := k + |prefix|;
    var u := s[start..];
    assert u[q - start] == '"';
    LazyUntilAppendNone(u, t, '"', q - start);
    assert (s + t)[start..] == u + t;
  }

  /** A position that fails in `s`, left of a match in `s`, still fails once text is appended. */
  lemma NoCaptureAppend(s: string, t: string, prefix: string, k: nat, j: nat)
    requires k < j
    requires CaptureAt(s, prefix, k).None? && CaptureAt(s, prefix, j).Some?
    ensures CaptureAt(s + t, prefix, k).None?
  {
    if PrefixAt(s + t, prefix, k) {
      assert s[k..k + |prefix|] == (s + t)[k..k + |prefix|];
      var q := CaptureCloses(s, prefix, j);
      UnclosedAppend(s, t, prefix, k, q);
    }
  }

  /** The scan from `i` stops at the first position that matches. */
  lemma {:induction false} FirstMatchAt(s: string, prefix: string, i: nat, j: nat)
    requires i <= j <= |s|
    requires CaptureAt(s, prefix, j).Some? && NoCaptureBetween(s, prefix, i, j)
    ensures FirstMatch(s, prefix, i) == Some(j)
    decreases j - i
  {
    if i < j {
      assert CaptureAt(s, prefix, i).None?;
      FirstMatchAt(s, prefix, i + 1, j);
    }
  }

  /** Appending text after a match in `s` leaves the leftmost match unchanged. */
  lemma FirstCaptureAppend(s: string, t: string, prefix: string)
    requires FirstCapture(s, prefix).Some?
    ensures FirstCapture(s + t, prefix) == FirstCapture(s, prefix)
  {
    var j := FirstMatch(s, prefix, 0).value;
    CaptureAppend(s, t, prefix, j);
    forall k | 0 <= k < j ensures CaptureAt(s + t, prefix, k).None? {
      NoCaptureAppend(s, t, prefix, k, j);
    }
    FirstMatchAt(s + t, prefix, 0, j);
  }

  /**
   * Only the first infobox row counts: once the content seen so far yields a
   * token, whatever follows (a former party listed further down, say) cannot
   * change it.
   */
  lemma LaterRowsIgnored(s: string, t: string)
    requires PartyToken(s).Some?
    ensures PartyToken(s + t) == PartyToken(s)
  {
    FirstCaptureAppend(s, t, PartyRow);
  }
}
