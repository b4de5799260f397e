/** The single-match `String.prototype.replace` with a regular expression of the
    shape `/P.*\n/` (no `g` flag), where `P` is a literal prefix: `/.*\n/`,
    `/Author: .*\n/` and `/Date: .*\n/`. In such a pattern `.` matches any
    character except a line terminator, so the text is scanned for the leftmost
    position where the prefix occurs and is followed by a run of ordinary
    characters ending in `\n`; that span is removed. */
module LineRegex {
  import opened Maybe

  /** The characters ECMAScript's `.` refuses to match. */
  predicate IsLineTerminator(c: char) {
    c == '\n' || c == '\r' || c == '\U{2028}' || c == '\U{2029}'
  }

  /** `s[i..e]` is a match of `/P.*\n/`: the prefix, then characters `.` accepts,
      then a newline. */
  ghost predicate IsMatch(s: string, prefix: string, i: int, e: int) {
    && 0 <= i
    && i + |prefix| < e <= |s|
    && s[i..i + |prefix|] == prefix
    && s[e - 1] == '\n'
    && forall m :: i + |prefix| <= m < e - 1 ==> !IsLineTerminator(s[m])
  }

  /** The first line terminator at or after `j`, or `|s|` when there is none. */
  function FirstTerminator(s: string, j: nat): (k: nat)
    requires j <= |s|
    ensures j <= k <= |s|
    ensures k < |s| ==> IsLineTerminator(s[k])
    ensures forall m :: j <= m < k ==> !IsLineTerminator(s[m])
    decreases |s| - j
  {
    if j == |s| then |s|
    else if IsLineTerminator(s[j]) then j
    else FirstTerminator(s, j + 1)
  }

  /** The end of the match starting at `i`, if one starts there. Greedy `.*`
      can only stop at the first terminator, so there is at most one. */
  function MatchAt(s: string, prefix: string, i: nat): (r: Option<nat>)
    requires i <= |s|
    ensures r.Some? ==> IsMatch(s, prefix, i, r.value)
    ensures forall e :: IsMatch(s, prefix, i, e) ==> r == Some(e)
  {
    if i + |prefix| <= |s| && s[i..i + |prefix|] == prefix then
      var k := FirstTerminator(s, i + |prefix|);
      if k < |s| && s[k] == '\n' then Some(k + 1) else None
    else None
  }

  /** The leftmost match starting at or after `from`, as (start, end). */
  function Search(s: string, prefix: string, from: nat): (r: Option<(nat, nat)>)
    requires from <= |s|
    ensures r.Some? ==> from <= r.value.0 && IsMatch(s, prefix, r.value.0, r.value.1)
    ensures r.Some? ==> forall i, e :: from <= i < r.value.0 ==> !IsMatch(s, prefix, i, e)
    ensures r.None? ==> forall i, e :: from <= i ==> !IsMatch(s, prefix, i, e)
    decreases |s| - from
  {
    match MatchAt(s, prefix, from)
    case Some(e) => Some((from, e))
    case None => if from == |s| then None else Search(s, prefix, from + 1)
  }

  /** `s.replace(/P.*\n/, "")`: the leftmost match is cut out; with no match the
      text is returned unchanged. */
  function ReplaceFirst(s: string, prefix: string): (r: string)
    ensures |r| <= |s|
    ensures '\n' !in s ==> r == s
    ensures (forall i, e :: !IsMatch(s, prefix, i, e)) ==> r == s
    ensures forall i, e ::
              IsMatch(s, prefix, i, e) && (forall i', e' :: 0 <= i' < i ==> !IsMatch(s, prefix, i', e'))
              ==> r == s[..i] + s[e..]
  {
    match Search(s, prefix, 0)
    case None => s
    case Some((i, e)) =>
      assert forall e' :: IsMatch(s, prefix, i, e') ==> e' == e by {
        forall e' | IsMatch(s, prefix, i, e') ensures e' == e {
          assert MatchAt(s, prefix, i) == Some(e');
          assert MatchAt(s, prefix, i) == Some(e);
        }
      }
      s[..i] + s[e..]
  }

  /** The position just after the last line terminator before `k`, or 0: where
      the `.*` that reaches `k` can start at the earliest. */
  function LineStart(s: string, k: nat): (j: nat)
    requires k <= |s|
    ensures j <= k
    ensures forall m :: j <= m < k ==> !IsLineTerminator(s[m])
    ensures 0 < j ==> IsLineTerminator(s[j - 1])
  {
    if k == 0 || IsLineTerminator(s[k - 1]) then k else LineStart(s, k - 1)
  }

  /** `s.replace(/.*\n/, "")`, the first-line strip. It never lengthens the
      text, and text without a newline is left unchanged. */
  function StripFirstLine(s: string): (r: string)
    ensures |r| <= |s|
    ensures '\n' !in s ==> r == s
  {
    ReplaceFirst(s, "")
  }

  /** The leftmost match of `/.*\n/` ends at the first `\n`, so everything
      after that newline is kept; the match may start before the beginning of
      the newline's line when a `\r`, U+2028 or U+2029 comes first, and the
      text before it is kept too. */
  lemma FirstNewlineCut(s: string, k: nat)
    requires k < |s| && s[k] == '\n' && '\n' !in s[..k]
    ensures exists i :: 0 <= i <= k && StripFirstLine(s) == s[..i] + s[k + 1..]
  {
    var j := LineStart(s, k);
    assert IsMatch(s, "", j, k + 1);
    match Search(s, "", 0)
    case Some((i, e)) =>
      assert i <= j;
      assert e == k + 1;
      assert StripFirstLine(s) == s[..i] + s[e..];
    case None =>
  }

  /** A first line made of ordinary characters, and its `\n`, are removed and
      the rest is kept verbatim. */
  lemma StripFirstLineOf(line: string, rest: string)
    requires forall m :: 0 <= m < |line| ==> !IsLineTerminator(line[m])
    ensures StripFirstLine(line + "\n" + rest) == rest
  {
    var s := line + "\n" + rest;
    assert IsMatch(s, "", 0, |line| + 1);
    assert s[|line| + 1..] == rest;
  }

  /** For text whose only line terminator is `\n`, the strip drops everything
      up to and including the first `\n`. */
  lemma StripFirstNewline(s: string, k: nat)
    requires forall m :: 0 <= m < |s| ==> s[m] == '\n' || !IsLineTerminator(s[m])
    requires k < |s| && s[k] == '\n' && '\n' !in s[..k]
    ensures StripFirstLine(s) == s[k + 1..]
  {
  }
}
