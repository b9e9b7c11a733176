/** Python string primitives the cleaners rely on: `str.strip()` and the
    lower-casing used to compare against ASCII words. */
module Strings {

  /** Python's `str.isspace()` for a single character: the characters whose
      Unicode bidirectional class is WS, B or S, or whose category is Zs. */
  predicate IsSpace(c: char)
  {
    || c == ' ' || c == '\t' || c == '\n' || c == '\r'
    || c == '\U{000B}' || c == '\U{000C}'
    || ('\U{001C}' <= c <= '\U{001F}')
    || c == '\U{0085}' || c == '\U{00A0}' || c == '\U{1680}'
    || ('\U{2000}' <= c <= '\U{200A}')
    || c == '\U{2028}' || c == '\U{2029}' || c == '\U{202F}' || c == '\U{205F}' || c == '\U{3000}'
  }

  /** Where `s.lstrip()` starts: the first index from `i` on that does not
      hold whitespace, or `|s|`. */
  function LeadEnd(s: string, i: nat): (k: nat)
    requires i <= |s|
    ensures i <= k <= |s|
    ensures k < |s| ==> !IsSpace(s[k])
    decreases |s| - i
  {
    if i == |s| || !IsSpace(s[i]) then i else LeadEnd(s, i + 1)
  }

  /** Where `s.rstrip()` ends, looking no further left than `lo`: the
      smallest `k >= lo` such that `s[k..j]` is all whitespace. */
  function TrailStart(s: string, lo: nat, j: nat): (k: nat)
    requires lo <= j <= |s|
    ensures lo <= k <= j
    ensures k > lo ==> !IsSpace(s[k - 1])
    decreases j
  {
    if j == lo || !IsSpace(s[j - 1]) then j else TrailStart(s, lo, j - 1)
  }

  /** `s.strip()`: the longest infix of `s` that neither starts nor ends with whitespace. */
  function Strip(s: string): (r: string)
    ensures |r| <= |s|
    ensures |r| > 0 ==> !IsSpace(r[0]) && !IsSpace(r[|r| - 1])
  {
    var a := LeadEnd(s, 0);
    s[a..TrailStart(s, a, |s|)]
  }

  /** Everything before the start of `lstrip` is whitespace. */
  lemma {:induction false} LeadEndSkipsSpaces(s: string, i: nat)
    requires i <= |s|
    ensures forall j :: i <= j < LeadEnd(s, i) ==> IsSpace(s[j])
    decreases |s| - i
  {
    if i < |s| && IsSpace(s[i]) {
      LeadEndSkipsSpaces(s, i + 1);
    }
  }

  /** Everything after the end of `rstrip` is whitespace. */
  lemma {:induction false} TrailStartSkipsSpaces(s: string, lo: nat, j: nat)
    requires lo <= j <= |s|
    ensures forall m :: TrailStart(s, lo, j) <= m < j ==> IsSpace(s[m])
    decreases j
  {
    if j > lo && IsSpace(s[j - 1]) {
      TrailStartSkipsSpaces(s, lo, j - 1);
    }
  }

  /** Stripping removes only whitespace: every other character of `s` is still there. */
  lemma StripKeeps(s: string, c: char)
    requires !IsSpace(c)
    ensures c in s <==> c in Strip(s)
  {
    var a := LeadEnd(s, 0);
    var b := TrailStart(s, a, |s|);
    LeadEndSkipsSpaces(s, 0);
    TrailStartSkipsSpaces(s, a, |s|);
    if c in s {
      var i :| 0 <= i < |s| && s[i] == c;
      assert s[a..b][i - a] == c;
    }
  }

  /** The start of `lstrip` of a string that starts with no whitespace is 0. */
  lemma StripOfStripped(s: string)
    requires |s| > 0 ==> !IsSpace(s[0]) && !IsSpace(s[|s| - 1])
    ensures Strip(s) == s
  {
    assert LeadEnd(s, 0) == 0;
    assert TrailStart(s, 0, |s|) == |s|;
  }

  /** Stripping twice is stripping once. */
  lemma StripIdempotent(s: string)
    ensures Strip(Strip(s)) == Strip(s)
  {
    StripOfStripped(Strip(s));
  }

  function LowerAsciiChar(c: char): char
  {
    if 'A' <= c <= 'Z' then (c as int + 32) as char else c
  }

  /** ASCII lower-casing. It agrees with Python's `str.lower()` wherever the
      result is compared with a word spelled in ASCII letters: no non-ASCII
      character lower-cases to an ASCII letter other than the Kelvin sign's 'k'. */
  function LowerAscii(s: string): (r: string)
    ensures |r| == |s|
    ensures forall i :: 0 <= i < |s| ==> r[i] == LowerAsciiChar(s[i])
  {
    if |s| == 0 then [] else [LowerAsciiChar(s[0])] + LowerAscii(s[1..])
  }

  /** `w` occurs in `s` starting at position `i`. */
  predicate OccursAt(w: string, s: string, i: nat)
  {
    i + |w| <= |s| && s[i..i + |w|] == w
  }

  /** Python's `w in s` on strings: `w` occurs in `s` as a contiguous block. */
  predicate IsInfix(w: string, s: string)
  {
    exists i: nat :: i <= |s| && OccursAt(w, s, i)
  }
}
