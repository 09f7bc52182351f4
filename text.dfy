/** String helpers standing for the Python `str` methods the indexer and the
    resolver use: `lower`, `startswith`, `endswith`, `strip`,
    `split(c)[0]`, `split(sep)[-1]` and `index`. */
module Text {
  import Sequences

  /** ASCII case folding (A-Z to a-z); every other character is unchanged. */
  function LowerChar(c: char): char
  {
    if 'A' <= c <= 'Z' then (c as int + 32) as char else c
  }

  function Lower(s: string): string
  {
    seq(|s|, i requires 0 <= i < |s| => LowerChar(s[i]))
  }

  predicate StartsWith(s: string, prefix: string)
  {
    |prefix| <= |s| && s[..|prefix|] == prefix
  }

  predicate EndsWith(s: string, suffix: string)
  {
    |suffix| <= |s| && s[|s| - |suffix|..] == suffix
  }

  /** `p` occurs in `s` as a contiguous substring (Python's `p in s`). */
  predicate Occurs(s: string, p: string)
    decreases |s|
  {
    StartsWith(s, p) || (s != [] && Occurs(s[1..], p))
  }

  /** Substring test after ASCII case folding of both sides. */
  predicate ContainsIgnoreCase(s: string, p: string)
  {
    Occurs(Lower(s), Lower(p))
  }

  lemma EndsWithTail(s: string, suffix: string, k: nat)
    requires k <= |s| && EndsWith(s[k..], suffix)
    ensures EndsWith(s, suffix)
  {
    assert s[|s| - |suffix|..] == s[k..][|s| - k - |suffix|..];
  }

  /** `s.split(sep)[-1]`: the text after the last occurrence of `sep` found
      by Python's left-to-right, non-overlapping scan, or all of `s` when
      `sep` does not occur. */
  function LastSegment(s: string, sep: string): (r: string)
    requires sep != ""
    ensures EndsWith(s, r)
    ensures !Occurs(r, sep)
    ensures Occurs(s, sep) ==> EndsWith(s, sep + r)
    ensures !Occurs(s, sep) ==> r == s
    decreases |s|
  {
    if StartsWith(s, sep) then
      var r := LastSegment(s[|sep|..], sep);
      EndsWithTail(s, r, |sep|);
      if Occurs(s[|sep|..], sep) then
        EndsWithTail(s, sep + r, |sep|);
        r
      else
        assert s == sep + r;
        r
    else if s == [] then
      s
    else if Occurs(s[1..], sep) then
      var r := LastSegment(s[1..], sep);
      EndsWithTail(s, r, 1);
      EndsWithTail(s, sep + r, 1);
      r
    else
      s
  }

  /** `s.split(c)[0]`: the text before the first `c`, or all of `s`. */
  function BeforeFirst(s: string, c: char): (r: string)
    ensures StartsWith(s, r)
    ensures c !in r
    ensures |r| < |s| ==> s[|r|] == c
  {
    if s == [] || s[0] == c then []
    else
      var r := BeforeFirst(s[1..], c);
      assert s[..|r| + 1] == [s[0]] + s[1..][..|r|];
      [s[0]] + r
  }

  /** `BeforeFirst` is the first piece of the generic `split`. */
  lemma {:induction false} BeforeFirstIsSplitHead(s: string, c: char)
    ensures BeforeFirst(s, c) == Sequences.Split(s, c)[0]
    decreases |s|
  {
    if s != [] && s[0] != c {
      BeforeFirstIsSplitHead(s[1..], c);
    }
  }

  /** `s[s.index(c) + 1:]`: the text after the first `c`; Python's `index`
      raises when `c` is absent, hence the precondition. */
  function AfterFirst(s: string, c: char): (r: string)
    requires c in s
    ensures EndsWith(s, r)
    ensures s == BeforeFirst(s, c) + [c] + r
  {
    var k := |BeforeFirst(s, c)|;
    assert s == s[..k] + [c] + s[k + 1..];
    s[k + 1..]
  }

  /** Python's `str.isspace` for one character. */
  predicate IsSpace(c: char)
  {
    var n := c as int;
    n == 0x20 || 0x09 <= n <= 0x0D || 0x1C <= n <= 0x1F || n == 0x85 || n == 0xA0
    || n == 0x1680 || 0x2000 <= n <= 0x200A || n == 0x2028 || n == 0x2029
    || n == 0x202F || n == 0x205F || n == 0x3000
  }

  predicate AllSpace(s: string)
  {
    forall i :: 0 <= i < |s| ==> IsSpace(s[i])
  }

  /** `s.rstrip()`. */
  function StripEnd(s: string): (r: string)
    ensures |r| <= |s|
  {
    if s == [] || !IsSpace(s[|s| - 1]) then s
    else StripEnd(s[..|s| - 1])
  }

  /** `rstrip` keeps a prefix that does not end in white space and drops
      only white space. */
  lemma {:induction false} StripEndShape(s: string)
    ensures var r := StripEnd(s);
            StartsWith(s, r) && (r == [] || !IsSpace(r[|r| - 1])) && AllSpace(s[|r|..])
    decreases |s|
  {
    if s != [] && IsSpace(s[|s| - 1]) {
      var t := s[..|s| - 1];
      StripEndShape(t);
      var r := StripEnd(t);
      assert s[..|r|] == t[..|r|];
      assert s[|r|..] == t[|r|..] + [s[|s| - 1]];
    }
  }

  /** `s.lstrip()`. */
  function StripStart(s: string): (r: string)
    ensures |r| <= |s|
  {
    if s == [] || !IsSpace(s[0]) then s
    else StripStart(s[1..])
  }

  /** `lstrip` keeps a suffix that does not start with white space and
      drops only white space. */
  lemma {:induction false} StripStartShape(s: string)
    ensures var r := StripStart(s);
            EndsWith(s, r) && (r == [] || !IsSpace(r[0])) && AllSpace(s[..|s| - |r|])
    decreases |s|
  {
    if s != [] && IsSpace(s[0]) {
      StripStartShape(s[1..]);
      var r := StripStart(s[1..]);
      EndsWithTail(s, r, 1);
      assert s[..|s| - |r|] == [s[0]] + s[1..][..|s| - 1 - |r|];
    }
  }

  /** `s.strip()`. */
  function Strip(s: string): string
  {
    StripStart(StripEnd(s))
  }
}
