/** String operations of Python's `str` that the modelled code relies on:
    `strip`, `lower`, `split`, `join`, `find`, `in` and `str(int)`. */
module Text {

  /** Python's `str.isspace` for a single character (the Unicode White_Space
      characters plus the ASCII separators U+001C..U+001F). */
  predicate IsSpace(c: char) {
    || ('\t' <= c <= '\r')
    || ('\U{001C}' <= c <= ' ')
    || c == '\U{0085}' || c == '\U{00A0}' || c == '\U{1680}'
    || ('\U{2000}' <= c <= '\U{200A}')
    || c == '\U{2028}' || c == '\U{2029}' || c == '\U{202F}' || c == '\U{205F}'
    || c == '\U{3000}'
  }

  predicate AllSpace(s: string) {
    forall i :: 0 <= i < |s| ==> IsSpace(s[i])
  }

  /** Neither end of `s` is whitespace: what `strip()` promises of its result. */
  predicate IsStripped(s: string) {
    s == [] || (!IsSpace(s[0]) && !IsSpace(s[|s| - 1]))
  }

  /** The number of whitespace characters `s` starts with: what `lstrip()`
      removes. */
  function LeadingSpace(s: string): (n: nat)
    ensures n <= |s| && AllSpace(s[..n]) && (n == |s| || !IsSpace(s[n]))
    decreases |s|
  {
    if |s| > 0 && IsSpace(s[0]) then
      var n := 1 + LeadingSpace(s[1..]);
      assert s[..n] == [s[0]] + s[1..][..n - 1];
      n
    else 0
  }

  /** The number of whitespace characters `s` ends with: what `rstrip()`
      removes. */
  function TrailingSpace(s: string): (n: nat)
    ensures n <= |s| && AllSpace(s[|s| - n..]) && (n == |s| || !IsSpace(s[|s| - n - 1]))
    decreases |s|
  {
    if |s| > 0 && IsSpace(s[|s| - 1]) then
      var t := s[..|s| - 1];
      var n := 1 + TrailingSpace(t);
      assert s[|s| - n..] == t[|t| - (n - 1)..] + [s[|s| - 1]];
      n
    else 0
  }

  /** `s.strip()`: the infix of `s` between its leading and its trailing
      whitespace, which neither starts nor ends with whitespace. */
  function Strip(s: string): (r: string)
    ensures IsStripped(r) && |r| <= |s|
  {
    var i := LeadingSpace(s);
    if i == |s| then []
    else
      var n := TrailingSpace(s);
      s[i..|s| - n]
  }

  /** What `strip()` keeps: the infix after the leading whitespace that is
      followed by whitespace only. */
  lemma StripIsInfix(s: string)
    ensures var r := Strip(s); var i := LeadingSpace(s);
            i + |r| <= |s| && r == s[i..i + |r|] && AllSpace(s[..i]) && AllSpace(s[i + |r|..])
  {
    var i := LeadingSpace(s);
    var r := Strip(s);
    assert i + |r| <= |s| && r == s[i..i + |r|];
    assert AllSpace(s[i + |r|..]) by {
      if i < |s| {
        assert i + |r| == |s| - TrailingSpace(s);
      }
    }
  }

  /** Stripping a string that is already stripped changes nothing; in particular
      `strip` is idempotent. */
  lemma StripStripped(s: string)
    requires IsStripped(s)
    ensures Strip(s) == s
  {
    if |s| > 0 {
      assert LeadingSpace(s) == 0;
      assert TrailingSpace(s) == 0;
      assert s[0..|s|] == s;
    }
  }

  lemma StripIdempotent(s: string)
    ensures Strip(Strip(s)) == Strip(s)
  {
    StripStripped(Strip(s));
  }

  /** ASCII part of `str.lower`. */
  function LowerChar(c: char): char {
    if 'A' <= c <= 'Z' then (c as int + 32) as char else c
  }

  function Lower(s: string): (r: string)
    ensures |r| == |s|
  {
    seq(|s|, i requires 0 <= i < |s| => LowerChar(s[i]))
  }

  lemma LowerIdempotent(s: string)
    ensures Lower(Lower(s)) == Lower(s)
  {
  }

  /** Lower-casing keeps a stripped string stripped. */
  lemma LowerStripped(s: string)
    ensures IsStripped(s) ==> IsStripped(Lower(s))
  {
  }

  /** `s.startswith(p)` */
  predicate StartsWith(s: string, p: string) {
    |p| <= |s| && s[..|p|] == p
  }

  /** `StartsWith` spelled out. */
  lemma StartsWithIff(s: string, p: string)
    ensures StartsWith(s, p) <==> |p| <= |s| && s[..|p|] == p
  {
  }

  /** A string starts with itself followed by anything. */
  lemma StartsWithConcat(p: string, x: string)
    ensures StartsWith(p + x, p)
  {
    StartsWithIff(p + x, p);
    assert (p + x)[..|p|] == p;
  }

  /** Prefixes of prefixes are prefixes. */
  lemma {:induction false} StartsWithTrans(s: string, q: string, m: string)
    requires StartsWith(s, q) && StartsWith(q, m)
    ensures StartsWith(s, m)
    decreases |m|
  {
    if |m| > 0 {
      StartsWithTrans(s[1..], q[1..], m[1..]);
    }
  }

  /** `pat` occurs in `s` at position `p`. */
  predicate OccursAt(s: string, pat: string, p: int) {
    0 <= p && p + |pat| <= |s| && StartsWith(s[p..], pat)
  }

  /** `OccursAt` agrees with comparing the slice at `p`. */
  lemma OccursAtIff(s: string, pat: string, p: int)
    ensures OccursAt(s, pat, p) <==> 0 <= p && p + |pat| <= |s| && s[p..p + |pat|] == pat
  {
    if 0 <= p && p + |pat| <= |s| {
      StartsWithIff(s[p..], pat);
      if p + |pat| <= |s| {
        assert s[p..][..|pat|] == s[p..p + |pat|];
      }
    }
  }

  /** `pat[j..]` agrees with `s` from position `p + j` on, compared character by
      character. */
  predicate MatchesFrom(s: string, pat: string, p: nat, j: nat)
    requires p + |pat| <= |s| && j <= |pat|
    decreases |pat| - j
  {
    j == |pat| || (s[p + j] == pat[j] && MatchesFrom(s, pat, p, j + 1))
  }

  /** Comparing character by character is comparing the slices. */
  lemma {:induction false} MatchesFromIff(s: string, pat: string, p: nat, j: nat)
    requires p + |pat| <= |s| && j <= |pat|
    ensures MatchesFrom(s, pat, p, j) <==> s[p + j..p + |pat|] == pat[j..]
    decreases |pat| - j
  {
    if j < |pat| {
      MatchesFromIff(s, pat, p, j + 1);
      assert s[p + j..p + |pat|] == [s[p + j]] + s[p + j + 1..p + |pat|];
      assert pat[j..] == [pat[j]] + pat[j + 1..];
    }
  }

  /** `OccursAt` compared character by character. */
  lemma OccursAtMatches(s: string, pat: string, p: nat)
    ensures OccursAt(s, pat, p) <==> p + |pat| <= |s| && MatchesFrom(s, pat, p, 0)
  {
    OccursAtIff(s, pat, p);
    if p + |pat| <= |s| {
      MatchesFromIff(s, pat, p, 0);
      assert pat[0..] == pat;
    }
  }

  /** `s.find(pat)`: the first position where `pat` occurs, or -1. */
  function Find(s: string, pat: string): (r: int)
    ensures -1 <= r <= |s|
    ensures r >= 0 ==> OccursAt(s, pat, r)
    ensures forall p {:trigger OccursAt(s, pat, p)} ::
              0 <= p <= |s| && (r < 0 || p < r) ==> !OccursAt(s, pat, p)
  {
    assert s[0..] == s;
    if StartsWith(s, pat) then 0
    else if |s| == 0 then -1
    else
      var k := Find(s[1..], pat);
      assert forall p :: 1 <= p <= |s| ==> s[p..] == s[1..][p - 1..] && (OccursAt(s, pat, p) <==> OccursAt(s[1..], pat, p - 1));
      if k < 0 then -1 else k + 1
  }

  /** `sub in s` */
  predicate Contains(s: string, sub: string) {
    Find(s, sub) >= 0
  }

  /** Index of the first occurrence of `c`, or `|s|`. */
  function IndexOf(s: string, c: char): (r: nat)
    ensures r <= |s|
    ensures forall i :: 0 <= i < r ==> s[i] != c
    ensures r < |s| ==> s[r] == c
  {
    if |s| == 0 || s[0] == c then 0 else 1 + IndexOf(s[1..], c)
  }

  /** Index of the first `c` at or after `q`, or `|s|`: `IndexOf` without
      slicing. */
  function IndexFrom(s: string, q: nat, c: char): (r: nat)
    requires q <= |s|
    ensures q <= r <= |s|
    decreases |s| - q
  {
    if q == |s| || s[q] == c then q else IndexFrom(s, q + 1, c)
  }

  /** Scanning from `q` finds what `IndexOf` finds in the suffix from `q`. */
  lemma {:induction false} IndexFromIs(s: string, q: nat, c: char)
    requires q <= |s|
    ensures IndexFrom(s, q, c) == q + IndexOf(s[q..], c)
    decreases |s| - q
  {
    if q < |s| && s[q] != c {
      IndexFromIs(s, q + 1, c);
      assert s[q..][1..] == s[q + 1..];
    }
  }

  /** Where `IndexFrom` stops short of the end there is a `c`. */
  lemma {:induction false} IndexFromFound(s: string, q: nat, c: char)
    requires q <= |s|
    ensures IndexFrom(s, q, c) < |s| ==> s[IndexFrom(s, q, c)] == c
    decreases |s| - q
  {
    if q < |s| && s[q] != c {
      IndexFromFound(s, q + 1, c);
    }
  }

  /** `sep.join(parts)` */
  function Join(parts: seq<string>, sep: string): string {
    if |parts| == 0 then ""
    else if |parts| == 1 then parts[0]
    else parts[0] + sep + Join(parts[1..], sep)
  }

  /** `s.split(c)` for a one-character separator: never empty, no piece holds the
      separator, and joining the pieces back gives `s`. */
  function Split(s: string, c: char): (r: seq<string>)
    ensures |r| >= 1
    ensures forall i :: 0 <= i < |r| ==> c !in r[i]
    ensures Join(r, [c]) == s
    decreases |s|
  {
    var i := IndexOf(s, c);
    if i == |s| then
      assert c !in s;
      [s]
    else
      var rest := Split(s[i + 1..], c);
      assert s == s[..i] + [c] + s[i + 1..];
      [s[..i]] + rest
  }

  /** Splitting undoes joining pieces that do not contain the separator. */
  lemma {:induction false} SplitJoin(parts: seq<string>, c: char)
    requires |parts| >= 1
    requires forall i :: 0 <= i < |parts| ==> c !in parts[i]
    ensures Split(Join(parts, [c]), c) == parts
    decreases |parts|
  {
    if |parts| == 1 {
      assert Join(parts, [c]) == parts[0];
      assert IndexOf(parts[0], c) == |parts[0]|;
    } else {
      var s := Join(parts, [c]);
      var tail := Join(parts[1..], [c]);
      assert s == parts[0] + [c] + tail;
      assert IndexOf(s, c) == |parts[0]| by {
        assert forall j :: 0 <= j < |parts[0]| ==> s[j] == parts[0][j];
        assert s[|parts[0]|] == c;
      }
      assert s[|parts[0]| + 1..] == tail;
      assert s[..|parts[0]|] == parts[0];
      SplitJoin(parts[1..], c);
    }
  }

  /** Decimal digits of a natural number. */
  function NatToString(n: nat): (r: string)
    ensures |r| >= 1
    ensures forall i :: 0 <= i < |r| ==> '0' <= r[i] <= '9'
  {
    var d := ['0' + (n % 10) as char];
    if n < 10 then d else NatToString(n / 10) + d
  }

  /** `str(n)` for an int. */
  function IntToString(n: int): string {
    if n < 0 then "-" + NatToString(-n) else NatToString(n)
  }

  /** Value of a string of decimal digits; the inverse of `NatToString`. */
  function ParseDigits(s: string): int
    decreases |s|
  {
    if |s| == 0 then 0 else 10 * ParseDigits(s[..|s| - 1]) + (s[|s| - 1] as int - '0' as int)
  }

  lemma {:induction false} ParseNatToString(n: nat)
    ensures ParseDigits(NatToString(n)) == n
  {
    var d := ['0' + (n % 10) as char];
    if n >= 10 {
      var r := NatToString(n / 10) + d;
      assert r[..|r| - 1] == NatToString(n / 10);
      ParseNatToString(n / 10);
    }
  }

  /** `s.replace(c, "")` */
  function RemoveChar(s: string, c: char): (r: string)
    ensures c !in r
    ensures |r| <= |s|
    ensures forall x :: x in r ==> x in s
  {
    if |s| == 0 then ""
    else (if s[0] == c then "" else [s[0]]) + RemoveChar(s[1..], c)
  }

  /** `s` written out `n` times in a row, as Python's `s * n`. */
  function Repeat<T>(s: seq<T>, n: nat): seq<T>
    decreases n
  {
    if n == 0 then [] else s + Repeat(s, n - 1)
  }
}
