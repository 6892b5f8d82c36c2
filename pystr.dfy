/**
  The few Python string operations the SIP creator relies on, with Python's
  semantics written out: slicing with negative or out-of-range bounds,
  `pat in s`, `str.replace`, `str.isdigit` and `int()` of a digit string.
 */
module PyStr {
  import opened Wrappers

  /** How Python normalises one bound of `s[start:stop]` for a string of length `n`. */
  function SliceBound(i: int, n: nat): (b: nat)
    ensures b <= n
    ensures 0 <= i <= n ==> b == i
    ensures i < 0 && -i <= n ==> b == n + i
  {
    if i < 0 then (if n + i < 0 then 0 else n + i)
    else if i > n then n
    else i
  }

  /** Python's `s[start:stop]`: never fails, empty when the bounds cross. */
  function Slice(s: string, start: int, stop: int): (r: string)
    ensures |r| <= |s|
  {
    var a, b := SliceBound(start, |s|), SliceBound(stop, |s|);
    if a < b then s[a..b] else ""
  }

  /** Python's `s[:n]` for a non-negative `n`. */
  function Take(s: string, n: nat): (r: string)
    ensures n <= |s| ==> r == s[..n]
    ensures n > |s| ==> r == s
  {
    Slice(s, 0, n)
  }

  /** Python's `s[n:]` for a non-negative `n`. */
  function Drop(s: string, n: nat): (r: string)
    ensures n <= |s| ==> r == s[n..]
    ensures n > |s| ==> r == ""
  {
    Slice(s, n, |s|)
  }

  /** `pat` occurs in `s` starting at index `i`. */
  predicate OccursAt(s: string, pat: string, i: int) {
    0 <= i && i + |pat| <= |s| && s[i..i + |pat|] == pat
  }

  /** Python's `pat in s`. */
  predicate Contains(s: string, pat: string) {
    exists i | 0 <= i <= |s| - |pat| :: OccursAt(s, pat, i)
  }

  /**
    Python's `s.replace(pat, rep)` for a non-empty `pat`: scans from the left
    and replaces non-overlapping occurrences, resuming after each one.
   */
  function ReplaceAll(s: string, pat: string, rep: string): string
    requires pat != ""
    decreases |s|
  {
    if |s| < |pat| then s
    else if s[..|pat|] == pat then rep + ReplaceAll(s[|pat|..], pat, rep)
    else [s[0]] + ReplaceAll(s[1..], pat, rep)
  }

  /** An occurrence in `s[1..]` is an occurrence in `s`, one position later. */
  lemma OccursInTail(s: string, pat: string, i: nat)
    requires |s| > 0
    ensures OccursAt(s[1..], pat, i) <==> OccursAt(s, pat, i + 1)
  {
    if i + |pat| <= |s| - 1 {
      assert s[1..][i..i + |pat|] == s[i + 1..i + 1 + |pat|];
    }
  }

  /** A string in which `pat` does not occur is left as it is. */
  lemma {:induction false} ReplaceAbsent(s: string, pat: string, rep: string)
    requires pat != ""
    requires !Contains(s, pat)
    ensures ReplaceAll(s, pat, rep) == s
    decreases |s|
  {
    if |s| >= |pat| {
      assert !OccursAt(s, pat, 0);
      forall i | 0 <= i <= |s[1..]| - |pat|
        ensures !OccursAt(s[1..], pat, i)
      {
        OccursInTail(s, pat, i);
      }
      ReplaceAbsent(s[1..], pat, rep);
      assert [s[0]] + s[1..] == s;
    }
  }

  /** Where `pat` does not start, the first character is copied and the scan moves on. */
  lemma ReplaceSkipsOne(s: string, pat: string, rep: string)
    requires pat != "" && |s| > 0
    requires !OccursAt(s, pat, 0)
    ensures ReplaceAll(s, pat, rep) == [s[0]] + ReplaceAll(s[1..], pat, rep)
  {
  }

  /** The first occurrence of `pat` in `s`, at `k > 0`, is the first one in `s[1..]`, at `k - 1`. */
  lemma FirstOccurrenceInTail(s: string, pat: string, k: nat)
    requires k > 0
    requires OccursAt(s, pat, k)
    requires forall j | 0 <= j < k :: !OccursAt(s, pat, j)
    ensures |s| > 0 && !OccursAt(s, pat, 0)
    ensures OccursAt(s[1..], pat, k - 1)
    ensures forall j | 0 <= j < k - 1 :: !OccursAt(s[1..], pat, j)
  {
    assert !OccursAt(s, pat, 0);
    OccursInTail(s, pat, k - 1);
    forall j | 0 <= j < k - 1
      ensures !OccursAt(s[1..], pat, j)
    {
      OccursInTail(s, pat, j);
    }
  }

  /** Putting back the first character of `s` in front of a split of `s[1..]`. */
  lemma ConsSplit(s: string, k: nat, mid: string, whole: string, tailWhole: string, tail: string)
    requires 0 < k <= |s|
    requires whole == [s[0]] + tailWhole
    requires tailWhole == s[1..][..k - 1] + mid + tail
    ensures whole == s[..k] + mid + tail
  {
    assert [s[0]] + s[1..][..k - 1] == s[..k];
  }

  /**
    Everything before the first occurrence of `pat` is copied unchanged, that
    occurrence becomes `rep`, and the scan resumes right after it.
   */
  lemma {:induction false} ReplaceAtFirst(s: string, pat: string, rep: string, k: nat)
    requires pat != ""
    requires OccursAt(s, pat, k)
    requires forall j | 0 <= j < k :: !OccursAt(s, pat, j)
    ensures ReplaceAll(s, pat, rep) == s[..k] + rep + ReplaceAll(s[k + |pat|..], pat, rep)
    decreases k
  {
    if k == 0 {
      assert s[..|pat|] == pat;
    } else {
      FirstOccurrenceInTail(s, pat, k);
      ReplaceSkipsOne(s, pat, rep);
      ReplaceAtFirst(s[1..], pat, rep, k - 1);
      assert s[1..][k - 1 + |pat|..] == s[k + |pat|..];
      ConsSplit(s, k, rep, ReplaceAll(s, pat, rep), ReplaceAll(s[1..], pat, rep), ReplaceAll(s[k + |pat|..], pat, rep));
    }
  }

  predicate IsAsciiDigit(c: char) {
    '0' <= c <= '9'
  }

  /** Python's `s.isdigit()` over ASCII digits: false for the empty string. */
  predicate IsDigitString(s: string) {
    |s| > 0 && forall i | 0 <= i < |s| :: IsAsciiDigit(s[i])
  }

  /** The decimal value of a string of ASCII digits. */
  function DigitsValue(s: string): nat
    requires forall i | 0 <= i < |s| :: IsAsciiDigit(s[i])
    decreases |s|
  {
    if s == "" then 0
    else
      assert IsAsciiDigit(s[|s| - 1]);
      10 * DigitsValue(s[..|s| - 1]) + (s[|s| - 1] as int - '0' as int)
  }

  /** Python's `int(s)` on a string; `None` stands for the `ValueError` it raises. */
  function ParseInt(s: string): (r: Option<nat>)
    ensures r.Some? <==> IsDigitString(s)
  {
    if IsDigitString(s) then Some(DigitsValue(s)) else None
  }
}
