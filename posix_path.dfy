/**
  POSIX `os.path.join`, `os.path.basename` and `os.path.dirname` on path
  strings, as the package layout is computed from them.
 */
module PosixPath {

  /** Index of the last `/` in `p`, or -1 when there is none. */
  function LastSep(p: string): (r: int)
    ensures -1 <= r < |p|
    ensures r >= 0 ==> p[r] == '/'
    ensures forall j | r < j < |p| :: p[j] != '/'
    decreases |p|
  {
    if p == "" then -1
    else if p[|p| - 1] == '/' then |p| - 1
    else LastSep(p[..|p| - 1])
  }

  predicate AllSeps(s: string) {
    forall i | 0 <= i < |s| :: s[i] == '/'
  }

  /** `s.rstrip('/')`. */
  function RStripSeps(s: string): (r: string)
    ensures |r| <= |s| && r == s[..|r|]
    ensures r == "" || r[|r| - 1] != '/'
    ensures AllSeps(s[|r|..])
    decreases |s|
  {
    if s != "" && s[|s| - 1] == '/' then
      var r := RStripSeps(s[..|s| - 1]);
      assert s[..|s| - 1][..|r|] == s[..|r|];
      assert s[|r|..] == s[..|s| - 1][|r|..] + "/";
      r
    else s
  }

  /** `os.path.basename(p)`: what follows the last `/`. */
  function Basename(p: string): (b: string)
    ensures '/' !in b
    ensures |b| <= |p| && b == p[|p| - |b|..]
  {
    p[LastSep(p) + 1..]
  }

  /**
    `os.path.dirname(p)`: what precedes the last `/`, with trailing slashes
    stripped unless it consists of slashes only.
   */
  function Dirname(p: string): string {
    var head := p[..LastSep(p) + 1];
    if head != "" && !AllSeps(head) then RStripSeps(head) else head
  }

  /** `os.path.join(a, b)`: an absolute `b` replaces `a`; one `/` is inserted when needed. */
  function Join(a: string, b: string): string {
    if |b| > 0 && b[0] == '/' then b
    else if a == "" || a[|a| - 1] == '/' then a + b
    else a + "/" + b
  }

  /** The shapes `Dirname` can return: empty, slashes only, or not ending in `/`. */
  predicate IsDirnameShaped(d: string) {
    d == "" || AllSeps(d) || d[|d| - 1] != '/'
  }

  /** A plain file name (non-empty, no `/`). */
  predicate IsPlainName(n: string) {
    n != "" && '/' !in n
  }

  lemma DirnameIsShaped(p: string)
    ensures IsDirnameShaped(Dirname(p))
  {
  }

  /** What `Join(d, n)` puts in front of a relative `n`: `d`, with a `/` added unless it is empty or has one. */
  function JoinHead(d: string): string {
    if d == "" || d[|d| - 1] == '/' then d else d + "/"
  }

  /** In `Join(d, n)` with a plain name `n`, the last `/` is the one ending the head. */
  lemma LastSepOfJoin(d: string, n: string)
    requires IsPlainName(n)
    ensures Join(d, n) == JoinHead(d) + n
    ensures LastSep(Join(d, n)) == |JoinHead(d)| - 1
  {
    var p, x := Join(d, n), JoinHead(d);
    assert p == x + n;
    forall j | |x| <= j < |p|
      ensures p[j] != '/'
    {
      assert p[j] == n[j - |x|];
    }
    if x != "" {
      assert p[|x| - 1] == '/';
    }
  }

  /** Stripping the trailing slashes of `d + "/"` gives `d` back when `d` does not end in one. */
  lemma RStripAddedSep(d: string)
    requires d != "" && d[|d| - 1] != '/'
    ensures RStripSeps(d + "/") == d
  {
    var x := d + "/";
    var r := RStripSeps(x);
    assert forall i | |r| <= i < |x| :: x[i] == '/' by {
      forall i | |r| <= i < |x| ensures x[i] == '/' { assert x[i] == x[|r|..][i - |r|]; }
    }
    assert x[|d| - 1] != '/' && x[|d|] == '/';
    assert |r| == |d|;
  }

  /** Joining a plain name onto a directory gives a path whose basename is that name. */
  lemma BasenameOfJoin(d: string, n: string)
    requires IsPlainName(n)
    ensures Basename(Join(d, n)) == n
  {
    LastSepOfJoin(d, n);
  }

  /** ... and whose dirname is that directory again, whenever the directory is a dirname. */
  lemma DirnameOfJoin(d: string, n: string)
    requires IsPlainName(n)
    requires IsDirnameShaped(d)
    ensures Dirname(Join(d, n)) == d
  {
    LastSepOfJoin(d, n);
    var p, x := Join(d, n), JoinHead(d);
    assert p[..LastSep(p) + 1] == x;
    if d != "" && !AllSeps(d) {
      assert x == d + "/";
      assert !AllSeps(x) by { assert x[|d| - 1] == d[|d| - 1]; }
      RStripAddedSep(d);
    }
  }
}
