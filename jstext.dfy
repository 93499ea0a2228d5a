/**
 * The pieces of JavaScript's string library that the blog front end relies on:
 * the whitespace class shared by `String.prototype.trim` and the regular
 * expression class `\s`, `trim` itself, `split(/\s+/)`, and an ASCII-only
 * `toLowerCase`. Positions are indices into one string, so that facts about
 * a piece of a string are stated without building new strings.
 */
module JsText {

  /** The WhiteSpace and LineTerminator code points of ECMA-262; both `trim`
      and `\s` use exactly this set. */
  predicate IsWs(c: char) {
    var n := c as int;
    if n <= 0x20 then n == 0x20 || 0x09 <= n <= 0x0D
    else n == 0xA0 || n == 0x1680 || (0x2000 <= n <= 0x200A)
         || n == 0x2028 || n == 0x2029 || n == 0x202F || n == 0x205F
         || n == 0x3000 || n == 0xFEFF
  }

  predicate AllWs(s: string) {
    forall k :: 0 <= k < |s| ==> IsWs(s[k])
  }

  predicate NoWs(s: string) {
    forall k :: 0 <= k < |s| ==> !IsWs(s[k])
  }

  /** A string with no whitespace at either end, as `trim` leaves it. */
  predicate IsTrimmed(s: string) {
    s == [] || (!IsWs(s[0]) && !IsWs(s[|s| - 1]))
  }

  /** End of the whitespace run of `s` that starts at `i`. */
  function SkipWs(s: string, i: nat): (j: nat)
    requires i <= |s|
    ensures i <= j <= |s|
    ensures forall k :: i <= k < j ==> IsWs(s[k])
    ensures j < |s| ==> !IsWs(s[j])
    decreases |s| - i
  {
    if i < |s| && IsWs(s[i]) then SkipWs(s, i + 1) else i
  }

  /** The run found from `j` depends only on `s[i..]`. */
  lemma {:induction false} SkipWsShift(s: string, i: nat, j: nat)
    requires i <= j <= |s|
    ensures SkipWs(s, j) == i + SkipWs(s[i..], j - i)
    decreases |s| - j
  {
    if j < |s| {
      assert s[i..][j - i] == s[j];
      if IsWs(s[j]) { SkipWsShift(s, i, j + 1); }
    }
  }

  /** Start of the whitespace run of `s` that ends at `j`. */
  function BackWs(s: string, j: nat): (i: nat)
    requires j <= |s|
    ensures i <= j
    ensures forall k :: i <= k < j ==> IsWs(s[k])
    ensures 0 < i ==> !IsWs(s[i - 1])
  {
    if 0 < j && IsWs(s[j - 1]) then BackWs(s, j - 1) else j
  }

  /** First whitespace position of `s` at or after `i`, or `|s|`. */
  function NextWs(s: string, i: nat): (j: nat)
    requires i <= |s|
    ensures i <= j <= |s|
    ensures forall k :: i <= k < j ==> !IsWs(s[k])
    ensures j < |s| ==> IsWs(s[j])
    decreases |s| - i
  {
    if i < |s| && !IsWs(s[i]) then NextWs(s, i + 1) else i
  }

  /** `s.trim()`: the part of `s` between its leading and its trailing whitespace. */
  function Trim(s: string): (r: string)
    ensures IsTrimmed(r) && |r| <= |s|
  {
    var a := SkipWs(s, 0);
    if a == |s| then "" else s[a..BackWs(s, |s|)]
  }

  /** Trimming yields the empty string exactly for blank strings. */
  lemma TrimEmptyIff(s: string)
    ensures Trim(s) == [] <==> AllWs(s)
  {
    var a := SkipWs(s, 0);
    if a < |s| {
      assert Trim(s)[0] == s[a];
    }
  }

  /** Trimming removes exactly the whitespace padding around `s`. */
  lemma TrimPadded(a: string, x: string, b: string)
    requires AllWs(a) && AllWs(b) && IsTrimmed(x)
    ensures Trim(a + x + b) == x
  {
    var s := a + x + b;
    var i := SkipWs(s, 0);
    if x == [] {
      assert AllWs(s);
      assert i == |s|;
    } else {
      assert !IsWs(s[|a|]);
      assert i == |a|;
      var j := BackWs(s, |s|);
      assert !IsWs(s[|a| + |x| - 1]);
      assert j == |a| + |x|;
      assert s[i..j] == x;
    }
  }

  /** `Trim` leaves an already trimmed string alone. */
  lemma TrimTrimmed(x: string)
    requires IsTrimmed(x)
    ensures Trim(x) == x
  {
    assert [] + x + [] == x;
    TrimPadded([], x, []);
  }

  // ---------------------------------------------------------------
  // split(/\s+/)
  // ---------------------------------------------------------------

  /** The pieces of `s[i..]` between maximal whitespace runs. */
  function SplitFrom(s: string, i: nat): (r: seq<string>)
    requires i <= |s|
    ensures |r| >= 1
    ensures forall p :: 0 <= p < |r| ==> NoWs(r[p])
    decreases |s| - i
  {
    var j := NextWs(s, i);
    if j == |s| then [s[i..]]
    else [s[i..j]] + SplitFrom(s, SkipWs(s, j))
  }

  /** `s.split(/\s+/)`: like JavaScript it always yields at least one,
      possibly empty, piece, and no piece holds whitespace. */
  function Split(s: string): (r: seq<string>)
    ensures |r| >= 1
    ensures forall p :: 0 <= p < |r| ==> NoWs(r[p])
  {
    SplitFrom(s, 0)
  }

  // ---------------------------------------------------------------
  // Counting maximal non-whitespace runs: the reference for word counts
  // ---------------------------------------------------------------

  /** A run of non-whitespace characters begins at position `k`. */
  predicate StartsRun(s: string, k: nat)
    requires k < |s|
  {
    !IsWs(s[k]) && (k == 0 || IsWs(s[k - 1]))
  }

  /** The number of runs that begin in `s[i..j]`. */
  function RunsIn(s: string, i: nat, j: nat): nat
    requires i <= j <= |s|
    decreases j
  {
    if i == j then 0 else RunsIn(s, i, j - 1) + (if StartsRun(s, j - 1) then 1 else 0)
  }

  /** The number of maximal non-whitespace runs of `s`. */
  function Runs(s: string): nat {
    RunsIn(s, 0, |s|)
  }

  lemma {:induction false} RunsAdd(s: string, i: nat, m: nat, j: nat)
    requires i <= m <= j <= |s|
    ensures RunsIn(s, i, j) == RunsIn(s, i, m) + RunsIn(s, m, j)
    decreases j
  {
    if m < j { RunsAdd(s, i, m, j - 1); }
  }

  lemma {:induction false} RunsInWs(s: string, i: nat, j: nat)
    requires i <= j <= |s|
    requires forall k :: i <= k < j ==> IsWs(s[k])
    ensures RunsIn(s, i, j) == 0
    decreases j
  {
    if i < j { RunsInWs(s, i, j - 1); }
  }

  /** A whitespace-free stretch that follows whitespace holds one run. */
  lemma {:induction false} RunsInWord(s: string, i: nat, j: nat)
    requires i < j <= |s|
    requires forall k :: i <= k < j ==> !IsWs(s[k])
    requires i == 0 || IsWs(s[i - 1])
    ensures RunsIn(s, i, j) == 1
    decreases j
  {
    if i < j - 1 { RunsInWord(s, i, j - 1); }
  }

  /** The runs of a slice that starts after whitespace are those of the whole. */
  lemma {:induction false} RunsOfSlice(s: string, a: nat, b: nat, n: nat)
    requires a <= b <= |s| && n <= b - a
    requires a == 0 || IsWs(s[a - 1])
    ensures RunsIn(s[a..b], 0, n) == RunsIn(s, a, a + n)
    decreases n
  {
    if n > 0 {
      RunsOfSlice(s, a, b, n - 1);
      var t := s[a..b];
      assert t[n - 1] == s[a + n - 1];
      assert n > 1 ==> t[n - 2] == s[a + n - 2];
      assert StartsRun(t, n - 1) == StartsRun(s, a + n - 1);
    }
  }

  /** On a trimmed string, `split` from the start of a run yields one piece per run. */
  lemma {:induction false} SplitCountsRuns(t: string, i: nat)
    requires i < |t| && IsTrimmed(t)
    requires !IsWs(t[i]) && (i == 0 || IsWs(t[i - 1]))
    ensures |SplitFrom(t, i)| == RunsIn(t, i, |t|)
    decreases |t| - i
  {
    var j := NextWs(t, i);
    if j == |t| {
      RunsInWord(t, i, j);
    } else {
      var m := SkipWs(t, j);
      assert m < |t|;
      RunsAdd(t, i, j, |t|);
      RunsAdd(t, j, m, |t|);
      RunsInWord(t, i, j);
      RunsInWs(t, j, m);
      SplitCountsRuns(t, m);
    }
  }

  /** Trimming never changes the number of runs. */
  lemma TrimKeepsRuns(s: string)
    ensures Runs(Trim(s)) == Runs(s)
  {
    var a := SkipWs(s, 0);
    if a == |s| {
      RunsInWs(s, 0, |s|);
    } else {
      var b := BackWs(s, |s|);
      RunsAdd(s, 0, a, |s|);
      RunsAdd(s, a, b, |s|);
      RunsInWs(s, 0, a);
      RunsInWs(s, b, |s|);
      RunsOfSlice(s, a, b, b - a);
    }
  }

  /** Whitespace padding adds no run. */
  lemma RunsPadded(a: string, x: string, b: string)
    requires AllWs(a) && AllWs(b)
    ensures Runs(a + x + b) == Runs(x)
  {
    var s := a + x + b;
    var m, n := |a|, |a| + |x|;
    RunsAdd(s, 0, m, |s|);
    RunsAdd(s, m, n, |s|);
    RunsInWs(s, 0, m);
    RunsInWs(s, n, |s|);
    assert s[m..n] == x;
    RunsOfSlice(s, m, n, |x|);
  }

  /** A separator and one more word add exactly one run. */
  lemma RunsAppendWord(x: string, sep: string, word: string)
    requires sep != [] && AllWs(sep) && word != [] && NoWs(word)
    ensures Runs(x + sep + word) == Runs(x) + 1
  {
    var s := x + sep + word;
    var m, n := |x|, |x| + |sep|;
    RunsAdd(s, 0, m, |s|);
    RunsAdd(s, m, n, |s|);
    assert s[0..m] == x;
    RunsOfSlice(s, 0, m, m);
    RunsInWs(s, m, n);
    RunsInWord(s, n, |s|);
  }

  // ---------------------------------------------------------------
  // toLowerCase, restricted to ASCII
  // ---------------------------------------------------------------

  function LowerChar(c: char): (d: char)
    ensures 'A' <= c <= 'Z' ==> 'a' <= d <= 'z' && d as int == c as int + 32
    ensures !('A' <= c <= 'Z') ==> d == c
  {
    if 'A' <= c <= 'Z' then (c as int + 32) as char else c
  }

  /** `s.toLowerCase()` on ASCII letters; other characters are kept. */
  function Lower(s: string): (r: string)
    ensures |r| == |s|
    ensures forall k :: 0 <= k < |s| ==> r[k] == LowerChar(s[k])
  {
    seq(|s|, k requires 0 <= k < |s| => LowerChar(s[k]))
  }
}
