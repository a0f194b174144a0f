/** The Python built-in sequence operations the decoder and the grouper use:
    slices that clamp their bounds, `bytes.index` from a position (first occurrence),
    `str.endswith`, `str.startswith` and `str.replace` (every occurrence). */
module PySeq {
  import opened Wrappers

  type byte = b: int | 0 <= b < 256

  /** How Python normalises one slice bound `i` against a length `n`:
      a negative bound counts from the end, and both are clamped to [0, n]. */
  function ClampIndex(i: int, n: nat): (r: nat)
    ensures r <= n
    ensures 0 <= i <= n ==> r == i
    ensures i > n ==> r == n
    ensures i < 0 && -i <= n ==> r == n + i
    ensures i < 0 && -i > n ==> r == 0
  {
    if i < 0 then (if n + i < 0 then 0 else n + i) else if i > n then n else i
  }

  function Min(a: int, b: int): int { if a < b then a else b }

  /** `s[lo:hi]`: never fails; an empty sequence when the clamped bounds cross. */
  function Slice<T>(s: seq<T>, lo: int, hi: int): (r: seq<T>)
    ensures |r| <= |s|
    ensures 0 <= lo <= hi <= |s| ==> r == s[lo..hi]
  {
    var a := ClampIndex(lo, |s|);
    var b := ClampIndex(hi, |s|);
    if a < b then s[a..b] else []
  }

  /** A slice is always a contiguous part of the sequence and, within range,
      is exactly Dafny's subsequence. */
  lemma SliceFacts<T>(s: seq<T>, lo: int, hi: int)
    ensures |Slice(s, lo, hi)| <= |s|
    ensures 0 <= lo <= hi <= |s| ==> Slice(s, lo, hi) == s[lo..hi]
    ensures 0 <= hi <= lo ==> Slice(s, lo, hi) == []
    ensures 0 <= lo <= |s| ==> Slice(s, lo, |s|) == s[lo..]
    ensures lo >= |s| ==> Slice(s, lo, hi) == []
  {
  }

  predicate OccursAt<T(==)>(s: seq<T>, pat: seq<T>, i: int)
  {
    0 <= i && i + |pat| <= |s| && s[i..i + |pat|] == pat
  }

  /** `i` is the first occurrence of `pat` in `s` at or after `from`. */
  ghost predicate FirstAtOrAfter<T>(s: seq<T>, pat: seq<T>, from: int, i: int)
  {
    from <= i && OccursAt(s, pat, i) && forall j :: from <= j < i ==> !OccursAt(s, pat, j)
  }

  /** `pat` occurs nowhere in `s` at or after `from`. */
  ghost predicate NoneAtOrAfter<T>(s: seq<T>, pat: seq<T>, from: int)
  {
    forall j :: from <= j ==> !OccursAt(s, pat, j)
  }

  lemma OccursShift<T>(s: seq<T>, pat: seq<T>, d: nat)
    requires d <= |s|
    ensures forall j :: d <= j ==> (OccursAt(s, pat, j) <==> OccursAt(s[d..], pat, j - d))
    ensures forall j :: 0 <= j ==> (OccursAt(s[d..], pat, j) <==> OccursAt(s, pat, j + d))
  {
  }

  /** `s[from:].index(pat) + from`: the first position at or after `from`
      where `pat` occurs, `None` where Python raises `ValueError`. */
  function IndexFrom<T(==)>(s: seq<T>, pat: seq<T>, from: nat): (r: Option<nat>)
    requires |pat| > 0
    ensures r.Some? ==> FirstAtOrAfter(s, pat, from, r.value)
    ensures r.None? ==> NoneAtOrAfter(s, pat, from)
    decreases |s| - from
  {
    if from + |pat| > |s| then None
    else if s[from..from + |pat|] == pat then Some(from)
    else IndexFrom(s, pat, from + 1)
  }

  predicate StartsWith<T(==)>(s: seq<T>, prefix: seq<T>)
  {
    |prefix| <= |s| && s[..|prefix|] == prefix
  }

  predicate EndsWith<T(==)>(s: seq<T>, suffix: seq<T>)
  {
    |suffix| <= |s| && s[|s| - |suffix|..] == suffix
  }

  /** `s.replace(target, replacement)`: every non-overlapping occurrence of `target`,
      scanning from the left, is replaced by `replacement`. */
  function Replace<T(==)>(s: seq<T>, target: seq<T>, replacement: seq<T>): (r: seq<T>)
    requires |target| > 0
    ensures |s| < |target| ==> r == s
    ensures StartsWith(s, target) ==> StartsWith(r, replacement)
    decreases |s|
  {
    if |s| < |target| then s
    else if s[..|target|] == target then replacement + Replace(s[|target|..], target, replacement)
    else [s[0]] + Replace(s[1..], target, replacement)
  }

  /** Removing occurrences never lengthens the sequence, and it changes
      nothing when there is nothing to remove. */
  lemma {:induction false} ReplaceShrinks<T>(s: seq<T>, target: seq<T>)
    requires |target| > 0
    ensures |Replace(s, target, [])| <= |s|
    ensures NoneAtOrAfter(s, target, 0) ==> Replace(s, target, []) == s
    decreases |s|
  {
    if |s| < |target| {
    } else if s[..|target|] == target {
      assert OccursAt(s, target, 0);
      ReplaceShrinks(s[|target|..], target);
      OccursShift(s, target, |target|);
    } else {
      ReplaceShrinks(s[1..], target);
      OccursShift(s, target, 1);
    }
  }

  /** Removing every occurrence strips a suffix when the suffix is the only
      occurrence: no occurrence starts inside `base`. */
  lemma {:induction false} ReplaceStripsSoleSuffix<T>(base: seq<T>, suffix: seq<T>)
    requires |suffix| > 0
    requires forall j :: 0 <= j < |base| ==> !OccursAt(base + suffix, suffix, j)
    ensures Replace(base + suffix, suffix, []) == base
    decreases |base|
  {
    var s := base + suffix;
    if base == [] {
      assert s[..|suffix|] == suffix;
      assert s[|suffix|..] == [];
    } else {
      assert !OccursAt(s, suffix, 0);
      assert s[..|suffix|] != suffix;
      OccursShift(s, suffix, 1);
      assert s[1..] == base[1..] + suffix;
      ReplaceStripsSoleSuffix(base[1..], suffix);
    }
  }

  /** The last element of `t` occurs nowhere else in it, so `t` cannot
      overlap itself. */
  predicate LastUnique<T(==)>(t: seq<T>)
  {
    |t| > 0 && forall m :: 0 <= m < |t| - 1 ==> t[m] != t[|t| - 1]
  }

  /** Two occurrences of a pattern that cannot overlap itself lie apart. */
  lemma OccurrencesApart<T>(s: seq<T>, t: seq<T>, a: int, b: int)
    requires LastUnique(t) && OccursAt(s, t, a) && OccursAt(s, t, b) && a < b
    ensures b >= a + |t|
  {
    if b < a + |t| {
      OverlapAgrees(s, t, a, b);
      assert false;
    }
  }

  /** Where two occurrences overlap, the last element of the first one is
      matched by an earlier element of the second. */
  lemma OverlapAgrees<T>(s: seq<T>, t: seq<T>, a: int, b: int)
    requires OccursAt(s, t, a) && OccursAt(s, t, b) && a < b < a + |t|
    ensures t[a + |t| - 1 - b] == t[|t| - 1]
  {
    assert s[a..a + |t|][|t| - 1] == s[a + |t| - 1];
    assert s[b..b + |t|][a + |t| - 1 - b] == s[a + |t| - 1];
  }

  /** One occurrence anywhere is removed: the result is shorter by at least
      the pattern's length. */
  lemma {:induction false} ReplaceRemovesOne<T>(s: seq<T>, t: seq<T>, i: int)
    requires |t| > 0 && OccursAt(s, t, i)
    ensures |Replace(s, t, [])| <= |s| - |t|
    decreases |s|
  {
    if s[..|t|] == t {
      ReplaceShrinks(s[|t|..], t);
    } else {
      assert i >= 1;
      OccursShift(s, t, 1);
      ReplaceRemovesOne(s[1..], t, i - 1);
    }
  }

  /** Two occurrences of a pattern that cannot overlap itself are both
      removed. */
  lemma {:induction false} ReplaceRemovesTwo<T>(s: seq<T>, t: seq<T>, i: int, k: int)
    requires LastUnique(t)
    requires OccursAt(s, t, i) && OccursAt(s, t, k) && i < k
    ensures |Replace(s, t, [])| <= |s| - 2 * |t|
    decreases |s|
  {
    OccurrencesApart(s, t, i, k);
    if s[..|t|] == t {
      OccursShift(s, t, |t|);
      if i == 0 {
        ReplaceRemovesOne(s[|t|..], t, k - |t|);
      } else {
        assert OccursAt(s, t, 0);
        OccurrencesApart(s, t, 0, i);
        ReplaceRemovesTwo(s[|t|..], t, i - |t|, k - |t|);
      }
    } else {
      assert i >= 1;
      OccursShift(s, t, 1);
      ReplaceRemovesTwo(s[1..], t, i - 1, k - 1);
    }
  }
}
