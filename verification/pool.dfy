/**
 * The resistor pool of OpAmp.py lines 38-49: every base value, and for every
 * pair of base indices i <= j the series value and the truncated parallel value
 * of the two resistors, laid out block by block in index order.
 */
module ResistorPool {

  /** Every base value is a strictly positive resistance (in ohms). */
  predicate AllPositive(base: seq<int>)
  {
    forall k :: 0 <= k < |base| ==> base[k] > 0
  }

  /** The parallel combination 1/(1/a + 1/b) = a·b/(a+b), truncated to an integer. */
  function Parallel(a: int, b: int): int
    requires a > 0 && b > 0
  {
    (a * b) / (a + b)
  }

  /** The parallel value is the largest integer not above the exact a·b/(a+b). */
  lemma ParallelFloor(a: int, b: int)
    requires a > 0 && b > 0
    ensures Parallel(a, b) * (a + b) <= a * b < (Parallel(a, b) + 1) * (a + b)
  {
  }

  /** The truncated parallel value does not depend on the order of the two resistors. */
  lemma ParallelSymmetric(a: int, b: int)
    requires a > 0 && b > 0
    ensures Parallel(a, b) == Parallel(b, a)
  {
    assert a * b == b * a;
  }

  /** The truncated parallel value is exactly the integer part of 1/(1/a + 1/b). */
  lemma ParallelIsTruncatedReciprocalSum(a: int, b: int)
    requires a > 0 && b > 0
    ensures (Parallel(a, b) as real) <= 1.0 / (1.0 / a as real + 1.0 / b as real)
    ensures 1.0 / (1.0 / a as real + 1.0 / b as real) < (Parallel(a, b) + 1) as real
  {
    var p := Parallel(a, b);
    ParallelFloor(a, b);
    var x, y := a as real, b as real;
    assert 1.0 / x + 1.0 / y == (x + y) / (x * y);
    assert 1.0 / ((x + y) / (x * y)) == (x * y) / (x + y);
    assert (p as real) * (x + y) <= x * y;
    assert x * y < (p as real + 1.0) * (x + y);
  }

  /** Two resistors of at least 2 ohms in parallel still give at least 1 ohm. */
  lemma ParallelAtLeastOne(a: int, b: int)
    requires a >= 2 && b >= 2
    ensures Parallel(a, b) >= 1
  {
    var p := Parallel(a, b);
    ParallelFloor(a, b);
    assert (a - 1) * (b - 1) >= 1 by {
      assert (a - 1) * (b - 1) >= (a - 1) * 1;
    }
    assert a + b <= a * b < (p + 1) * (a + b);
    assert p * (a + b) > 0;
  }

  /** A 1-ohm base value paired with itself gives the parallel value 0. */
  lemma ParallelOfOnesIsZero()
    ensures Parallel(1, 1) == 0
  {
  }

  /** The series/parallel pairs of base[i] with base[j] for i <= j < hi, in j order. */
  function Pairs(base: seq<int>, i: nat, hi: nat): (s: seq<int>)
    requires AllPositive(base)
    requires i < |base| && i <= hi <= |base|
    ensures |s| == 2 * (hi - i)
    decreases hi - i
  {
    if hi == i then []
    else Pairs(base, i, hi - 1) + [base[hi - 1] + base[i], Parallel(base[hi - 1], base[i])]
  }

  /** The block appended for base index i: the base value, then all its pairs. */
  function Block(base: seq<int>, i: nat): (s: seq<int>)
    requires AllPositive(base)
    requires i < |base|
  {
    [base[i]] + Pairs(base, i, |base|)
  }

  /** The pool after the first k blocks. */
  function PoolUpTo(base: seq<int>, k: nat): (s: seq<int>)
    requires AllPositive(base)
    requires k <= |base|
  {
    if k == 0 then [] else PoolUpTo(base, k - 1) + Block(base, k - 1)
  }

  /** The whole pool. */
  function Pool(base: seq<int>): seq<int>
    requires AllPositive(base)
  {
    PoolUpTo(base, |base|)
  }

  /**
   * Where block i starts in the pool of a base list of length n: block k has one
   * base value and 2·(n-k) pair values.
   */
  function BlockStart(n: nat, i: nat): nat
    requires i <= n
  {
    if i == 0 then 0 else BlockStart(n, i - 1) + 1 + 2 * (n - (i - 1))
  }

  /** Block i starts at offset i·(2n-i+2). */
  lemma {:induction false} BlockStartClosedForm(n: nat, i: nat)
    requires i <= n
    ensures BlockStart(n, i) == i * (2 * n - i + 2)
  {
    if i > 0 {
      BlockStartClosedForm(n, i - 1);
      assert (i - 1) * (2 * n - i + 3) + 1 + 2 * (n - (i - 1)) == i * (2 * n - i + 2);
    }
  }

  /** The pool as built by the script: append the base value, then each (series, parallel) pair. */
  method BuildPool(base: seq<int>) returns (resList: seq<int>)
    requires AllPositive(base)
    ensures resList == Pool(base)
  {
    resList := [];
    for i := 0 to |base|
      invariant resList == PoolUpTo(base, i)
    {
      var res1 := base[i];
      resList := resList + [res1];
      for j := i to |base|
        invariant resList == PoolUpTo(base, i) + [base[i]] + Pairs(base, i, j)
      {
        var res2 := base[j];
        var series := res2 + res1;
        var parallel := Parallel(res2, res1);
        resList := resList + [series, parallel];
      }
      NextPool(base, i);
    }
  }

  /** Appending base[i] and then its pairs to the first i blocks gives the first i+1 blocks. */
  lemma NextPool(base: seq<int>, i: nat)
    requires AllPositive(base)
    requires i < |base|
    ensures PoolUpTo(base, i) + [base[i]] + Pairs(base, i, |base|) == PoolUpTo(base, i + 1)
  {
    assert PoolUpTo(base, i + 1) == PoolUpTo(base, i) + ([base[i]] + Pairs(base, i, |base|));
  }

  /** The first k blocks take up BlockStart(n, k) entries. */
  lemma {:induction false} PoolUpToLength(base: seq<int>, k: nat)
    requires AllPositive(base)
    requires k <= |base|
    ensures |PoolUpTo(base, k)| == BlockStart(|base|, k)
  {
    if k > 0 {
      PoolUpToLength(base, k - 1);
    }
  }

  /** A base list of n values gives a pool of n·(n+2) values. */
  lemma PoolLength(base: seq<int>)
    requires AllPositive(base)
    ensures |Pool(base)| == |base| * (|base| + 2)
  {
    PoolUpToLength(base, |base|);
    BlockStartClosedForm(|base|, |base|);
  }

  /** Shorter pools are prefixes of longer ones. */
  lemma {:induction false} PoolUpToPrefix(base: seq<int>, k: nat, l: nat)
    requires AllPositive(base)
    requires k <= l <= |base|
    ensures PoolUpTo(base, k) <= PoolUpTo(base, l)
    decreases l - k
  {
    if k < l {
      PoolUpToPrefix(base, k, l - 1);
      PrefixExtended(PoolUpTo(base, k), PoolUpTo(base, l - 1), Block(base, l - 1), PoolUpTo(base, l));
    }
  }

  /** A prefix of b is a prefix of b extended by any tail. */
  lemma PrefixExtended(a: seq<int>, b: seq<int>, tail: seq<int>, c: seq<int>)
    requires a <= b && c == b + tail
    ensures a <= c
  {
    assert c[..|a|] == b[..|a|];
  }

  /** Entry 2·(j-i) of the pairs of i is the series value with j, the next the parallel value. */
  lemma {:induction false} PairsAt(base: seq<int>, i: nat, j: nat, hi: nat)
    requires AllPositive(base)
    requires i <= j < hi <= |base|
    ensures Pairs(base, i, hi)[2 * (j - i)] == base[i] + base[j]
    ensures Pairs(base, i, hi)[2 * (j - i) + 1] == Parallel(base[i], base[j])
    decreases hi
  {
    ParallelSymmetric(base[i], base[j]);
    if j < hi - 1 {
      PairsAt(base, i, j, hi - 1);
    }
  }

  /** Block i holds base[i] first, then the series and the parallel value with each base[j], j >= i. */
  lemma BlockEntries(base: seq<int>, i: nat, j: nat)
    requires AllPositive(base)
    requires i <= j < |base|
    ensures 2 + 2 * (j - i) < |Block(base, i)|
    ensures Block(base, i)[0] == base[i]
    ensures Block(base, i)[1 + 2 * (j - i)] == base[i] + base[j]
    ensures Block(base, i)[2 + 2 * (j - i)] == Parallel(base[i], base[j])
  {
    PairsAt(base, i, j, |base|);
  }

  /** Entry k of the appended part of before + block sits at |before| + k. */
  lemma AppendedAt(s: seq<int>, before: seq<int>, block: seq<int>, k: nat)
    requires s == before + block && k < |block|
    ensures |before| + k < |s| && s[|before| + k] == block[k]
  {
  }

  /** Entry m of before sits unchanged at m in before + block. */
  lemma KeptAt(s: seq<int>, before: seq<int>, block: seq<int>, m: nat)
    requires s == before + block && m < |before|
    ensures s[m] == before[m]
  {
  }


  /** Where the series value of base[i] with base[j] (i <= j) sits in the pool: after base[i] and 2·(j-i) pair values. */
  function SeriesIndex(n: nat, i: nat, j: nat): nat
    requires i <= j < n
  {
    BlockStart(n, i) + 1 + 2 * (j - i)
  }

  /** The parallel value of base[i] with base[j] sits right after their series value. */
  function ParallelIndex(n: nat, i: nat, j: nat): nat
    requires i <= j < n
  {
    SeriesIndex(n, i, j) + 1
  }

  /** Entry k of block i is entry m = BlockStart(n, i) + k of the first i+1 blocks. */
  lemma EntryAtEnd(base: seq<int>, i: nat, l: nat, m: nat, k: nat)
    requires AllPositive(base)
    requires l == i + 1 <= |base| && k < |Block(base, i)| && m == BlockStart(|base|, i) + k
    ensures m < |PoolUpTo(base, l)| && PoolUpTo(base, l)[m] == Block(base, i)[k]
  {
    PoolUpToLength(base, i);
    AppendedAt(PoolUpTo(base, l), PoolUpTo(base, i), Block(base, i), k);
  }


  /** Entry k of block i stays at m = BlockStart(n, i) + k as the later blocks are appended. */
  lemma {:induction false} BlockEntryUpTo(base: seq<int>, i: nat, l: nat, m: nat, k: nat)
    requires AllPositive(base)
    requires i < l <= |base| && k < |Block(base, i)| && m == BlockStart(|base|, i) + k
    ensures m < |PoolUpTo(base, l)| && PoolUpTo(base, l)[m] == Block(base, i)[k]
    decreases l
  {
    if l == i + 1 {
      EntryAtEnd(base, i, l, m, k);
    } else {
      BlockEntryUpTo(base, i, l - 1, m, k);
      EntryKept(base, l, m);
    }
  }

  /** Appending block l-1 leaves the entries of the first l-1 blocks in place. */
  lemma EntryKept(base: seq<int>, l: nat, m: nat)
    requires AllPositive(base)
    requires 0 < l <= |base| && m < |PoolUpTo(base, l - 1)|
    ensures m < |PoolUpTo(base, l)| && PoolUpTo(base, l)[m] == PoolUpTo(base, l - 1)[m]
  {
    KeptAt(PoolUpTo(base, l), PoolUpTo(base, l - 1), Block(base, l - 1), m);
  }

  /** Entry k of block i is entry m = BlockStart(n, i) + k of the whole pool. */
  lemma BlockEntryInPool(base: seq<int>, i: nat, m: nat, k: nat)
    requires AllPositive(base)
    requires i < |base| && k < |Block(base, i)| && m == BlockStart(|base|, i) + k
    ensures m < |Pool(base)| && Pool(base)[m] == Block(base, i)[k]
  {
    BlockEntryUpTo(base, i, |base|, m, k);
  }

  /** Block i sits at the end of the first i+1 blocks, starting at BlockStart(n, i). */
  lemma BlockAtEnd(base: seq<int>, i: nat, j: nat)
    requires AllPositive(base)
    requires i <= j < |base|
    ensures BlockStart(|base|, i) < SeriesIndex(|base|, i, j) < ParallelIndex(|base|, i, j) < |PoolUpTo(base, i + 1)|
    ensures PoolUpTo(base, i + 1)[BlockStart(|base|, i)] == base[i]
    ensures PoolUpTo(base, i + 1)[SeriesIndex(|base|, i, j)] == base[i] + base[j]
    ensures PoolUpTo(base, i + 1)[ParallelIndex(|base|, i, j)] == Parallel(base[i], base[j])
  {
    BlockEntries(base, i, j);
    EntryAtEnd(base, i, i + 1, BlockStart(|base|, i), 0);
    EntryAtEnd(base, i, i + 1, SeriesIndex(|base|, i, j), 1 + 2 * (j - i));
    EntryAtEnd(base, i, i + 1, ParallelIndex(|base|, i, j), 2 + 2 * (j - i));
  }

  /**
   * The layout of the pool: block i starts at BlockStart(n, i) with base[i], followed
   * for j = i..n-1 by the series value base[i]+base[j] and the truncated parallel value.
   */
  lemma PoolShape(base: seq<int>, i: nat, j: nat)
    requires AllPositive(base)
    requires i <= j < |base|
    ensures BlockStart(|base|, i) < SeriesIndex(|base|, i, j) < ParallelIndex(|base|, i, j) < |Pool(base)|
    ensures Pool(base)[BlockStart(|base|, i)] == base[i]
    ensures Pool(base)[SeriesIndex(|base|, i, j)] == base[i] + base[j]
    ensures Pool(base)[ParallelIndex(|base|, i, j)] == Parallel(base[i], base[j])
  {
    BlockEntries(base, i, j);
    BlockEntryInPool(base, i, BlockStart(|base|, i), 0);
    BlockEntryInPool(base, i, SeriesIndex(|base|, i, j), 1 + 2 * (j - i));
    BlockEntryInPool(base, i, ParallelIndex(|base|, i, j), 2 + 2 * (j - i));
  }

  /**
   * Closure: for every pair of base indices (in either order, and an index with
   * itself) the pool holds both base values, their series value and their
   * truncated parallel value.
   */
  lemma PoolContains(base: seq<int>, i: nat, j: nat)
    requires AllPositive(base)
    requires i < |base| && j < |base|
    ensures base[i] in Pool(base) && base[j] in Pool(base)
    ensures base[i] + base[j] in Pool(base)
    ensures Parallel(base[i], base[j]) in Pool(base)
  {
    ParallelSymmetric(base[i], base[j]);
    if i <= j {
      PoolShape(base, i, j);
      PoolShape(base, j, j);
    } else {
      PoolShape(base, j, i);
      PoolShape(base, i, i);
    }
  }

  /** The pool holds exactly what the closure promises and nothing else. */
  ghost predicate FromBase(base: seq<int>, x: int)
    requires AllPositive(base)
  {
    exists i, j :: FromPair(base, i, j, x)
  }

  /** x is base[i], or the series or the parallel value of base[i] with base[j], for i <= j. */
  ghost predicate FromPair(base: seq<int>, i: int, j: int, x: int)
    requires AllPositive(base)
  {
    0 <= i <= j < |base| &&
      (x == base[i] || x == base[i] + base[j] || x == Parallel(base[i], base[j]))
  }

  /**
   * Every value appended by the inner loop for i is a series or parallel value of
   * base[i] with a base[j], i <= j < hi; j is returned.
   */
  lemma {:induction false} PairsFromBase(base: seq<int>, i: nat, hi: nat, x: int) returns (j: nat)
    requires AllPositive(base)
    requires i < |base| && i <= hi <= |base|
    requires x in Pairs(base, i, hi)
    ensures i <= j < hi && (x == base[i] + base[j] || x == Parallel(base[i], base[j]))
    decreases hi - i
  {
    assert hi > i;
    if x in Pairs(base, i, hi - 1) {
      j := PairsFromBase(base, i, hi - 1, x);
    } else {
      j := hi - 1;
      ParallelSymmetric(base[i], base[j]);
    }
  }

  /**
   * Every value appended by outer iteration i is base[i] or a combination of base[i]
   * with a base[j], j >= i; j is returned.
   */
  lemma BlockFromBase(base: seq<int>, i: nat, x: int) returns (j: nat)
    requires AllPositive(base)
    requires i < |base|
    requires x in Block(base, i)
    ensures FromPair(base, i, j, x)
  {
    if x == base[i] {
      j := i;
    } else {
      assert x in Pairs(base, i, |base|);
      j := PairsFromBase(base, i, |base|, x);
    }
  }

  /** Every entry of the first k blocks comes from the base list, by the returned pair (i, j). */
  lemma {:induction false} PoolUpToFromBase(base: seq<int>, k: nat, m: nat) returns (i: nat, j: nat)
    requires AllPositive(base)
    requires k <= |base|
    requires m < |PoolUpTo(base, k)|
    ensures FromPair(base, i, j, PoolUpTo(base, k)[m])
  {
    assert k > 0;
    var built, before, block := PoolUpTo(base, k), PoolUpTo(base, k - 1), Block(base, k - 1);
    assert built == before + block;
    if m < |before| {
      i, j := PoolUpToFromBase(base, k - 1, m);
      KeptAt(built, before, block, m);
      assert FromPair(base, i, j, built[m]);
    } else {
      AppendedAt(built, before, block, m - |before|);
      i := k - 1;
      j := BlockFromBase(base, i, block[m - |before|]);
      assert FromPair(base, i, j, built[m]);
    }
  }

  /** Every pool value is a base value, a series value or a truncated parallel value. */
  lemma PoolOnlyFromBase(base: seq<int>, x: int)
    requires AllPositive(base)
    requires x in Pool(base)
    ensures FromBase(base, x)
  {
    var m :| 0 <= m < |Pool(base)| && Pool(base)[m] == x;
    var i, j := PoolUpToFromBase(base, |base|, m);
    assert FromPair(base, i, j, x);
  }

  /** With every base value at least 2 ohms, every pool value is at least 1 ohm. */
  lemma PoolPositive(base: seq<int>)
    requires forall k :: 0 <= k < |base| ==> base[k] >= 2
    ensures AllPositive(base)
    ensures forall x :: x in Pool(base) ==> x >= 1
    ensures AllPositive(Pool(base))
  {
    forall x | x in Pool(base)
      ensures x >= 1
    {
      PoolOnlyFromBase(base, x);
      var i, j :| FromPair(base, i, j, x);
      ParallelAtLeastOne(base[i], base[j]);
    }
    var pool := Pool(base);
    forall k | 0 <= k < |pool|
      ensures pool[k] > 0
    {
      assert pool[k] in pool;
    }
  }

  /** A 1-ohm base value puts a 0-ohm "resistor" into the pool. */
  lemma OneGivesZero(base: seq<int>, i: nat)
    requires AllPositive(base)
    requires i < |base| && base[i] == 1
    ensures 0 in Pool(base)
  {
    ParallelOfOnesIsZero();
    PoolContains(base, i, i);
  }
}
