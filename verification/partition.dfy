/** Splitting an index range [0, n) into contiguous chunks, one per task:
    the C++ boundaries n*i/t and numpy's array_split. */
module Partition {

  /** A half-open index range [min, max) handed to one task. */
  datatype Range = Range(min: nat, max: nat)

  predicate Contains(r: Range, x: nat) {
    r.min <= x < r.max
  }

  /** `n * i / t`: the start of chunk i of t. The operands are never
      negative, so C++'s truncating division is Dafny's division. */
  function Bound(n: nat, t: nat, i: nat): nat
    requires t > 0
  {
    n * i / t
  }

  lemma BoundEnds(n: nat, t: nat)
    requires t > 0
    ensures Bound(n, t, 0) == 0 && Bound(n, t, t) == n
  {
    var q, r := n * t / t, n * t % t;
    assert n * t == q * t + r;
    assert (n - q) * t == r by {
      assert (n - q) * t == n * t - q * t;
    }
    ProductSign(n - q, t);
  }

  lemma ProductSign(x: int, t: int)
    requires t > 0
    ensures x >= 1 ==> x * t >= t
    ensures x <= -1 ==> x * t <= -t
  {
  }

  lemma BoundMonotone(n: nat, t: nat, i: nat, j: nat)
    requires t > 0 && i <= j
    ensures Bound(n, t, i) <= Bound(n, t, j)
  {
    assert n * i <= n * j by {
      assert n * j == n * i + n * (j - i);
    }
    DivMonotone(n * i, n * j, t);
  }

  lemma DivMonotone(a: nat, b: nat, t: nat)
    requires t > 0 && a <= b
    ensures a / t <= b / t
  {
    var qa, qb := a / t, b / t;
    assert a == qa * t + a % t;
    assert b == qb * t + b % t;
    assert (qa - qb - 1) * t == qa * t - qb * t - t;
    ProductSign(qa - qb, t);
  }

  /** rs are non-empty, contiguous ranges that run from lo up to hi. */
  predicate Tiling(rs: seq<Range>, lo: nat, hi: nat) {
    && (forall k :: 0 <= k < |rs| ==> rs[k].min < rs[k].max)
    && (forall k :: 0 <= k < |rs| - 1 ==> rs[k].max == rs[k + 1].min)
    && (if rs == [] then lo == hi else rs[0].min == lo && rs[|rs| - 1].max == hi)
  }

  /** Every range of a tiling of [lo, hi) lies inside [lo, hi). */
  lemma {:induction false} TilingBounded(rs: seq<Range>, lo: nat, hi: nat)
    requires Tiling(rs, lo, hi)
    ensures forall k :: 0 <= k < |rs| ==> lo <= rs[k].min && rs[k].max <= hi
  {
    if rs != [] {
      var init, last := rs[..|rs| - 1], rs[|rs| - 1];
      assert Tiling(init, lo, last.min);
      TilingBounded(init, lo, last.min);
    }
  }

  /** How many of the ranges contain x: how often a task touches index x. */
  function Hits(rs: seq<Range>, x: nat): nat {
    if rs == [] then 0
    else Hits(rs[..|rs| - 1], x) + (if Contains(rs[|rs| - 1], x) then 1 else 0)
  }

  /** Appending a non-empty range that starts where a tiling ends. */
  lemma TilingExtend(rs: seq<Range>, lo: nat, mid: nat, hi: nat)
    requires Tiling(rs, lo, mid) && mid < hi
    ensures Tiling(rs + [Range(mid, hi)], lo, hi)
  {
  }

  /** The ranges tasks 0 .. i-1 of t are handed, in task order: task j
      gets [n*j/t, n*(j+1)/t) whenever that range is non-empty. */
  function Chunks(n: nat, t: nat, i: nat): seq<Range>
    requires t > 0
  {
    if i == 0 then []
    else
      var lo, hi := Bound(n, t, i - 1), Bound(n, t, i);
      Chunks(n, t, i - 1) + (if lo != hi then [Range(lo, hi)] else [])
  }

  /** The chunks of tasks 0 .. i-1 tile [0, n*i/t). */
  lemma {:induction false} ChunksTile(n: nat, t: nat, i: nat)
    requires t > 0
    ensures Tiling(Chunks(n, t, i), 0, Bound(n, t, i))
  {
    if i == 0 {
      BoundEnds(n, t);
    } else {
      ChunksTile(n, t, i - 1);
      BoundMonotone(n, t, i - 1, i);
      if Bound(n, t, i - 1) != Bound(n, t, i) {
        TilingExtend(Chunks(n, t, i - 1), 0, Bound(n, t, i - 1), Bound(n, t, i));
      }
    }
  }

  /** A tiling of [lo, hi) hands every index of [lo, hi) to exactly one
      task and no other index to any task. */
  lemma {:induction false} TilingHitsOnce(rs: seq<Range>, lo: nat, hi: nat, x: nat)
    requires Tiling(rs, lo, hi)
    ensures lo <= hi
    ensures Hits(rs, x) == if lo <= x < hi then 1 else 0
  {
    if rs != [] {
      var init, last := rs[..|rs| - 1], rs[|rs| - 1];
      assert Tiling(init, lo, last.min);
      TilingHitsOnce(init, lo, last.min, x);
    }
  }

  /** numpy.array_split(range(n), k) with q = n / k and r = n % k: the
      first r sections hold q + 1 indices, the others q. */
  function SplitSize(q: nat, r: nat, j: nat): nat {
    q + (if j < r then 1 else 0)
  }

  /** The division points: the running sum of the section sizes, as
      array_split's cumulative sum computes them. */
  function SplitStart(q: nat, r: nat, j: nat): nat {
    if j == 0 then 0 else SplitStart(q, r, j - 1) + SplitSize(q, r, j - 1)
  }

  function ArraySplit(n: nat, k: nat): (rs: seq<Range>)
    requires k > 0
    ensures |rs| == k
    ensures forall j :: 0 <= j < k ==> rs[j].max - rs[j].min == SplitSize(n / k, n % k, j)
    ensures forall j :: 0 <= j < k ==> rs[j].max == SplitStart(n / k, n % k, j + 1)
    ensures rs[0].min == 0
  {
    var q, r := n / k, n % k;
    seq(k, j requires 0 <= j < k => Range(SplitStart(q, r, j), SplitStart(q, r, j) + SplitSize(q, r, j)))
  }

  /** The closed form of the running sum: j whole quotients plus one
      extra index for each of the first r sections passed. */
  lemma {:induction false} SplitStartClosed(q: nat, r: nat, j: nat)
    ensures SplitStart(q, r, j) == j * q + (if j < r then j else r)
  {
    if j > 0 {
      SplitStartClosed(q, r, j - 1);
      assert j * q == (j - 1) * q + q;
    }
  }

  /** After all k sections the running sum has reached n. */
  lemma SplitEnd(n: nat, k: nat)
    requires k > 0
    ensures SplitStart(n / k, n % k, k) == n
  {
    SplitStartClosed(n / k, n % k, k);
    assert n == k * (n / k) + n % k;
  }

  /** With k <= n every section gets at least one index. */
  lemma QuotientPositive(n: nat, k: nat)
    requires 0 < k <= n
    ensures n / k >= 1
  {
    assert n == k * (n / k) + n % k;
  }

  /** With no more sections than indices, the sections are contiguous,
      non-empty and cover [0, n), so `ids[0]` exists for each of them. */
  lemma ArraySplitTiles(n: nat, k: nat)
    requires 0 < k <= n
    ensures Tiling(ArraySplit(n, k), 0, n)
  {
    var rs := ArraySplit(n, k);
    QuotientPositive(n, k);
    SplitEnd(n, k);
    assert rs[k - 1].max == n;
  }
}
