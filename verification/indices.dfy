/** Index bookkeeping shared by the Python model and the C++ boards:
    wrapping of negative ids, deletion of a set of indices and
    column resizing. */
module Indices {

  /** `(id + n) % n`: the C++ removeNode normalisation, which is also how
      numpy reads an index in [-n, n). Truncating and Euclidean remainder
      agree here because `id + n` is never negative. */
  function Wrap(id: int, n: nat): (r: nat)
    requires n > 0 && id + n >= 0
    ensures r < n
    ensures 0 <= id < n ==> r == id
    ensures id < 0 ==> r == id + n
  {
    (id + n) % n
  }

  /** The ascending indices below n that survive deleting `drop`. */
  function Kept(n: nat, drop: set<int>): (ks: seq<nat>)
    ensures forall j :: 0 <= j < |ks| ==> ks[j] < n && ks[j] !in drop
    ensures forall j, j' :: 0 <= j < j' < |ks| ==> ks[j] < ks[j']
  {
    if n == 0 then [] else Kept(n - 1, drop) + (if n - 1 in drop then [] else [n - 1])
  }

  /** Every index below n that is not dropped survives. */
  lemma {:induction false} KeptComplete(n: nat, drop: set<int>, i: nat)
    requires i < n && i !in drop
    ensures i in Kept(n, drop)
  {
    if i < n - 1 {
      KeptComplete(n - 1, drop, i);
    }
  }

  /** numpy.delete along axis 0: the elements whose index is not in `drop`,
      in their original order. */
  function Delete<T>(s: seq<T>, drop: set<int>): (r: seq<T>)
    ensures |r| == |Kept(|s|, drop)|
    ensures forall j :: 0 <= j < |r| ==> r[j] == s[Kept(|s|, drop)[j]]
  {
    if |s| == 0 then []
    else
      var init := Delete(s[..|s| - 1], drop);
      assert Kept(|s|, drop) == Kept(|s| - 1, drop) + (if |s| - 1 in drop then [] else [|s| - 1]);
      init + (if |s| - 1 in drop then [] else [s[|s| - 1]])
  }

  /** The identity sequence 0, 1, ..., n-1. */
  function Upto(n: nat): (r: seq<nat>)
    ensures |r| == n && forall i :: 0 <= i < n ==> r[i] == i
  {
    seq(n, i => i)
  }

  /** Below the first dropped index of an interval [lo, hi), nothing is
      dropped; inside it, nothing survives. */
  lemma {:induction false} KeptBeforeInterval(m: nat, drop: set<int>, lo: nat, hi: nat)
    requires lo <= hi && m <= hi
    requires forall i :: i in drop <==> lo <= i < hi
    ensures Kept(m, drop) == Upto(if m < lo then m else lo)
  {
    if m > 0 {
      KeptBeforeInterval(m - 1, drop, lo, hi);
      if m - 1 < lo {
        assert m - 1 !in drop;
        assert Upto(m - 1) + [m - 1] == Upto(m);
      } else {
        assert m - 1 in drop;
      }
    }
  }

  /** The last k indices of a sequence of length n. */
  function Tail(n: nat, k: nat): (drop: set<int>)
    requires k <= n
    ensures forall i :: i in drop <==> n - k <= i < n
  {
    if k == 0 then {} else Tail(n, k - 1) + {n - k}
  }

  /** Deleting the last k indices leaves the prefix of length |s| - k. */
  lemma DeleteSuffix<T>(s: seq<T>, k: nat)
    requires k <= |s|
    ensures Delete(s, Tail(|s|, k)) == s[..|s| - k]
  {
    KeptBeforeInterval(|s|, Tail(|s|, k), |s| - k, |s|);
  }

  /** Deleting one in-range index k keeps every index below k and shifts
      every later one down by one. */
  lemma {:induction false} KeptOne(n: nat, k: nat, drop: set<int>)
    requires k < n
    requires forall i :: i in drop <==> i == k
    ensures Kept(n, drop) == Skip(n, k)
  {
    if n - 1 == k {
      KeptBeforeInterval(n - 1, drop, k, k + 1);
      assert Kept(n, drop) == Kept(n - 1, drop);
      assert Upto(k) == Skip(n, k);
    } else {
      KeptOne(n - 1, k, drop);
      KeptGrows(n, drop);
      assert Skip(n, k) == Skip(n - 1, k) + [n - 1];
    }
  }

  /** One step of Kept past an index that is not dropped. */
  lemma KeptGrows(n: nat, drop: set<int>)
    requires n > 0 && n - 1 !in drop
    ensures Kept(n, drop) == Kept(n - 1, drop) + [n - 1]
  {
  }

  /** The indices that survive deleting index k from [0, n). */
  function Skip(n: nat, k: nat): seq<nat>
    requires k < n
  {
    seq(n - 1, j requires 0 <= j < n - 1 => if j < k then j else j + 1)
  }

  /** Deleting one in-range index is cutting it out of the sequence. */
  lemma DeleteOne<T>(s: seq<T>, k: nat)
    requires k < |s|
    ensures Delete(s, {k}) == s[..k] + s[k + 1..]
  {
    KeptOne(|s|, k, {k});
    SkipCuts(s, k, Delete(s, {k}));
  }

  /** A sequence that picks the elements of s at the indices Skip(|s|, k)
      is s with element k cut out. */
  lemma SkipCuts<T>(s: seq<T>, k: nat, r: seq<T>)
    requires k < |s| && |r| == |s| - 1
    requires forall j :: 0 <= j < |r| ==> r[j] == s[Skip(|s|, k)[j]]
    ensures r == s[..k] + s[k + 1..]
  {
    var cut := s[..k] + s[k + 1..];
    forall j | 0 <= j < |r|
      ensures r[j] == cut[j]
    {
      if j < k {
        assert cut[j] == s[j];
      } else {
        assert cut[j] == s[j + 1];
      }
    }
  }

  /** Clamping of a column-count change so that the count never goes
      negative (`if( delta < -count ) delta = -count;`). */
  function ClampDelta(count: nat, delta: int): (r: int)
    ensures count + r >= 0
    ensures delta + count >= 0 ==> r == delta
    ensures delta + count < 0 ==> count + r == 0
  {
    if delta + count < 0 then -(count as int) else delta
  }

  /** Eigen's conservativeResize on columns: the first min(|s|, count)
      columns are kept and any further column is taken from `fill`. */
  function Resized<T>(s: seq<T>, count: nat, fill: nat -> T): (r: seq<T>)
    ensures |r| == count
    ensures forall i :: 0 <= i < count && i < |s| ==> r[i] == s[i]
    ensures forall i :: |s| <= i < count ==> r[i] == fill(i)
  {
    seq(count, i requires 0 <= i < count => if i < |s| then s[i] else fill(i))
  }
}
