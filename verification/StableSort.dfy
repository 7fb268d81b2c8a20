/** Stable sorting of ranked items, defined by buckets, and the fact that being sorted and
    keeping every bucket determines the result. */
module StableSort {

  datatype Ranked = Ranked(rank: nat, item: string)

  function Items(xs: seq<Ranked>): (r: seq<string>)
    ensures |r| == |xs|
  {
    seq(|xs|, i requires 0 <= i < |xs| => xs[i].item)
  }

  /** The elements of `xs` with rank `k`, in their order in `xs`. */
  function Bucket(xs: seq<Ranked>, k: nat): seq<Ranked> {
    if xs == [] then []
    else if xs[0].rank == k then [xs[0]] + Bucket(xs[1..], k)
    else Bucket(xs[1..], k)
  }

  /** The elements of `xs` with ranks below `n`, in rank order, equal ranks in their order in `xs`. */
  function SortBelow(xs: seq<Ranked>, n: nat): seq<Ranked> {
    if n == 0 then [] else SortBelow(xs, n - 1) + Bucket(xs, n - 1)
  }

  ghost predicate Sorted(xs: seq<Ranked>) {
    forall i, j :: 0 <= i < j < |xs| ==> xs[i].rank <= xs[j].rank
  }

  ghost predicate RanksBelow(xs: seq<Ranked>, n: nat) {
    forall x :: x in xs ==> x.rank < n
  }

  /** `r` is `xs` rearranged: ranks ascend, and equal ranks keep their order. */
  ghost predicate IsStableSort(r: seq<Ranked>, xs: seq<Ranked>) {
    Sorted(r) && forall k: nat :: Bucket(r, k) == Bucket(xs, k)
  }

  lemma BucketCons(x: Ranked, xs: seq<Ranked>, k: nat)
    ensures Bucket([x] + xs, k) == if x.rank == k then [x] + Bucket(xs, k) else Bucket(xs, k)
  {
    assert ([x] + xs)[1..] == xs;
  }

  lemma {:induction false} BucketConcat(xs: seq<Ranked>, ys: seq<Ranked>, k: nat)
    ensures Bucket(xs + ys, k) == Bucket(xs, k) + Bucket(ys, k)
  {
    if xs == [] {
      assert xs + ys == ys;
    } else {
      var x, t := xs[0], xs[1..];
      BucketConcat(t, ys, k);
      BucketCons(x, t + ys, k);
      assert xs + ys == [x] + (t + ys);
      if x.rank == k {
        assert [x] + (Bucket(t, k) + Bucket(ys, k)) == Bucket(xs, k) + Bucket(ys, k);
      }
    }
  }

  lemma {:induction false} BucketMembers(xs: seq<Ranked>, k: nat, x: Ranked)
    ensures x in Bucket(xs, k) <==> x in xs && x.rank == k
  {
    if xs != [] {
      BucketMembers(xs[1..], k, x);
      assert xs == [xs[0]] + xs[1..];
    }
  }

  /** Filtering a bucket by another rank empties it, by its own leaves it alone. */
  lemma {:induction false} BucketOfUniform(xs: seq<Ranked>, j: nat, k: nat)
    requires forall x :: x in xs ==> x.rank == j
    ensures Bucket(xs, k) == if j == k then xs else []
  {
    if xs != [] {
      BucketOfUniform(xs[1..], j, k);
      assert xs == [xs[0]] + xs[1..];
    }
  }

  lemma BucketUniform(xs: seq<Ranked>, k: nat)
    ensures forall x :: x in Bucket(xs, k) ==> x in xs && x.rank == k
  {
    forall x | x in Bucket(xs, k) ensures x in xs && x.rank == k { BucketMembers(xs, k, x); }
  }

  lemma BucketAfterUniform(low: seq<Ranked>, high: seq<Ranked>, j: nat, k: nat)
    requires forall x :: x in high ==> x.rank == j
    ensures Bucket(low + high, k) == if j == k then Bucket(low, k) + high else Bucket(low, k)
  {
    BucketConcat(low, high, k);
    BucketOfUniform(high, j, k);
  }

  lemma {:induction false} BucketOfSortBelow(xs: seq<Ranked>, n: nat, k: nat)
    ensures Bucket(SortBelow(xs, n), k) == if k < n then Bucket(xs, k) else []
  {
    if n > 0 {
      BucketOfSortBelow(xs, n - 1, k);
      BucketUniform(xs, n - 1);
      BucketAfterUniform(SortBelow(xs, n - 1), Bucket(xs, n - 1), n - 1, k);
    }
  }

  lemma {:induction false} SortBelowMembers(xs: seq<Ranked>, n: nat, x: Ranked)
    ensures x in SortBelow(xs, n) <==> x in xs && x.rank < n
  {
    if n > 0 {
      SortBelowMembers(xs, n - 1, x);
      BucketMembers(xs, n - 1, x);
    }
  }

  lemma SortedConcat(low: seq<Ranked>, high: seq<Ranked>, n: nat)
    requires Sorted(low) && RanksBelow(low, n) && forall x :: x in high ==> x.rank == n
    ensures Sorted(low + high)
  {
    var r := low + high;
    forall i, j | 0 <= i < j < |r| ensures r[i].rank <= r[j].rank {
      if i < |low| {
        assert r[i] == low[i] && low[i] in low;
        assert r[j] == if j < |low| then low[j] else high[j - |low|];
      } else {
        assert r[i] == high[i - |low|] && r[j] == high[j - |low|];
      }
    }
  }

  lemma {:induction false} SortBelowSorted(xs: seq<Ranked>, n: nat)
    ensures Sorted(SortBelow(xs, n))
  {
    if n > 0 {
      SortBelowSorted(xs, n - 1);
      forall x | x in SortBelow(xs, n - 1) ensures x.rank < n - 1 { SortBelowMembers(xs, n - 1, x); }
      BucketUniform(xs, n - 1);
      SortedConcat(SortBelow(xs, n - 1), Bucket(xs, n - 1), n - 1);
    }
  }

  lemma {:induction false} BucketOfAbsentRank(xs: seq<Ranked>, k: nat)
    requires forall x :: x in xs ==> x.rank != k
    ensures Bucket(xs, k) == []
  {
    if xs != [] {
      BucketOfAbsentRank(xs[1..], k);
    }
  }

  /** The bucket definition is a stable sort. */
  lemma SortBelowIsStableSort(xs: seq<Ranked>, n: nat)
    requires RanksBelow(xs, n)
    ensures IsStableSort(SortBelow(xs, n), xs)
  {
    SortBelowSorted(xs, n);
    forall k: nat ensures Bucket(SortBelow(xs, n), k) == Bucket(xs, k) {
      BucketOfSortBelow(xs, n, k);
      if k >= n { BucketOfAbsentRank(xs, k); }
    }
  }

  lemma BucketOfLarger(r: seq<Ranked>, k: nat)
    requires r != [] && Sorted(r) && k < r[0].rank
    ensures Bucket(r, k) == []
  {
    BucketOfAbsentRank(r, k);
  }

  lemma SortedTail(r: seq<Ranked>)
    requires r != [] && Sorted(r)
    ensures Sorted(r[1..])
  {
  }

  lemma SameHead(r: seq<Ranked>, q: seq<Ranked>)
    requires Sorted(r) && Sorted(q) && forall k: nat :: Bucket(r, k) == Bucket(q, k)
    requires r != [] && q != []
    ensures r[0] == q[0]
  {
    if r[0].rank < q[0].rank {
      BucketOfLarger(q, r[0].rank);
    } else if q[0].rank < r[0].rank {
      BucketOfLarger(r, q[0].rank);
    }
    assert Bucket(r, r[0].rank)[0] == r[0] && Bucket(q, q[0].rank)[0] == q[0];
  }

  lemma TailBucket(r: seq<Ranked>, k: nat)
    requires r != []
    ensures Bucket(r[1..], k) == if r[0].rank == k then Bucket(r, k)[1..] else Bucket(r, k)
  {
  }

  lemma BothOrNeitherEmpty(r: seq<Ranked>, q: seq<Ranked>)
    requires forall k: nat :: Bucket(r, k) == Bucket(q, k)
    ensures r == [] <==> q == []
  {
    if r != [] { assert Bucket(r, r[0].rank) != []; }
    if q != [] { assert Bucket(q, q[0].rank) != []; }
  }

  /** Sorted sequences with the same buckets are the same. */
  lemma {:induction false} SortedDeterminedByBuckets(r: seq<Ranked>, q: seq<Ranked>)
    requires Sorted(r) && Sorted(q) && forall k: nat :: Bucket(r, k) == Bucket(q, k)
    ensures r == q
  {
    if r != [] && q != [] {
      SameHead(r, q);
      forall k: nat ensures Bucket(r[1..], k) == Bucket(q[1..], k) {
        TailBucket(r, k);
        TailBucket(q, k);
      }
      SortedTail(r);
      SortedTail(q);
      SortedDeterminedByBuckets(r[1..], q[1..]);
      assert r == [r[0]] + r[1..] && q == [q[0]] + q[1..];
    }
    BothOrNeitherEmpty(r, q);
  }

  /** There is only one stable sort. */
  lemma StableSortIsUnique(r: seq<Ranked>, xs: seq<Ranked>, n: nat)
    requires IsStableSort(r, xs) && RanksBelow(xs, n)
    ensures r == SortBelow(xs, n)
  {
    SortBelowIsStableSort(xs, n);
    SortedDeterminedByBuckets(r, SortBelow(xs, n));
  }

  lemma {:induction false} BucketCount(xs: seq<Ranked>, k: nat, x: Ranked)
    ensures multiset(Bucket(xs, k))[x] == if x.rank == k then multiset(xs)[x] else 0
  {
    if xs != [] {
      BucketCount(xs[1..], k, x);
      assert xs == [xs[0]] + xs[1..];
    }
  }

  /** A stable sort loses and invents nothing, duplicates included. */
  lemma StableSortIsPermutation(r: seq<Ranked>, xs: seq<Ranked>)
    requires IsStableSort(r, xs)
    ensures multiset(r) == multiset(xs)
  {
    forall x: Ranked ensures multiset(r)[x] == multiset(xs)[x] {
      BucketCount(r, x.rank, x);
      BucketCount(xs, x.rank, x);
    }
  }

  /** Sorting again changes nothing. */
  lemma SortBelowIdempotent(xs: seq<Ranked>, n: nat)
    requires RanksBelow(xs, n)
    ensures RanksBelow(SortBelow(xs, n), n)
    ensures SortBelow(SortBelow(xs, n), n) == SortBelow(xs, n)
  {
    SortBelowIsStableSort(xs, n);
    forall x | x in SortBelow(xs, n) ensures x.rank < n { SortBelowMembers(xs, n, x); }
    StableSortIsUnique(SortBelow(xs, n), SortBelow(xs, n), n);
  }
}
