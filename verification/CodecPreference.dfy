/** How lib/services/rfc_webrtc.dart orders payload types by a codec preference list, and
    why its remove-and-append loops compute a stable sort. */
module CodecPreference {
  import opened Text
  import opened StableSort

  /** `table` maps payload types to lower-cased rtpmap entries ('111' to 'opus/48000/2');
      `codecs` is the preference list, most preferred first. */
  datatype Preference = Preference(table: map<string, string>, codecs: seq<string>)

  /** The rtpmap entry of `pt` contains the codec's name, the text before its first slash. */
  predicate Matches(pref: Preference, pt: string, codec: string) {
    var entry := if pt in pref.table then pref.table[pt] else "";
    Find(entry, Split(Lower(codec), "/")[0]).Some?
  }

  /** The index of the first codec from `j` on that `pt` matches, the list's length if none. */
  function RankFrom(pref: Preference, pt: string, j: nat): (r: nat)
    requires j <= |pref.codecs|
    ensures j <= r <= |pref.codecs|
    decreases |pref.codecs| - j
  {
    if j == |pref.codecs| || Matches(pref, pt, pref.codecs[j]) then j else RankFrom(pref, pt, j + 1)
  }

  function Rank(pref: Preference, pt: string): nat {
    RankFrom(pref, pt, 0)
  }

  function RankAll(pref: Preference, pts: seq<string>): (r: seq<Ranked>)
    ensures |r| == |pts|
  {
    seq(|pts|, i requires 0 <= i < |pts| => Ranked(Rank(pref, pts[i]), pts[i]))
  }

  /** `pts` stably sorted by rank. */
  function Preferred(pref: Preference, pts: seq<string>): seq<string> {
    Items(SortBelow(RankAll(pref, pts), |pref.codecs| + 1))
  }

  // ------------------------------------------------------------ what the sort means

  lemma {:induction false} RankFromIs(pref: Preference, pt: string, j: nat, k: nat)
    requires j <= k <= |pref.codecs| && forall i :: j <= i < k ==> !Matches(pref, pt, pref.codecs[i])
    requires k < |pref.codecs| ==> Matches(pref, pt, pref.codecs[k])
    ensures RankFrom(pref, pt, j) == k
    decreases k - j
  {
    if j < k {
      RankFromIs(pref, pt, j + 1, k);
    }
  }

  lemma {:induction false} RankFromMeans(pref: Preference, pt: string, j: nat)
    requires j <= |pref.codecs|
    ensures forall i :: j <= i < RankFrom(pref, pt, j) ==> !Matches(pref, pt, pref.codecs[i])
    ensures RankFrom(pref, pt, j) < |pref.codecs| ==> Matches(pref, pt, pref.codecs[RankFrom(pref, pt, j)])
    decreases |pref.codecs| - j
  {
    if j < |pref.codecs| && !Matches(pref, pt, pref.codecs[j]) {
      RankFromMeans(pref, pt, j + 1);
    }
  }

  /** The rank of `pt` is the least index of a codec it matches. */
  lemma RankIsFirstMatch(pref: Preference, pt: string, k: nat)
    requires k <= |pref.codecs|
    ensures Rank(pref, pt) == k <==>
            (forall i :: 0 <= i < k ==> !Matches(pref, pt, pref.codecs[i])) &&
            (k < |pref.codecs| ==> Matches(pref, pt, pref.codecs[k]))
  {
    RankFromMeans(pref, pt, 0);
    if (forall i :: 0 <= i < k ==> !Matches(pref, pt, pref.codecs[i])) &&
       (k < |pref.codecs| ==> Matches(pref, pt, pref.codecs[k])) {
      RankFromIs(pref, pt, 0, k);
    }
  }

  lemma RankAllBelow(pref: Preference, pts: seq<string>)
    ensures RanksBelow(RankAll(pref, pts), |pref.codecs| + 1)
  {
  }

  lemma ItemsOfRankAll(pref: Preference, pts: seq<string>)
    ensures Items(RankAll(pref, pts)) == pts
  {
  }

  ghost predicate RankedBy(pref: Preference, xs: seq<Ranked>) {
    forall x :: x in xs ==> x.rank == Rank(pref, x.item)
  }

  lemma {:induction false} ItemsCount(pref: Preference, xs: seq<Ranked>, pt: string)
    requires RankedBy(pref, xs)
    ensures multiset(Items(xs))[pt] == multiset(xs)[Ranked(Rank(pref, pt), pt)]
  {
    if xs == [] {
      assert Items(xs) == [];
    } else {
      var x, t := xs[0], xs[1..];
      assert x in xs && forall y :: y in t ==> y in xs;
      ItemsCount(pref, t, pt);
      assert xs == [x] + t;
      assert Items(xs) == [x.item] + Items(t);
    }
  }

  /** The sorted items carry their own ranks, so ranking them again changes nothing. */
  lemma RankAllOfPreferred(pref: Preference, pts: seq<string>)
    ensures RankedBy(pref, SortBelow(RankAll(pref, pts), |pref.codecs| + 1))
    ensures RankAll(pref, Preferred(pref, pts)) == SortBelow(RankAll(pref, pts), |pref.codecs| + 1)
  {
    var ranked, n := RankAll(pref, pts), |pref.codecs| + 1;
    var sorted := SortBelow(ranked, n);
    forall x | x in sorted ensures x.rank == Rank(pref, x.item) {
      SortBelowMembers(ranked, n, x);
    }
    RankAllOfItems(pref, sorted);
  }

  lemma RankAllOfItems(pref: Preference, xs: seq<Ranked>)
    requires RankedBy(pref, xs)
    ensures RankAll(pref, Items(xs)) == xs
  {
    forall i | 0 <= i < |xs| ensures RankAll(pref, Items(xs))[i] == xs[i] {
      assert xs[i] in xs;
    }
  }

  /** Reordering is a permutation, even when payload types repeat. */
  lemma PreferredIsPermutation(pref: Preference, pts: seq<string>)
    ensures multiset(Preferred(pref, pts)) == multiset(pts)
  {
    var ranked := RankAll(pref, pts);
    var sorted := SortBelow(ranked, |pref.codecs| + 1);
    RankAllBelow(pref, pts);
    RankAllOfPreferred(pref, pts);
    SortBelowIsStableSort(ranked, |pref.codecs| + 1);
    StableSortIsPermutation(sorted, ranked);
    forall pt: string ensures multiset(Preferred(pref, pts))[pt] == multiset(pts)[pt] {
      ItemsCount(pref, sorted, pt);
      ItemsCount(pref, ranked, pt);
      ItemsOfRankAll(pref, pts);
    }
  }

  /** The result is the one and only stable sort of `pts` by rank. */
  lemma PreferredIsTheStableSort(pref: Preference, pts: seq<string>, r: seq<string>)
    ensures r == Preferred(pref, pts) <==> IsStableSort(RankAll(pref, r), RankAll(pref, pts))
  {
    RankAllBelow(pref, pts);
    RankAllOfPreferred(pref, pts);
    SortBelowIsStableSort(RankAll(pref, pts), |pref.codecs| + 1);
    if IsStableSort(RankAll(pref, r), RankAll(pref, pts)) {
      StableSortIsUnique(RankAll(pref, r), RankAll(pref, pts), |pref.codecs| + 1);
      ItemsOfRankAll(pref, r);
    }
  }

  lemma PreferredIdempotent(pref: Preference, pts: seq<string>)
    ensures Preferred(pref, Preferred(pref, pts)) == Preferred(pref, pts)
  {
    RankAllBelow(pref, pts);
    RankAllOfPreferred(pref, pts);
    SortBelowIdempotent(RankAll(pref, pts), |pref.codecs| + 1);
  }

  // --------------------------------------------------------- what the loops compute

  /** The payload types that match `codec`. */
  function Where(pref: Preference, pts: seq<string>, codec: string): seq<string> {
    if pts == [] then []
    else if Matches(pref, pts[0], codec) then [pts[0]] + Where(pref, pts[1..], codec)
    else Where(pref, pts[1..], codec)
  }

  /** List.remove: drop the first occurrence, if any. */
  function RemoveFirst(xs: seq<string>, v: string): seq<string> {
    if xs == [] then [] else if xs[0] == v then xs[1..] else [xs[0]] + RemoveFirst(xs[1..], v)
  }

  /** The payload types not claimed by the first `j` codecs, and those that codec `j` claims. */
  function Unclaimed(pref: Preference, pts: seq<string>, j: nat): seq<string> {
    if pts == [] then []
    else if Rank(pref, pts[0]) >= j then [pts[0]] + Unclaimed(pref, pts[1..], j)
    else Unclaimed(pref, pts[1..], j)
  }

  function Claimed(pref: Preference, pts: seq<string>, j: nat): seq<string> {
    if pts == [] then []
    else if Rank(pref, pts[0]) == j then [pts[0]] + Claimed(pref, pts[1..], j)
    else Claimed(pref, pts[1..], j)
  }

  /** The inner loop from a given state: each match still in `rest` moves over. */
  function Drain(rest: seq<string>, matching: seq<string>): (r: (seq<string>, seq<string>))
    decreases |matching|
  {
    if matching == [] then (rest, [])
    else if matching[0] in rest then
      var (rest', moved) := Drain(RemoveFirst(rest, matching[0]), matching[1..]);
      (rest', [matching[0]] + moved)
    else Drain(rest, matching[1..])
  }

  lemma RankStep(pref: Preference, pt: string, j: nat)
    requires j < |pref.codecs|
    ensures Rank(pref, pt) >= j && Matches(pref, pt, pref.codecs[j]) <==> Rank(pref, pt) == j
  {
    RankFromMeans(pref, pt, 0);
  }

  lemma RemoveFirstCons(x: string, xs: seq<string>, v: string)
    ensures RemoveFirst([x] + xs, v) == if x == v then xs else [x] + RemoveFirst(xs, v)
  {
    assert ([x] + xs)[1..] == xs;
  }

  lemma {:induction false} RemoveFirstPast(pre: seq<string>, v: string, t: seq<string>)
    requires v !in pre
    ensures RemoveFirst(pre + ([v] + t), v) == pre + t
  {
    if pre == [] {
      assert pre + ([v] + t) == [v] + t && pre + t == t;
      RemoveFirstCons(v, t, v);
    } else {
      var x, p := pre[0], pre[1..];
      calc {
        RemoveFirst(pre + ([v] + t), v);
        { assert pre + ([v] + t) == [x] + (p + ([v] + t)); }
        RemoveFirst([x] + (p + ([v] + t)), v);
        { RemoveFirstCons(x, p + ([v] + t), v); }
        [x] + RemoveFirst(p + ([v] + t), v);
        { RemoveFirstPast(p, v, t); }
        [x] + (p + t);
        { assert pre == [x] + p; }
        pre + t;
      }
    }
  }

  lemma {:induction false} UnclaimedExcludes(pref: Preference, pts: seq<string>, j: nat, x: string)
    requires Rank(pref, x) < j
    ensures x !in Unclaimed(pref, pts, j)
  {
    if pts != [] {
      UnclaimedExcludes(pref, pts[1..], j, x);
    }
  }

  lemma DrainMoves(pre: seq<string>, x: string, t: seq<string>, matching: seq<string>)
    requires x !in pre
    ensures Drain(pre + ([x] + t), [x] + matching) == (Drain(pre + t, matching).0, [x] + Drain(pre + t, matching).1)
  {
    assert ([x] + matching)[1..] == matching;
    assert (pre + ([x] + t))[|pre|] == x;
    RemoveFirstPast(pre, x, t);
  }

  lemma DrainSkips(rest: seq<string>, x: string, matching: seq<string>)
    requires x !in rest
    ensures Drain(rest, [x] + matching) == Drain(rest, matching)
  {
    assert ([x] + matching)[1..] == matching;
  }

  /** Draining the matches of codec `j` from what is unclaimed moves exactly what codec `j`
      claims, in order, and leaves what is still unclaimed. */
  lemma {:induction false} DrainClaims(pref: Preference, pts: seq<string>, j: nat, pre: seq<string>)
    requires j < |pref.codecs| && forall x :: x in pre ==> !Matches(pref, x, pref.codecs[j])
    ensures Drain(pre + Unclaimed(pref, pts, j), Where(pref, pts, pref.codecs[j]))
         == (pre + Unclaimed(pref, pts, j + 1), Claimed(pref, pts, j))
  {
    if pts != [] {
      var x, t, codec := pts[0], pts[1..], pref.codecs[j];
      RankStep(pref, x, j);
      var left, more := Unclaimed(pref, t, j), Unclaimed(pref, t, j + 1);
      if !Matches(pref, x, codec) && Rank(pref, x) >= j {
        DrainClaims(pref, t, j, pre + [x]);
        assert pre + [x] + left == pre + ([x] + left);
        assert pre + [x] + more == pre + ([x] + more);
      } else {
        DrainClaims(pref, t, j, pre);
        if Matches(pref, x, codec) && Rank(pref, x) == j {
          DrainMoves(pre, x, left, Where(pref, t, codec));
        } else if Matches(pref, x, codec) {
          UnclaimedExcludes(pref, t, j, x);
          DrainSkips(pre + left, x, Where(pref, t, codec));
        }
      }
    }
  }

  /** What the first `n` codecs claim, most preferred first. */
  function ClaimedBelow(pref: Preference, pts: seq<string>, n: nat): seq<string> {
    if n == 0 then [] else ClaimedBelow(pref, pts, n - 1) + Claimed(pref, pts, n - 1)
  }

  lemma {:induction false} ClaimedIsBucket(pref: Preference, pts: seq<string>, j: nat)
    ensures Items(Bucket(RankAll(pref, pts), j)) == Claimed(pref, pts, j)
  {
    if pts != [] {
      ClaimedIsBucket(pref, pts[1..], j);
      var x := Ranked(Rank(pref, pts[0]), pts[0]);
      assert RankAll(pref, pts)[0] == x && RankAll(pref, pts)[1..] == RankAll(pref, pts[1..]);
      ItemsConcat([x], Bucket(RankAll(pref, pts[1..]), j));
    }
  }

  lemma ItemsConcat(xs: seq<Ranked>, ys: seq<Ranked>)
    ensures Items(xs + ys) == Items(xs) + Items(ys)
    ensures forall x :: Items([x]) == [x.item]
  {
  }

  lemma {:induction false} ClaimedBelowIsSorted(pref: Preference, pts: seq<string>, n: nat)
    ensures Items(SortBelow(RankAll(pref, pts), n)) == ClaimedBelow(pref, pts, n)
  {
    if n > 0 {
      ClaimedBelowIsSorted(pref, pts, n - 1);
      ClaimedIsBucket(pref, pts, n - 1);
      ItemsConcat(SortBelow(RankAll(pref, pts), n - 1), Bucket(RankAll(pref, pts), n - 1));
    }
  }

  lemma {:induction false} UnclaimedAtTheEnd(pref: Preference, pts: seq<string>)
    ensures Unclaimed(pref, pts, |pref.codecs|) == Claimed(pref, pts, |pref.codecs|)
    ensures Unclaimed(pref, pts, 0) == pts
  {
    if pts != [] {
      UnclaimedAtTheEnd(pref, pts[1..]);
      assert pts == [pts[0]] + pts[1..];
    }
  }

  // ---------------------------------------------------------------- the loops themselves

  /** The nested loops of reorderCodecs over the payload types of one m-line. */
  method OrderPayloadTypes(pref: Preference, currentPts: seq<string>) returns (reordered: seq<string>)
    ensures reordered == Preferred(pref, currentPts)
  {
    var preferred: seq<string> := [];
    var rest := currentPts;
    UnclaimedAtTheEnd(pref, currentPts);
    var j := 0;
    while j < |pref.codecs|
      invariant 0 <= j <= |pref.codecs|
      invariant preferred == ClaimedBelow(pref, currentPts, j)
      invariant rest == Unclaimed(pref, currentPts, j)
    {
      var matching := Where(pref, currentPts, pref.codecs[j]);
      DrainClaims(pref, currentPts, j, []);
      assert [] + rest == rest && [] + Unclaimed(pref, currentPts, j + 1) == Unclaimed(pref, currentPts, j + 1);
      var moved;
      rest, moved := MoveMatching(rest, matching);
      preferred := preferred + moved;
      j := j + 1;
    }
    reordered := preferred + rest;
    ClaimedBelowIsSorted(pref, currentPts, |pref.codecs| + 1);
  }

  /** Each match in turn moves over from the rest, if it is still there. */
  method MoveMatching(start: seq<string>, matching: seq<string>) returns (rest: seq<string>, moved: seq<string>)
    ensures (rest, moved) == Drain(start, matching)
  {
    rest, moved := start, [];
    var i := 0;
    assert matching[0..] == matching && [] + Drain(start, matching).1 == Drain(start, matching).1;
    while i < |matching|
      invariant 0 <= i <= |matching|
      invariant Drain(start, matching) == (Drain(rest, matching[i..]).0, moved + Drain(rest, matching[i..]).1)
    {
      var pt := matching[i];
      assert matching[i..][0] == pt && matching[i..][1..] == matching[i + 1..];
      if pt in rest {
        ghost var later := Drain(RemoveFirst(rest, pt), matching[i + 1..]).1;
        assert moved + ([pt] + later) == moved + [pt] + later;
        rest := RemoveFirst(rest, pt);
        moved := moved + [pt];
      }
      i := i + 1;
    }
    assert matching[i..] == [] && moved + [] == moved;
  }
}
