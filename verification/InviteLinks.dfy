/** One invite link of server-rust/src/routes/contacts.rs at the level of single SQL statements:
    handlers look at its remaining uses in one statement and take one in another, so those of
    several handlers interleave. */
module InviteLinks {

  /** A look at the link, `found` if the owner is right and it has not expired; and the
      decrement of the handler whose look was statement number `read`. */
  datatype Statement =
    | Look(found: bool)
    | Take(read: nat)

  /** uses_left, from the one use a new link has. */
  function Left(trace: seq<Statement>): int {
    if trace == [] then 1
    else if trace[|trace| - 1].Take? then Left(trace[..|trace| - 1]) - 1
    else Left(trace[..|trace| - 1])
  }

  /** A handler takes a use once, after a look that found the link with uses not equal to 0. */
  predicate LegalAt(trace: seq<Statement>, k: nat)
    requires k < |trace|
  {
    trace[k].Take? ==>
      && trace[k].read < k && trace[trace[k].read] == Look(true) && Left(trace[..trace[k].read]) != 0
      && trace[k] !in trace[..k]
  }

  ghost predicate Legal(trace: seq<Statement>) {
    forall k :: 0 <= k < |trace| ==> LegalAt(trace, k)
  }

  /** Statements i and k are the takings of two handlers. */
  predicate BothTake(trace: seq<Statement>, i: nat, k: nat) {
    i < k < |trace| && trace[i].Take? && trace[k].Take?
  }

  lemma {:induction false} LeftOnlyFalls(trace: seq<Statement>, i: nat)
    requires i <= |trace|
    ensures Left(trace) <= Left(trace[..i])
    ensures (forall m :: i <= m < |trace| ==> !trace[m].Take?) ==> Left(trace) == Left(trace[..i])
    decreases |trace|
  {
    if i == |trace| {
      assert trace[..i] == trace;
    } else {
      assert trace[..|trace| - 1][..i] == trace[..i];
      LeftOnlyFalls(trace[..|trace| - 1], i);
    }
  }

  /** The first taking leaves no use, until the next. */
  lemma NoneLeftBetween(trace: seq<Statement>, first: nat, n: nat)
    requires first < n <= |trace| && trace[first].Take?
    requires forall m :: 0 <= m < n && m != first ==> !trace[m].Take?
    ensures Left(trace[..n]) == 0
  {
    assert trace[..first + 1][..first] == trace[..first];
    assert trace[..first][..0] == [];
    LeftOnlyFalls(trace[..first], 0);
    assert trace[..n][..first + 1] == trace[..first + 1];
    LeftOnlyFalls(trace[..n], first + 1);
  }

  lemma FirstTake(trace: seq<Statement>, i: nat) returns (first: nat)
    requires i < |trace| && trace[i].Take?
    ensures first <= i && trace[first].Take? && forall m :: 0 <= m < first ==> !trace[m].Take?
  {
    first := 0;
    while !trace[first].Take?
      invariant first <= i && forall m :: 0 <= m < first ==> !trace[m].Take?
      decreases i - first
    {
      first := first + 1;
    }
  }

  lemma NextTake(trace: seq<Statement>, first: nat, k: nat) returns (second: nat)
    requires first < k < |trace| && trace[k].Take?
    ensures first < second <= k && trace[second].Take? && forall m :: first < m < second ==> !trace[m].Take?
  {
    second := first + 1;
    while !trace[second].Take?
      invariant first < second <= k && forall m :: first < m < second ==> !trace[m].Take?
      decreases k - second
    {
      second := second + 1;
    }
  }

  lemma LookedEarly(trace: seq<Statement>, first: nat, second: nat)
    requires first < second < |trace| && trace[first].Take? && trace[second].Take? && LegalAt(trace, second)
    requires forall m :: 0 <= m < second && m != first ==> !trace[m].Take?
    ensures trace[second].read < first
  {
    var read := trace[second].read;
    if read > first {
      NoneLeftBetween(trace, first, read);
    }
  }

  /** A look that lets its handler go on. */
  predicate Finds(trace: seq<Statement>, k: nat) {
    k < |trace| && trace[k] == Look(true) && Left(trace[..k]) != 0
  }

  /** Every handler that may go on has taken its use by the end of the trace. */
  ghost predicate AllFinish(trace: seq<Statement>) {
    forall k: nat :: Finds(trace, k) ==> Take(k) in trace
  }

  /** Two handlers find the link before any has taken a use. */
  ghost predicate TwoLooksFirst(trace: seq<Statement>, i: nat, k: nat) {
    i < k < |trace| && trace[i] == trace[k] == Look(true) && forall m :: 0 <= m < k ==> !trace[m].Take?
  }

  lemma FoundBefore(trace: seq<Statement>, k: nat)
    requires k < |trace| && trace[k] == Look(true) && forall m :: 0 <= m < k ==> !trace[m].Take?
    ensures Finds(trace, k)
  {
    assert trace[..k][..0] == [];
    LeftOnlyFalls(trace[..k], 0);
  }

  lemma TwoLooksTwoTakings(trace: seq<Statement>, i: nat, k: nat) returns (m: nat, n: nat)
    requires AllFinish(trace) && TwoLooksFirst(trace, i, k)
    ensures BothTake(trace, m, n)
  {
    FoundBefore(trace, i);
    FoundBefore(trace, k);
    m :| 0 <= m < |trace| && trace[m] == Take(i);
    n :| 0 <= n < |trace| && trace[n] == Take(k);
    if n < m {
      m, n := n, m;
    }
  }

  lemma TwoTakingsTwoLooks(trace: seq<Statement>, i: nat, k: nat) returns (m: nat, n: nat)
    requires Legal(trace) && BothTake(trace, i, k)
    ensures TwoLooksFirst(trace, m, n)
  {
    var first := FirstTake(trace, i);
    var second := NextTake(trace, first, k);
    assert LegalAt(trace, first) && LegalAt(trace, second);
    LookedEarly(trace, first, second);
    m, n := trace[first].read, trace[second].read;
    assert trace[first] in trace[..second];
    if n < m {
      m, n := n, m;
    }
  }

  /** However handlers interleave, a link is redeemed more than once only if two had found it
      before the first decrement, and when all that found it have finished, exactly then. */
  lemma RedeemedTwiceIffTwoLooks(trace: seq<Statement>)
    requires Legal(trace)
    ensures (exists i: nat, k: nat :: BothTake(trace, i, k)) ==> exists i: nat, k: nat :: TwoLooksFirst(trace, i, k)
    ensures AllFinish(trace) ==>
              ((exists i: nat, k: nat :: BothTake(trace, i, k)) <==> exists i: nat, k: nat :: TwoLooksFirst(trace, i, k))
  {
    if i: nat, k: nat :| BothTake(trace, i, k) {
      var m, n := TwoTakingsTwoLooks(trace, i, k);
    }
    if AllFinish(trace) {
      if i: nat, k: nat :| TwoLooksFirst(trace, i, k) {
        var m, n := TwoLooksTwoTakings(trace, i, k);
      }
    }
  }

  /** A link with less than no use left can be redeemed any number of times more, until it
      expires: the test for no use left never fails again. */
  lemma OverdrawnIsUnlimited(trace: seq<Statement>)
    requires Legal(trace) && Left(trace) < 0
    ensures Legal(trace + [Look(true), Take(|trace|)]) && Left(trace + [Look(true), Take(|trace|)]) < 0
  {
    var more := [Look(true), Take(|trace|)];
    var longer := trace + more;
    forall k | 0 <= k < |longer| ensures LegalAt(longer, k) {
      if k < |trace| {
        assert LegalAt(trace, k);
        assert longer[..k] == trace[..k];
        if trace[k].Take? {
          assert longer[..trace[k].read] == trace[..trace[k].read];
        }
      } else if k == |trace| + 1 {
        assert longer[..|trace|] == trace;
        forall m | 0 <= m < k ensures longer[m] != Take(|trace|) {
          if m < |trace| {
            assert LegalAt(trace, m);
          }
        }
      }
    }
    LeftOnlyFalls(longer, |trace|);
    assert longer[..|trace|] == trace;
  }

  /** And two overlapping redemptions are enough to overdraw it. */
  lemma TwoOverlappingOverdraw() returns (trace: seq<Statement>)
    ensures Legal(trace) && Left(trace) < 0 && AllFinish(trace) && TwoLooksFirst(trace, 0, 1)
  {
    trace := [Look(true), Look(true), Take(0), Take(1)];
    assert trace[..0] == [] && trace[..1] == [Look(true)] && trace[..1][..0] == [];
    assert trace[..3] == [Look(true), Look(true), Take(0)];
    assert trace[..3][..2] == [Look(true), Look(true)] && trace[..3][..2][..1] == [Look(true)];
    assert Left([Look(true)]) == 1 && Left([Look(true), Look(true)]) == 1 && Left(trace[..3]) == 0;
    assert trace[2] !in trace[..2] && trace[3] !in trace[..3];
  }
}
