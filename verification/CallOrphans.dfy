/** Which events leave a call record behind that no socket will ever delete: the exact
    condition for each event and for whole runs, and runs on which it happens. */
module CallOrphans {
  import opened Wrappers
  import opened CallModel
  import opened CallForest
  import opened CallMatching

  /** No two sockets of one user hold the same call id. */
  ghost predicate SoleHolders(st: State) {
    forall x, y | CurrentOf(st, x).Some? && CurrentOf(st, x) == CurrentOf(st, y) && UserOf(st, x) == UserOf(st, y) ::
      x == y
  }

  /** The clock has moved since the parties last called each other: the new id is on no socket. */
  predicate FreshId(st: State, e: Event)
    requires Legal(st, e)
  {
    Accepted(st, e) ==>
      forall ws :: ws in st.sockets ==>
        CurrentOf(st, ws) != Some(CallId(st.sockets[e.ws].user.value, e.to, e.now))
  }

  lemma {:induction false} SoleHoldersStep(st: State, e: Event)
    requires Inv(st) && Legal(st, e) && SoleHolders(st) && FreshId(st, e)
    ensures SoleHolders(Step(st, e))
  {
    if Accepted(st, e) {
      assert UserOf(st, st.online[e.to]) == Some(e.to);
      var st' := Step(st, e);
      forall x, y | CurrentOf(st', x).Some? && CurrentOf(st', x) == CurrentOf(st', y) && UserOf(st', x) == UserOf(st', y)
        ensures x == y
      {
        CurrentAfterAccept(st, e, x);
        CurrentAfterAccept(st, e, y);
      }
    } else {
      StepKeeps(st, e);
    }
  }

  ghost predicate IsFreshRun(es: seq<Event>)
    requires IsRun(es)
    decreases |es|
  {
    es == [] || (IsFreshRun(es[..|es| - 1]) && FreshId(After(es[..|es| - 1]), es[|es| - 1]))
  }

  /** So over any run in which call ids are fresh. */
  lemma {:induction false} CallsHaveSoleHolders(es: seq<Event>)
    requires IsRun(es) && IsFreshRun(es)
    ensures SoleHolders(After(es))
    decreases |es|
  {
    if es != [] {
      CallsHaveSoleHolders(es[..|es| - 1]);
      LiveCallsFormForest(es[..|es| - 1]);
      SoleHoldersStep(After(es[..|es| - 1]), es[|es| - 1]);
    }
  }

  /** A hangup leaves every remaining live call held on both sides if and only if it was
      harmless.  A hangup sent to one's own user, or to a user who is in a call with
      somebody else, leaves a record that no close handler will delete. */
  lemma {:induction false} HangUpKeepsCallsHeldIff(st: State, ws: SocketId, to: UserId)
    requires Inv(st) && Held(st) && SoleHolders(st) && ws in st.sockets
    ensures Held(HandleHangUp(st, ws, to)) <==> Harmless(st, ws, to)
  {
    InvRegistered(st);
    HangUpKeeps(st, ws, to);
    if Harmless(st, ws, to) {
      HeldIfKept(st, HandleHangUp(st, ws, to));
    } else {
      HarmfulHangUpOrphans(st, ws, to);
    }
  }

  lemma {:induction false} HarmfulHangUpOrphans(st: State, ws: SocketId, to: UserId)
    requires Inv(st) && SoleHolders(st) && ws in st.sockets && !Harmless(st, ws, to)
    ensures !Held(HandleHangUp(st, ws, to))
  {
    InvRegistered(st);
    HangUpKeeps(st, ws, to);
    var st' := HandleHangUp(st, ws, to);
    var target := st.online[to];
    var id := st.sockets[target].currentCall.value;
    var mid := ReleasePeer(st, to);
    assert mid.calls == st.calls && mid.sockets[target].currentCall == None;
    assert mid.sockets[ws].currentCall != Some(id);
    assert id in st'.calls && st'.calls[id] == st.calls[id];
    assert st'.sockets[target].currentCall == None;
    forall x | CurrentOf(st', x) == Some(id) ensures UserOf(st', x) != Some(to) {
      assert CurrentOf(st', target) == None && UserOf(st, target) == Some(to);
    }
    assert !HeldBy(st', id, to);
  }

  /** An accepted call leaves the calls that were live held on both sides if and only if the
      socket it was placed on was in none: its call id is overwritten. */
  lemma AcceptKeepsHeldIff(st: State, e: Event)
    requires Inv(st) && Held(st) && SoleHolders(st) && Legal(st, e) && Accepted(st, e)
    ensures Held(Step(st, e)) <==> !InLiveCall(st, e.ws)
  {
    CallsAfterAccept(st, e);
    if InLiveCall(st, e.ws) {
      AcceptOrphans(st, e);
    } else {
      AcceptHolds(st, e);
    }
  }

  lemma AcceptOrphans(st: State, e: Event)
    requires Inv(st) && SoleHolders(st) && Legal(st, e) && Accepted(st, e) && InLiveCall(st, e.ws)
    ensures !Held(Step(st, e))
  {
    var id, me := CurrentOf(st, e.ws).value, UserOf(st, e.ws).value;
    CallsAfterAccept(st, e);
    LiveMeansBusy(st, e.ws);
    var st' := Step(st, e);
    forall x | UserOf(st', x) == Some(me) ensures CurrentOf(st', x) != Some(id) {
      CurrentAfterAccept(st, e, x);
    }
    assert id in st'.calls && Party(st'.calls[id], me) && !HeldBy(st', id, me);
  }

  /** What orphans no call: a hangup to nobody else's call, and a call from a socket that is
      in none; every other event. */
  predicate OrphansNoCall(st: State, e: Event)
    requires Legal(st, e)
  {
    match e
    case PlaceCall(ws, _, _, _) => Accepted(st, e) ==> !InLiveCall(st, ws)
    case HangUp(ws, to) => st.sockets[ws].user.Some? ==> Harmless(st, ws, to)
    case _ => true
  }

  lemma OthersKeepHeld(st: State, e: Event)
    requires Inv(st) && Held(st) && Legal(st, e) && !Accepted(st, e) && !e.HangUp?
    ensures Held(Step(st, e))
  {
    CallsOtherwise(st, e);
    if e.PlaceCall? {
      MessagesKeep(st, e);
      assert forall ws :: CurrentOf(Step(st, e), ws) == CurrentOf(st, ws) && UserOf(Step(st, e), ws) == UserOf(st, ws);
    } else {
      StepKeeps(st, e);
    }
    HeldIfKept(st, Step(st, e));
  }

  lemma UnauthenticatedHangUp(st: State, e: Event)
    requires Legal(st, e) && e.HangUp? && st.sockets[e.ws].user.None?
    ensures Step(st, e).calls == st.calls && Step(st, e).sockets == st.sockets
  {
  }

  /** For every event: the live calls stay held on both sides if and only if it is one of those. */
  lemma EventKeepsHeldIff(st: State, e: Event)
    requires Inv(st) && Held(st) && SoleHolders(st) && Legal(st, e)
    ensures Held(Step(st, e)) <==> OrphansNoCall(st, e)
  {
    if Accepted(st, e) {
      AcceptKeepsHeldIff(st, e);
    } else if e.HangUp? && st.sockets[e.ws].user.Some? {
      HangUpKeepsCallsHeldIff(st, e.ws, e.to);
    } else if e.HangUp? {
      UnauthenticatedHangUp(st, e);
      assert forall ws :: CurrentOf(Step(st, e), ws) == CurrentOf(st, ws) && UserOf(Step(st, e), ws) == UserOf(st, ws);
      HeldIfKept(st, Step(st, e));
    } else {
      OthersKeepHeld(st, e);
    }
  }

  ghost predicate HeldThroughout(es: seq<Event>)
    requires IsRun(es)
    decreases |es|
  {
    Held(After(es)) && (es != [] ==> HeldThroughout(es[..|es| - 1]))
  }

  ghost predicate NothingOrphaned(es: seq<Event>)
    requires IsRun(es)
    decreases |es|
  {
    es == [] || (NothingOrphaned(es[..|es| - 1]) && OrphansNoCall(After(es[..|es| - 1]), es[|es| - 1]))
  }

  /** For every run: each live call is held on both sides all along if and only if no event
      orphaned one, whatever else the clients did; and then no record outlives the sockets. */
  lemma {:induction false} HeldThroughoutIff(es: seq<Event>)
    requires IsRun(es) && IsFreshRun(es)
    ensures HeldThroughout(es) <==> NothingOrphaned(es)
    ensures NothingOrphaned(es) && After(es).sockets == map[] ==> After(es).calls == map[]
    decreases |es|
  {
    if es != [] {
      var before, e := es[..|es| - 1], es[|es| - 1];
      HeldThroughoutIff(before);
      LiveCallsFormForest(before);
      CallsHaveSoleHolders(before);
      if HeldThroughout(before) {
        assert Held(After(before));
        EventKeepsHeldIff(After(before), e);
      }
    }
    if HeldThroughout(es) {
      ALiveCallNeedsASocket(After(es));
    }
  }

  // -------------------------------------------------------------- when the sockets close

  /** A live call that no socket holds. */
  ghost predicate Orphaned(st: State, id: string) {
    id in st.calls && forall ws :: CurrentOf(st, ws) != Some(id)
  }

  /** Closing a socket neither orphans a call nor ends one that is orphaned. */
  lemma CloseKeepsOrphaned(st: State, ws: SocketId, id: string)
    requires Inv(st) && ws in st.sockets
    ensures Orphaned(HandleClose(st, ws), id) <==> Orphaned(st, id)
  {
    InvRegistered(st);
    var st' := HandleClose(st, ws);
    assert CurrentOf(st, ws).Some? ==> UserOf(st, ws).Some?;
    forall x ensures CurrentOf(st', x) == if x == ws then None else CurrentOf(st, x) {
    }
    if Orphaned(st', id) {
      forall x ensures CurrentOf(st, x) != Some(id) {
        assert CurrentOf(st', x) != Some(id);
      }
    }
    if Orphaned(st, id) {
      assert CurrentOf(st, ws) != Some(id);
      forall x ensures CurrentOf(st', x) != Some(id) {
        assert CurrentOf(st, x) != Some(id);
      }
    }
  }

  lemma {:induction false} PrefixIsRun(es: seq<Event>, n: nat)
    requires IsRun(es) && n <= |es|
    ensures IsRun(es[..n])
    decreases |es|
  {
    if n == |es| {
      assert es[..n] == es;
    } else {
      PrefixIsRun(es[..|es| - 1], n);
      assert es[..|es| - 1][..n] == es[..n];
    }
  }

  lemma {:induction false} OrphanedThroughCloses(es: seq<Event>, n: nat, id: string)
    requires IsRun(es) && n <= |es| && IsRun(es[..n]) && forall k :: n <= k < |es| ==> es[k].Close?
    ensures Orphaned(After(es), id) <==> Orphaned(After(es[..n]), id)
    decreases |es|
  {
    if n == |es| {
      assert es[..n] == es;
    } else {
      var before := es[..|es| - 1];
      assert before[..n] == es[..n];
      OrphanedThroughCloses(before, n, id);
      LiveCallsFormForest(before);
      CloseKeepsOrphaned(After(before), es[|es| - 1].ws, id);
    }
  }

  /** For every run that ends with the sockets all closing: a record outlives them if and only
      if its call was live and no socket held it any more when the closing began. */
  lemma OutlivesTheSocketsIff(es: seq<Event>, n: nat, id: string)
    requires IsRun(es) && n <= |es| && (forall k :: n <= k < |es| ==> es[k].Close?) && After(es).sockets == map[]
    ensures IsRun(es[..n])
    ensures id in After(es).calls <==>
            id in After(es[..n]).calls && forall ws :: CurrentOf(After(es[..n]), ws) != Some(id)
  {
    PrefixIsRun(es, n);
    OrphanedThroughCloses(es, n, id);
    assert forall ws :: CurrentOf(After(es), ws) == None;
  }

  // -------------------------------------------------------------------- witnesses

  lemma Extend(es: seq<Event>, e: Event)
    requires IsRun(es) && Legal(After(es), e)
    ensures IsRun(es + [e]) && After(es + [e]) == Step(After(es), e)
  {
    assert (es + [e])[..|es + [e]| - 1] == es;
  }

  function UserA(): UserId { seq(ID_LENGTH, i => 'a') }
  function UserB(): UserId { seq(ID_LENGTH, i => 'b') }
  function UserC(): UserId { seq(ID_LENGTH, i => 'c') }
  function UserD(): UserId { seq(ID_LENGTH, i => 'd') }

  lemma FourUsers()
    ensures UserA() != UserB() && UserA() != UserC() && UserA() != UserD()
    ensures UserB() != UserC() && UserB() != UserD() && UserC() != UserD()
  {
    assert UserA()[0] != UserB()[0] && UserA()[0] != UserC()[0] && UserA()[0] != UserD()[0];
    assert UserB()[0] != UserC()[0] && UserB()[0] != UserD()[0] && UserC()[0] != UserD()[0];
  }

  /** Nobody hangs up or declines. */
  ghost predicate OnlyCalls(es: seq<Event>) {
    forall k :: 0 <= k < |es| ==> !es[k].HangUp? && !es[k].Decline?
  }

  lemma {:induction false} GoOnline(es: seq<Event>, ws: SocketId, u: UserId) returns (longer: seq<Event>)
    requires IsRun(es) && OnlyCalls(es) && ws !in After(es).sockets && u !in After(es).online && IsUserId(u)
    ensures IsRun(longer) && OnlyCalls(longer) && After(longer).calls == After(es).calls
    ensures After(longer).online == After(es).online[u := ws]
    ensures After(longer).sockets == After(es).sockets[ws := Socket(Some(u), None, true, true)]
  {
    Extend(es, Connect(ws));
    var mid := es + [Connect(ws)];
    Extend(mid, Auth(ws, u));
    longer := mid + [Auth(ws, u)];
  }

  /** Four users online, each on one socket, 0 to 3, in no call. */
  lemma FourOnline() returns (es: seq<Event>)
    ensures IsRun(es) && OnlyCalls(es) && After(es).calls == map[]
    ensures After(es).online == map[UserA() := 0, UserB() := 1, UserC() := 2, UserD() := 3]
    ensures UserOf(After(es), 0) == Some(UserA()) && UserOf(After(es), 1) == Some(UserB())
    ensures UserOf(After(es), 2) == Some(UserC())
    ensures forall ws :: CurrentOf(After(es), ws) == None
  {
    FourUsers();
    es := GoOnline([], 0, UserA());
    es := GoOnline(es, 1, UserB());
    es := GoOnline(es, 2, UserC());
    es := GoOnline(es, 3, UserD());
  }

  /** What an accepted call does to the tables, seen from outside. */
  lemma Ring(es: seq<Event>, ws: SocketId, me: UserId, to: UserId, now: nat) returns (longer: seq<Event>)
    requires IsRun(es) && UserOf(After(es), ws) == Some(me) && me != to && to != ""
    requires to in After(es).online && !Busy(After(es).calls, to)
    ensures longer == es + [PlaceCall(ws, to, "sdp", now)] && IsRun(longer)
    ensures After(longer).online == After(es).online
    ensures After(longer).calls == After(es).calls[CallId(me, to, now) := Call(me, to)]
    ensures forall x :: UserOf(After(longer), x) == UserOf(After(es), x)
    ensures forall x :: CurrentOf(After(longer), x) ==
              if x == ws || x == After(es).online[to] then Some(CallId(me, to, now)) else CurrentOf(After(es), x)
  {
    var e := PlaceCall(ws, to, "sdp", now);
    LiveCallsFormForest(es);
    Extend(es, e);
    longer := es + [e];
    CallsAfterAccept(After(es), e);
    forall x
      ensures UserOf(After(longer), x) == UserOf(After(es), x)
      ensures CurrentOf(After(longer), x) ==
              if x == ws || x == After(es).online[to] then Some(CallId(me, to, now)) else CurrentOf(After(es), x)
    {
      CurrentAfterAccept(After(es), e, x);
    }
  }

  /** A user can be the caller of two live calls at once. */
  lemma OneUserInTwoCalls() returns (es: seq<Event>)
    ensures IsRun(es) && !Matching(After(es).calls)
  {
    FourUsers();
    es := FourOnline();
    es := Ring(es, 0, UserA(), UserB(), 1);
    LiveCallsFormForest(es);
    var second := PlaceCall(0, UserC(), "sdp", 2);
    assert After(es).calls[CallId(UserA(), UserB(), 1)] == Call(UserA(), UserB());
    MatchingKeptIffCallerWasFree(After(es), second);
    Extend(es, second);
    es := es + [second];
  }

  /** Sockets can all close, and a record whose id none of them holds stays. */
  lemma {:induction false} CloseAllSockets(es: seq<Event>, id: string) returns (longer: seq<Event>)
    requires IsRun(es) && id in After(es).calls && forall ws :: CurrentOf(After(es), ws) != Some(id)
    ensures IsRun(longer) && After(longer).sockets == map[]
    ensures id in After(longer).calls && After(longer).calls[id] == After(es).calls[id]
    ensures es <= longer && forall k :: |es| <= k < |longer| ==> longer[k].Close?
    decreases |After(es).sockets|
  {
    if After(es).sockets == map[] {
      longer := es;
    } else {
      var ws :| ws in After(es).sockets;
      Extend(es, Close(ws));
      assert CurrentOf(After(es), ws) != Some(id);
      var mid := es + [Close(ws)];
      assert After(mid).sockets == After(es).sockets - {ws};
      assert ws !in After(es).sockets.Keys - {ws};
      assert forall x :: CurrentOf(After(mid), x) != Some(id) by {
        forall x ensures CurrentOf(After(mid), x) != Some(id) {
          assert CurrentOf(After(es), x) != Some(id);
        }
      }
      longer := CloseAllSockets(mid, id);
      assert longer[|es|] == mid[|es|];
    }
  }

  /** A calls B, then C, and B calls D: neither A's socket nor B's holds their call any more. */
  lemma ThreeCalls() returns (es: seq<Event>)
    ensures IsRun(es) && OnlyCalls(es)
    ensures CallId(UserA(), UserB(), 1) in After(es).calls
    ensures After(es).calls[CallId(UserA(), UserB(), 1)] == Call(UserA(), UserB())
    ensures forall ws :: CurrentOf(After(es), ws) != Some(CallId(UserA(), UserB(), 1))
  {
    FourUsers();
    es := FourOnline();
    CallIdParses(UserA(), UserB(), 1);
    CallIdParses(UserA(), UserC(), 2);
    CallIdParses(UserB(), UserD(), 3);
    es := Ring(es, 0, UserA(), UserB(), 1);
    es := Ring(es, 0, UserA(), UserC(), 2);
    es := Ring(es, 1, UserB(), UserD(), 3);
  }

  /** So calls alone can leave a record that outlives every socket: B counts as busy for ever. */
  lemma CallsAloneOrphanARecord() returns (es: seq<Event>)
    ensures IsRun(es) && OnlyCalls(es) && After(es).sockets == map[] && Busy(After(es).calls, UserB())
  {
    var calls := ThreeCalls();
    es := CloseAllSockets(calls, CallId(UserA(), UserB(), 1));
    forall k | 0 <= k < |es| ensures !es[k].HangUp? && !es[k].Decline? {
      if k < |calls| {
        assert es[k] == calls[k];
      }
    }
  }

  /** A socket that is in no call can hang up on anybody. */
  lemma {:induction false} StrayHangUp(es: seq<Event>, ws: SocketId, to: UserId) returns (longer: seq<Event>)
    requires IsRun(es) && UserOf(After(es), ws).Some? && CurrentOf(After(es), ws) == None
    ensures IsRun(longer) && After(longer).calls == After(es).calls && After(longer).online == After(es).online
    ensures forall x :: UserOf(After(longer), x) == UserOf(After(es), x)
    ensures forall x :: CurrentOf(After(longer), x) ==
              if to in After(es).online && x == After(es).online[to] then None else CurrentOf(After(es), x)
  {
    var st := After(es);
    LiveCallsFormForest(es);
    InvRegistered(st);
    Extend(es, HangUp(ws, to));
    longer := es + [HangUp(ws, to)];
    ReleaseCurrent(st, to, ws);
    forall x
      ensures UserOf(After(longer), x) == UserOf(st, x)
      ensures CurrentOf(After(longer), x) ==
              if to in st.online && x == st.online[to] then None else CurrentOf(st, x)
    {
      ReleaseCurrent(st, to, x);
      DropKeeps(ReleasePeer(st, to), ws, x);
    }
  }

  /** So can one stray client by its hangups. */
  lemma RecordOutlivesAllSockets() returns (es: seq<Event>)
    ensures IsRun(es) && After(es).sockets == map[] && Busy(After(es).calls, UserB())
  {
    FourUsers();
    es := FourOnline();
    var id := CallId(UserA(), UserB(), 1);
    es := Ring(es, 0, UserA(), UserB(), 1);
    es := StrayHangUp(es, 2, UserA());
    es := StrayHangUp(es, 2, UserB());
    assert After(es).calls[id] == Call(UserA(), UserB());
    es := CloseAllSockets(es, id);
  }
}
