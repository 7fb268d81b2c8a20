/** What every reachable state of the call server satisfies, whatever the clients do:
    call records agree with the sockets that hold their ids, and the live calls, read
    as edges from caller to callee, form a directed forest. */
module CallForest {
  import opened Wrappers
  import opened CallModel

  /** A held call id, live or stale, always names its holder. */
  predicate Holds(sock: Socket, id: string) {
    sock.currentCall == Some(id) && IsCallId(id) && sock.user.Some? &&
    (sock.user.value == CallerOf(id) || sock.user.value == CalleeOf(id))
  }

  ghost predicate Inv(st: State) {
    && (forall ws :: ws in st.sockets && st.sockets[ws].user.Some? ==> IsUserId(st.sockets[ws].user.value))
    && (forall u :: u in st.online ==>
          st.online[u] in st.sockets && st.sockets[st.online[u]].user == Some(u))
    && (forall id :: id in st.calls ==>
          IsCallId(id) && st.calls[id] == Call(CallerOf(id), CalleeOf(id)) && CallerOf(id) != CalleeOf(id))
    && (forall ws :: ws in st.sockets && st.sockets[ws].currentCall.Some? ==>
          Holds(st.sockets[ws], st.sockets[ws].currentCall.value))
  }

  // ------------------------------------------------------------------ forest

  ghost predicate Edge(calls: map<string, Call>, a: UserId, b: UserId) {
    exists id :: id in calls && calls[id] == Call(a, b)
  }

  ghost predicate IsPath(calls: map<string, Call>, p: seq<UserId>) {
    forall i :: 0 <= i < |p| - 1 ==> Edge(calls, p[i], p[i + 1])
  }

  lemma EmptyForest()
    ensures Forest(map[])
  {
    forall p: seq<UserId> | |p| >= 2 ensures !IsPath(map[], p) {
      assert !Edge(map[], p[0], p[0 + 1]);
    }
  }

  /** No user is the callee of two calls, and no path of any length closes on itself. */
  ghost predicate Forest(calls: map<string, Call>) {
    && (forall i, j :: i in calls && j in calls && calls[i].callee == calls[j].callee ==> i == j)
    && (forall p :: |p| >= 2 && IsPath(calls, p) ==> p[0] != p[|p| - 1])
  }

  lemma ForestAfterRemoval(calls: map<string, Call>, rest: map<string, Call>)
    requires Forest(calls)
    requires forall id :: id in rest ==> id in calls && rest[id] == calls[id]
    ensures Forest(rest)
  {
    forall p | |p| >= 2 && IsPath(rest, p) ensures p[0] != p[|p| - 1] {
      forall i | 0 <= i < |p| - 1 ensures Edge(calls, p[i], p[i + 1]) {
        assert Edge(rest, p[i], p[i + 1]);
      }
      assert IsPath(calls, p);
    }
  }

  lemma CycleAvoidsSink(calls: map<string, Call>, p: seq<UserId>, b: UserId)
    requires |p| >= 2 && IsPath(calls, p) && p[0] == p[|p| - 1]
    requires forall x :: !Edge(calls, b, x)
    ensures b !in p
  {
    forall k | 0 <= k < |p| - 1 ensures p[k] != b {
      assert Edge(calls, p[k], p[k + 1]);
    }
  }

  lemma PathWithoutNewEdge(calls: map<string, Call>, id: string, a: UserId, b: UserId, p: seq<UserId>)
    requires IsPath(calls[id := Call(a, b)], p) && b !in p
    ensures IsPath(calls, p)
  {
    forall i | 0 <= i < |p| - 1 ensures Edge(calls, p[i], p[i + 1]) {
      assert Edge(calls[id := Call(a, b)], p[i], p[i + 1]);
      assert p[i + 1] in p;
    }
  }

  /** A new edge into a user who is in no call closes no cycle: that user has no edge out. */
  lemma ForestAfterCall(calls: map<string, Call>, id: string, a: UserId, b: UserId)
    requires Forest(calls) && a != b && !Busy(calls, b)
    ensures Forest(calls[id := Call(a, b)])
  {
    var grown := calls[id := Call(a, b)];
    forall p | |p| >= 2 && IsPath(grown, p) ensures p[0] != p[|p| - 1] {
      if p[0] == p[|p| - 1] {
        CycleAvoidsSink(grown, p, b);
        PathWithoutNewEdge(calls, id, a, b, p);
      }
    }
  }

  // -------------------------------------------------------------- preservation

  /** The event is a call request that its handler accepts. */
  predicate Accepted(st: State, e: Event)
    requires Legal(st, e)
  {
    e.PlaceCall? && st.sockets[e.ws].user.Some? && e.to != "" && e.offer != "" &&
    e.to != st.sockets[e.ws].user.value && e.to in st.online && !Busy(st.calls, e.to)
  }

  /** The only writer of activeCalls adds one record under an id that is not live. */
  lemma CallsAfterAccept(st: State, e: Event)
    requires Inv(st) && Legal(st, e) && Accepted(st, e)
    ensures var me := st.sockets[e.ws].user.value;
            var id := CallId(me, e.to, e.now);
            IsUserId(me) && IsUserId(e.to) && id !in st.calls &&
            Step(st, e).calls == st.calls[id := Call(me, e.to)]
  {
    var me := st.sockets[e.ws].user.value;
    var target := st.online[e.to];
    assert st.sockets[target].user == Some(e.to);
    CallIdParses(me, e.to, e.now);
  }

  lemma CallsOtherwise(st: State, e: Event)
    requires Legal(st, e) && !Accepted(st, e)
    ensures forall id :: id in Step(st, e).calls ==>
              id in st.calls && Step(st, e).calls[id] == st.calls[id]
  {
  }

  lemma InvSend(st: State, ws: SocketId, m: Message)
    requires Inv(st)
    ensures Inv(Send(st, ws, m))
  {
  }

  lemma InvTerminate(st: State, ws: SocketId)
    requires Inv(st)
    ensures Inv(Terminate(st, ws))
  {
  }

  lemma InvAfterAuth(st: State, ws: SocketId, u: UserId)
    requires Inv(st) && Legal(st, Auth(ws, u))
    ensures Inv(HandleAuth(st, ws, u))
  {
    var st1 := SetSocket(st, ws, st.sockets[ws].(user := Some(u)));
    assert Inv(st1);
    var st2 := st1;
    if u in st1.online && st1.online[u] != ws {
      InvSend(st1, st1.online[u], SessionReplaced);
      InvTerminate(Send(st1, st1.online[u], SessionReplaced), st1.online[u]);
      st2 := Terminate(Send(st1, st1.online[u], SessionReplaced), st1.online[u]);
    }
    assert st2.sockets[ws].user == Some(u);
    var st3 := st2.(online := st2.online[u := ws]);
    assert Inv(st3);
    InvSend(st3, ws, AuthSuccess(u));
  }

  lemma InvDropCurrent(st: State, ws: SocketId)
    requires Inv(st) && ws in st.sockets
    ensures Inv(DropCurrent(st, ws))
  {
  }

  lemma InvReleasePeer(st: State, to: UserId)
    requires Inv(st)
    ensures Inv(ReleasePeer(st, to))
  {
    if to in st.online {
      InvSend(st, st.online[to], Hangup);
    }
  }

  lemma {:induction false} InvAfterConnected(st: State, e: Event)
    requires Inv(st) && Legal(st, e) && Accepted(st, e)
    ensures Inv(Step(st, e))
  {
    var me, target, st' := st.sockets[e.ws].user.value, st.online[e.to], Step(st, e);
    var id := CallId(me, e.to, e.now);
    CallsAfterAccept(st, e);
    CallIdParses(me, e.to, e.now);
    assert st.sockets[target].user == Some(e.to);
    var caller, callee := st.sockets[e.ws].(currentCall := Some(id)), st.sockets[target].(currentCall := Some(id));
    assert Holds(caller, id) && Holds(callee, id);
    assert st'.sockets == st.sockets[e.ws := caller][target := callee] && st'.online == st.online;
  }

  lemma InvAfterClose(st: State, ws: SocketId)
    requires Inv(st) && ws in st.sockets
    ensures Inv(HandleClose(st, ws))
  {
    var st' := HandleClose(st, ws);
    assert st'.sockets == st.sockets - {ws};
    forall u | u in st'.online
      ensures st'.online[u] in st'.sockets && st'.sockets[st'.online[u]].user == Some(u)
    {
      assert st.sockets[st.online[u]].user == Some(u);
    }
  }

  lemma InvAfterReap(st: State)
    requires Inv(st)
    ensures Inv(HandleReap(st))
  {
  }

  predicate Relays(e: Event) {
    e.Connect? || e.Answer? || e.Candidate? || e.Pong?
  }

  lemma InvRelays(st: State, e: Event)
    requires Inv(st) && Legal(st, e) && Relays(e)
    ensures Inv(Step(st, e))
  {
  }

  lemma {:induction false} InvStep(st: State, e: Event)
    requires Inv(st) && Legal(st, e)
    ensures Inv(Step(st, e))
  {
    match e
    case Connect(_) => InvRelays(st, e);
    case Auth(ws, u) => InvAfterAuth(st, ws, u);
    case AuthFailed(ws) =>
      InvSend(st, ws, AuthError);
      InvTerminate(Send(st, ws, AuthError), ws);
    case PlaceCall(ws, to, offer, now) =>
      if Accepted(st, e) { InvAfterConnected(st, e); }
    case Answer(_, _, _) => InvRelays(st, e);
    case Candidate(_, _, _) => InvRelays(st, e);
    case Decline(ws, to, reason) =>
      var told := SendToUser(st, to, CallDeclined(if reason == "" then "busy" else reason));
      assert Inv(told);
      InvDropCurrent(told, ws);
    case HangUp(ws, to) =>
      InvReleasePeer(st, to);
      InvDropCurrent(ReleasePeer(st, to), ws);
    case Pong(_) => InvRelays(st, e);
    case Closing(ws) => InvTerminate(st, ws);
    case Close(ws) => InvAfterClose(st, ws);
    case Reap => InvAfterReap(st);
  }

  lemma ForestStep(st: State, e: Event)
    requires Inv(st) && Legal(st, e) && Forest(st.calls)
    ensures Forest(Step(st, e).calls)
  {
    if Accepted(st, e) {
      CallsAfterAccept(st, e);
      var me := st.sockets[e.ws].user.value;
      ForestAfterCall(st.calls, CallId(me, e.to, e.now), me, e.to);
    } else {
      CallsOtherwise(st, e);
      ForestAfterRemoval(st.calls, Step(st, e).calls);
    }
  }

  lemma {:induction false} LiveCallsFormForest(es: seq<Event>)
    requires IsRun(es)
    ensures Inv(After(es)) && Forest(After(es).calls)
    decreases |es|
  {
    if es == [] {
      EmptyForest();
    } else {
      LiveCallsFormForest(es[..|es| - 1]);
      InvStep(After(es[..|es| - 1]), es[|es| - 1]);
      ForestStep(After(es[..|es| - 1]), es[|es| - 1]);
    }
  }

  /** No accepted call overwrites a live one, over any run. */
  lemma NoLiveCallIsOverwritten(es: seq<Event>, e: Event)
    requires IsRun(es) && Legal(After(es), e) && Accepted(After(es), e)
    ensures CallId(After(es).sockets[e.ws].user.value, e.to, e.now) !in After(es).calls
  {
    LiveCallsFormForest(es);
    CallsAfterAccept(After(es), e);
  }

  // ---------------------------------------------------------------- ownership

  /** A live record disappears only through its own id on a socket of one of its two
      parties, in that socket's decline, hangup or close. */
  lemma OnlyAPartyEndsACall(es: seq<Event>, e: Event, id: string)
    requires IsRun(es) && Legal(After(es), e)
    requires id in After(es).calls && id !in Step(After(es), e).calls
    ensures e.Decline? || e.HangUp? || e.Close?
    ensures After(es).sockets[e.ws].user.Some?
    ensures After(es).sockets[e.ws].currentCall == Some(id)
    ensures After(es).sockets[e.ws].user.value in {After(es).calls[id].caller, After(es).calls[id].callee}
  {
    LiveCallsFormForest(es);
    OwnerEndsCall(After(es), e, id);
  }

  lemma RelaysKeepCalls(st: State, e: Event)
    requires Legal(st, e) && Relays(e)
    ensures Step(st, e).calls == st.calls
  {
  }

  lemma SessionsKeepCalls(st: State, e: Event)
    requires Legal(st, e) && (e.Auth? || e.AuthFailed? || e.Closing? || e.Reap?)
    ensures Step(st, e).calls == st.calls
  {
  }

  lemma DeclineDropsOwn(st: State, ws: SocketId, to: UserId, reason: string, id: string)
    requires Inv(st) && ws in st.sockets && id in st.calls
    requires id !in HandleDecline(st, ws, to, reason).calls
    ensures Holds(st.sockets[ws], id)
  {
  }

  lemma CloseDropsOwn(st: State, ws: SocketId, id: string)
    requires Inv(st) && Legal(st, Close(ws)) && id in st.calls && id !in HandleClose(st, ws).calls
    ensures Holds(st.sockets[ws], id)
  {
  }

  lemma {:induction false} OwnerEndsCall(st: State, e: Event, id: string)
    requires Inv(st) && Legal(st, e) && id in st.calls && id !in Step(st, e).calls
    ensures e.Decline? || e.HangUp? || e.Close?
    ensures Holds(st.sockets[e.ws], id)
  {
    match e
    case PlaceCall(_, _, _, _) => if Accepted(st, e) { CallsAfterAccept(st, e); }
    case Decline(ws, to, reason) => DeclineDropsOwn(st, ws, to, reason, id);
    case HangUp(ws, to) => HangUpDropsOwn(st, ws, to, id);
    case Close(ws) => CloseDropsOwn(st, ws, id);
    case _ => if Relays(e) { RelaysKeepCalls(st, e); } else { SessionsKeepCalls(st, e); }
  }

  lemma HangUpDropsOwn(st: State, ws: SocketId, to: UserId, id: string)
    requires Inv(st) && ws in st.sockets && id in st.calls
    requires id !in HandleHangUp(st, ws, to).calls
    ensures Holds(st.sockets[ws], id)
  {
    var mid := ReleasePeer(st, to);
    assert mid.calls == st.calls;
  }
}
