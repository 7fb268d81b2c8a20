/** When each user is in at most one live call, and when every live call is still held
    by a socket on both sides, so that closing the sockets empties the call table. */
module CallMatching {
  import opened Wrappers
  import opened CallModel
  import opened CallForest

  predicate Party(call: Call, u: UserId) {
    call.caller == u || call.callee == u
  }

  ghost predicate Matching(calls: map<string, Call>) {
    forall i, j :: i in calls && j in calls && i != j ==>
      !Party(calls[j], calls[i].caller) && !Party(calls[j], calls[i].callee)
  }

  /** The call id and the user of a socket that has not closed. */
  function CurrentOf(st: State, ws: SocketId): Option<string> {
    if ws in st.sockets then st.sockets[ws].currentCall else None
  }

  function UserOf(st: State, ws: SocketId): Option<UserId> {
    if ws in st.sockets then st.sockets[ws].user else None
  }

  ghost predicate HeldBy(st: State, id: string, u: UserId) {
    exists ws :: UserOf(st, ws) == Some(u) && CurrentOf(st, ws) == Some(id)
  }

  /** Each live call is the current call of a socket of its caller and of its callee,
      neither of which has closed. */
  ghost predicate Held(st: State) {
    forall id :: id in st.calls ==>
      HeldBy(st, id, st.calls[id].caller) && HeldBy(st, id, st.calls[id].callee)
  }

  /** A hangup message spoils no other call: the registered socket of `to` is in no live
      call, or shares the sender's, as a socket other than the sender. */
  predicate Harmless(st: State, ws: SocketId, to: UserId)
    requires ws in st.sockets
  {
    to in st.online && st.online[to] in st.sockets ==>
      var peer := st.sockets[st.online[to]].currentCall;
      peer.Some? && peer.value in st.calls ==>
        st.online[to] != ws && peer == st.sockets[ws].currentCall
  }

  /** What a well-behaved client does: it calls only when its user is in no live call,
      and what it hangs up is its own. */
  predicate Disciplined(st: State, e: Event)
    requires Legal(st, e)
  {
    match e
    case PlaceCall(ws, to, offer, now) =>
      st.sockets[ws].user.Some? ==> !Busy(st.calls, st.sockets[ws].user.value)
    case HangUp(ws, to) => st.sockets[ws].user.Some? ==> Harmless(st, ws, to)
    case _ => true
  }

  /** In particular a client may always hang up to the other party of its live call. */
  lemma HangingUpOnThePeerIsHarmless(st: State, ws: SocketId, to: UserId, id: string)
    requires Inv(st) && Matching(st.calls) && ws in st.sockets
    requires id in st.calls && st.sockets[ws].currentCall == Some(id)
    requires Party(st.calls[id], to) && st.sockets[ws].user != Some(to)
    ensures Harmless(st, ws, to)
  {
  }

  // ---------------------------------------------------------------- matching

  lemma MatchingAfterCall(calls: map<string, Call>, id: string, a: UserId, b: UserId)
    requires Matching(calls) && id !in calls && a != b && !Busy(calls, b)
    ensures Matching(calls[id := Call(a, b)]) <==> !Busy(calls, a)
  {
    var after := calls[id := Call(a, b)];
    if Busy(calls, a) {
      var j :| j in calls && Party(calls[j], a);
      assert after[j] == calls[j] && Party(after[j], after[id].caller);
    }
  }

  /** "One call per user" is lost exactly when a user already in a call is let call out:
      the handler looks for the callee among the live calls, never for the caller. */
  lemma MatchingKeptIffCallerWasFree(st: State, e: Event)
    requires Inv(st) && Legal(st, e) && Accepted(st, e) && Matching(st.calls)
    ensures Matching(Step(st, e).calls) <==> !Busy(st.calls, st.sockets[e.ws].user.value)
  {
    CallsAfterAccept(st, e);
    var me := st.sockets[e.ws].user.value;
    MatchingAfterCall(st.calls, CallId(me, e.to, e.now), me, e.to);
  }

  lemma {:induction false} MatchingStep(st: State, e: Event)
    requires Inv(st) && Legal(st, e) && Matching(st.calls) && Disciplined(st, e)
    ensures Matching(Step(st, e).calls)
  {
    if Accepted(st, e) {
      MatchingKeptIffCallerWasFree(st, e);
    } else {
      CallsOtherwise(st, e);
    }
  }

  // ----------------------------------------------------------- live on both sides

  /** Sockets keep the live calls they held. */
  ghost predicate Keeps(st: State, st': State) {
    forall ws | CurrentOf(st, ws).Some? && CurrentOf(st, ws).value in st'.calls ::
      CurrentOf(st', ws) == CurrentOf(st, ws) && UserOf(st', ws) == UserOf(st, ws)
  }

  /** No socket comes to hold a call id it did not hold. */
  ghost predicate NoNewHolder(st: State, st': State) {
    forall ws | CurrentOf(st', ws).Some? ::
      CurrentOf(st, ws) == CurrentOf(st', ws) && UserOf(st, ws) == UserOf(st', ws)
  }

  /** What the frame arguments need of Inv. */
  ghost predicate Registered(st: State) {
    && (forall u :: u in st.online ==> st.online[u] in st.sockets)
    && (forall ws | CurrentOf(st, ws).Some? :: UserOf(st, ws).Some?)
  }

  lemma InvRegistered(st: State)
    requires Inv(st)
    ensures Registered(st)
  {
    forall ws | CurrentOf(st, ws).Some? ensures UserOf(st, ws).Some? {
      assert Holds(st.sockets[ws], st.sockets[ws].currentCall.value);
    }
  }

  lemma HeldIfKept(st: State, st': State)
    requires Held(st) && Keeps(st, st')
    requires forall id :: id in st'.calls ==> id in st.calls && st'.calls[id] == st.calls[id]
    ensures Held(st')
  {
    forall id, u | id in st'.calls && Party(st.calls[id], u) ensures HeldBy(st', id, u) {
      assert HeldBy(st, id, u);
      var ws :| UserOf(st, ws) == Some(u) && CurrentOf(st, ws) == Some(id);
      assert CurrentOf(st', ws) == Some(id);
    }
  }

  lemma AuthLeaves(st: State, ws: SocketId, u: UserId, x: SocketId)
    requires Registered(st) && Legal(st, Auth(ws, u))
    ensures CurrentOf(HandleAuth(st, ws, u), x) == CurrentOf(st, x)
    ensures UserOf(HandleAuth(st, ws, u), x) == if x == ws then Some(u) else UserOf(st, x)
  {
  }

  lemma {:induction false} AuthKeeps(st: State, ws: SocketId, u: UserId)
    requires Registered(st) && Legal(st, Auth(ws, u))
    ensures Keeps(st, HandleAuth(st, ws, u)) && NoNewHolder(st, HandleAuth(st, ws, u))
  {
    var st' := HandleAuth(st, ws, u);
    assert UserOf(st, ws).Some? ==> UserOf(st, ws) == Some(u);
    forall x ensures CurrentOf(st', x) == CurrentOf(st, x) && (UserOf(st', x) == if x == ws then Some(u) else UserOf(st, x)) {
      AuthLeaves(st, ws, u, x);
    }
  }

  lemma {:induction false} DeclineKeeps(st: State, ws: SocketId, to: UserId, reason: string)
    requires Registered(st) && ws in st.sockets
    ensures Keeps(st, HandleDecline(st, ws, to, reason)) && NoNewHolder(st, HandleDecline(st, ws, to, reason))
  {
    var told := SendToUser(st, to, CallDeclined(if reason == "" then "busy" else reason));
    assert told.sockets == st.sockets && told.calls == st.calls;
  }

  lemma {:induction false} ReleaseCurrent(st: State, to: UserId, x: SocketId)
    requires Registered(st)
    ensures ReleasePeer(st, to).calls == st.calls && ReleasePeer(st, to).sockets.Keys == st.sockets.Keys
    ensures UserOf(ReleasePeer(st, to), x) == UserOf(st, x)
    ensures CurrentOf(ReleasePeer(st, to), x) ==
            if to in st.online && x == st.online[to] then None else CurrentOf(st, x)
  {
  }

  lemma {:induction false} DropKeeps(st: State, ws: SocketId, x: SocketId)
    requires ws in st.sockets
    ensures UserOf(DropCurrent(st, ws), x) == UserOf(st, x)
    ensures CurrentOf(DropCurrent(st, ws), x) == if x == ws then None else CurrentOf(st, x)
    ensures DropCurrent(st, ws).calls ==
            if CurrentOf(st, ws).Some? then st.calls - {CurrentOf(st, ws).value} else st.calls
  {
  }

  lemma {:induction false} HangUpKeeps(st: State, ws: SocketId, to: UserId)
    requires Registered(st) && ws in st.sockets
    ensures Harmless(st, ws, to) ==> Keeps(st, HandleHangUp(st, ws, to))
    ensures NoNewHolder(st, HandleHangUp(st, ws, to))
  {
    var mid, st' := ReleasePeer(st, to), HandleHangUp(st, ws, to);
    ReleaseCurrent(st, to, ws);
    forall x
      ensures UserOf(st', x) == UserOf(st, x)
      ensures CurrentOf(st', x) ==
              if x == ws || (to in st.online && x == st.online[to]) then None else CurrentOf(st, x)
    {
      ReleaseCurrent(st, to, x);
      DropKeeps(mid, ws, x);
    }
    DropKeeps(mid, ws, ws);
  }

  lemma {:induction false} CloseKeeps(st: State, ws: SocketId)
    requires Registered(st) && ws in st.sockets
    ensures Keeps(st, HandleClose(st, ws)) && NoNewHolder(st, HandleClose(st, ws))
  {
    assert HandleClose(st, ws).sockets == st.sockets - {ws};
  }

  lemma {:induction false} ReapKeeps(st: State)
    ensures Keeps(st, HandleReap(st)) && NoNewHolder(st, HandleReap(st))
  {
  }

  /** Rejected calls, answers and candidates only send. */
  lemma {:induction false} MessagesKeep(st: State, e: Event)
    requires Legal(st, e) && !Accepted(st, e) && (e.PlaceCall? || e.Answer? || e.Candidate?)
    ensures Step(st, e).sockets == st.sockets && Step(st, e).calls == st.calls
  {
  }

  lemma {:induction false} LivenessKeeps(st: State, e: Event)
    requires Legal(st, e) && (e.Connect? || e.AuthFailed? || e.Pong? || e.Closing?)
    ensures Keeps(st, Step(st, e)) && NoNewHolder(st, Step(st, e))
  {
  }

  lemma {:induction false} StepKeeps(st: State, e: Event)
    requires Inv(st) && Legal(st, e) && !Accepted(st, e)
    ensures Disciplined(st, e) ==> Keeps(st, Step(st, e))
    ensures NoNewHolder(st, Step(st, e))
  {
    InvRegistered(st);
    if e.PlaceCall? || e.Answer? || e.Candidate? {
      MessagesKeep(st, e);
    } else if e.Connect? || e.AuthFailed? || e.Pong? || e.Closing? {
      LivenessKeeps(st, e);
    } else if e.Auth? {
      AuthKeeps(st, e.ws, e.user);
    } else if e.Decline? {
      DeclineKeeps(st, e.ws, e.to, e.reason);
    } else if e.HangUp? {
      HangUpKeeps(st, e.ws, e.to);
    } else if e.Close? {
      CloseKeeps(st, e.ws);
    } else {
      ReapKeeps(st);
    }
  }

  lemma CurrentAfterAccept(st: State, e: Event, x: SocketId)
    requires Inv(st) && Legal(st, e) && Accepted(st, e)
    ensures UserOf(Step(st, e), x) == UserOf(st, x)
    ensures CurrentOf(Step(st, e), x) ==
            if x == e.ws || x == st.online[e.to]
            then Some(CallId(st.sockets[e.ws].user.value, e.to, e.now)) else CurrentOf(st, x)
  {
    assert st.online[e.to] in st.sockets;
  }

  /** The socket's current call, if it is live. */
  predicate InLiveCall(st: State, ws: SocketId) {
    CurrentOf(st, ws).Some? && CurrentOf(st, ws).value in st.calls
  }

  /** The call id that a socket holds is live only if the socket's user is a party, hence busy. */
  lemma LiveMeansBusy(st: State, ws: SocketId)
    requires Inv(st) && InLiveCall(st, ws)
    ensures UserOf(st, ws).Some? && Party(st.calls[CurrentOf(st, ws).value], UserOf(st, ws).value)
    ensures Busy(st.calls, UserOf(st, ws).value)
  {
    assert Holds(st.sockets[ws], CurrentOf(st, ws).value);
  }

  lemma AcceptHolds(st: State, e: Event)
    requires Inv(st) && Held(st) && Legal(st, e) && Accepted(st, e) && !InLiveCall(st, e.ws)
    ensures Held(Step(st, e))
  {
    CallsAfterAccept(st, e);
    var me, target := st.sockets[e.ws].user.value, st.online[e.to];
    var id, st' := CallId(me, e.to, e.now), Step(st, e);
    CurrentAfterAccept(st, e, e.ws);
    CurrentAfterAccept(st, e, target);
    assert UserOf(st, e.ws) == Some(me) && UserOf(st, target) == Some(e.to);
    assert HeldBy(st', id, me) && HeldBy(st', id, e.to);
    if InLiveCall(st, target) {
      LiveMeansBusy(st, target);
    }
    forall i, u | i in st.calls && Party(st.calls[i], u) ensures HeldBy(st', i, u) {
      assert HeldBy(st, i, u);
      var ws :| UserOf(st, ws) == Some(u) && CurrentOf(st, ws) == Some(i);
      CurrentAfterAccept(st, e, ws);
    }
  }

  ghost predicate IsDisciplinedRun(es: seq<Event>)
    requires IsRun(es)
    decreases |es|
  {
    es == [] ||
    (IsDisciplinedRun(es[..|es| - 1]) && Disciplined(After(es[..|es| - 1]), es[|es| - 1]))
  }

  /** Over any run of well-behaved clients, through session replacement, reaping and
      sockets closing in any order. */
  lemma {:induction false} DisciplinedCallsAreHeld(es: seq<Event>)
    requires IsRun(es) && IsDisciplinedRun(es)
    ensures Matching(After(es).calls) && Held(After(es))
    decreases |es|
  {
    if es == [] {
    } else {
      var before, e := es[..|es| - 1], es[|es| - 1];
      DisciplinedCallsAreHeld(before);
      LiveCallsFormForest(before);
      MatchingStep(After(before), e);
      if Accepted(After(before), e) {
        if InLiveCall(After(before), e.ws) {
          LiveMeansBusy(After(before), e.ws);
        }
        AcceptHolds(After(before), e);
      } else {
        CallsOtherwise(After(before), e);
        StepKeeps(After(before), e);
        HeldIfKept(After(before), After(es));
      }
    }
  }

  /** A decline, hangup or close on a socket that holds a live call ends that call and no other. */
  lemma EndsTheHeldCall(st: State, e: Event, id: string)
    requires Inv(st) && Legal(st, e) && (e.Decline? || e.HangUp? || e.Close?)
    requires UserOf(st, e.ws).Some? && CurrentOf(st, e.ws) == Some(id) && id in st.calls
    requires e.HangUp? ==> Harmless(st, e.ws, e.to)
    ensures Step(st, e).calls == st.calls - {id}
  {
    InvRegistered(st);
    if e.HangUp? {
      ReleaseCurrent(st, e.to, e.ws);
      DropKeeps(ReleasePeer(st, e.to), e.ws, e.ws);
    }
  }

  /** So in a run of well-behaved clients both parties are free again when either of them
      declines, hangs up or goes. */
  lemma EndingACallFreesBoth(es: seq<Event>, e: Event, id: string)
    requires IsRun(es) && IsDisciplinedRun(es) && Legal(After(es), e) && Disciplined(After(es), e)
    requires e.Decline? || e.HangUp? || e.Close?
    requires UserOf(After(es), e.ws).Some? && CurrentOf(After(es), e.ws) == Some(id) && id in After(es).calls
    ensures var call := After(es).calls[id];
            !Busy(Step(After(es), e).calls, call.caller) && !Busy(Step(After(es), e).calls, call.callee)
  {
    DisciplinedCallsAreHeld(es);
    LiveCallsFormForest(es);
    EndsTheHeldCall(After(es), e, id);
  }

  lemma ALiveCallNeedsASocket(st: State)
    requires Held(st)
    ensures st.calls != map[] ==> st.sockets != map[]
  {
    if st.calls != map[] {
      var id :| id in st.calls;
      assert HeldBy(st, id, st.calls[id].caller);
    }
  }

  lemma NoSocketsNoCalls(es: seq<Event>)
    requires IsRun(es) && IsDisciplinedRun(es) && After(es).sockets == map[]
    ensures After(es).calls == map[]
  {
    DisciplinedCallsAreHeld(es);
    ALiveCallNeedsASocket(After(es));
  }
}
