/** The one-to-one call half of server/src/signaling/signalingServer.js, on values.

    A socket that is in `sockets` has not yet had its close handler run.  `open` is
    readyState == OPEN: a terminated or closing socket stays in `sockets` with
    `open` false, may still have messages of its own processed, and is sent nothing. */
module CallModel {
  import opened Wrappers

  type UserId = string
  type SocketId = nat

  /** User ids are UUIDs in their 36-character text form. */
  const ID_LENGTH := 36

  predicate IsUserId(u: UserId) {
    |u| == ID_LENGTH
  }

  datatype Call = Call(caller: UserId, callee: UserId)

  datatype Socket = Socket(user: Option<UserId>, currentCall: Option<string>, open: bool, alive: bool)

  datatype Message =
    | Error(text: string)
    | AuthSuccess(user: UserId)
    | AuthError
    | SessionReplaced
    | UserOffline(target: UserId)
    | UserBusy(target: UserId)
    | CallIncoming(from: UserId, offer: string, callId: string)
    | CallAnswered(answer: string)
    | Ice(candidate: string, from: UserId)
    | CallDeclined(reason: string)
    | Hangup
    | PeerDisconnected

  /** onlineClients, activeCalls, the fields the handlers keep on each ws, and
      everything sent so far, in order. */
  datatype State = State(
    sockets: map<SocketId, Socket>,
    online: map<UserId, SocketId>,
    calls: map<string, Call>,
    sent: seq<(SocketId, Message)>)

  const Initial := State(map[], map[], map[], [])

  /** A field that the source tests for truthiness is a string, and "" stands for a
      missing or falsy one. */
  datatype Event =
    | Connect(ws: SocketId)
    | Auth(ws: SocketId, user: UserId)
    | AuthFailed(ws: SocketId)
    | PlaceCall(ws: SocketId, to: UserId, offer: string, now: nat)
    | Answer(ws: SocketId, to: UserId, answer: string)
    | Candidate(ws: SocketId, to: UserId, candidate: string)
    | Decline(ws: SocketId, to: UserId, reason: string)
    | HangUp(ws: SocketId, to: UserId)
    | Pong(ws: SocketId)
    | Closing(ws: SocketId)
    | Close(ws: SocketId)
    | Reap

  // ---------------------------------------------------------------- call ids

  function Decimal(n: nat): string {
    if n < 10 then ["0123456789"[n]] else Decimal(n / 10) + ["0123456789"[n % 10]]
  }

  function CallId(caller: UserId, callee: UserId, now: nat): string {
    caller + "-" + callee + "-" + Decimal(now)
  }

  /** The number that decimal digits stand for. */
  function Value(digits: string): int {
    if digits == "" then 0
    else 10 * Value(digits[..|digits| - 1]) + (digits[|digits| - 1] as int - '0' as int)
  }

  /** Decimal notation, with no leading zero. */
  lemma {:induction false} DecimalIsNotation(n: nat)
    ensures Decimal(n) != "" && (forall c :: c in Decimal(n) ==> '0' <= c <= '9') && Value(Decimal(n)) == n
    ensures Decimal(n)[0] == '0' ==> n == 0
  {
    if n >= 10 {
      DecimalIsNotation(n / 10);
      var d := Decimal(n / 10);
      assert Decimal(n)[..|d|] == d;
    }
  }

  predicate IsCallId(id: string) {
    |id| > 2 * ID_LENGTH + 1
  }

  function CallerOf(id: string): UserId
    requires IsCallId(id)
  {
    id[..ID_LENGTH]
  }

  function CalleeOf(id: string): UserId
    requires IsCallId(id)
  {
    id[ID_LENGTH + 1..2 * ID_LENGTH + 1]
  }

  /** Ids of equal length make a call id determine both parties, whatever the clock said. */
  lemma CallIdParses(caller: UserId, callee: UserId, now: nat)
    requires IsUserId(caller) && IsUserId(callee)
    ensures IsCallId(CallId(caller, callee, now))
    ensures CallerOf(CallId(caller, callee, now)) == caller
    ensures CalleeOf(CallId(caller, callee, now)) == callee
  {
    var id := CallId(caller, callee, now);
    assert id == caller + ("-" + (callee + ("-" + Decimal(now))));
    assert id[ID_LENGTH + 1..] == callee + ("-" + Decimal(now));
  }

  // ------------------------------------------------------------------- steps

  function SetSocket(st: State, ws: SocketId, sock: Socket): State {
    st.(sockets := st.sockets[ws := sock])
  }

  /** A message is dropped unless the socket is open. */
  function Send(st: State, ws: SocketId, m: Message): State {
    if ws in st.sockets && st.sockets[ws].open then st.(sent := st.sent + [(ws, m)]) else st
  }

  function SendToUser(st: State, u: UserId, m: Message): State {
    if u in st.online then Send(st, st.online[u], m) else st
  }

  function Terminate(st: State, ws: SocketId): State {
    if ws in st.sockets then SetSocket(st, ws, st.sockets[ws].(open := false)) else st
  }

  predicate Busy(calls: map<string, Call>, u: UserId) {
    exists id :: id in calls && (calls[id].caller == u || calls[id].callee == u)
  }

  function HandleAuth(st: State, ws: SocketId, u: UserId): State
    requires ws in st.sockets
  {
    var st1 := SetSocket(st, ws, st.sockets[ws].(user := Some(u)));
    var st2 :=
      if u in st1.online && st1.online[u] != ws
      then Terminate(Send(st1, st1.online[u], SessionReplaced), st1.online[u])
      else st1;
    Send(st2.(online := st2.online[u := ws]), ws, AuthSuccess(u))
  }

  function HandleAuthFailed(st: State, ws: SocketId): State {
    Terminate(Send(st, ws, AuthError), ws)
  }

  function HandleCall(st: State, ws: SocketId, to: UserId, offer: string, now: nat): State
    requires ws in st.sockets && st.sockets[ws].user.Some?
  {
    var me := st.sockets[ws].user.value;
    if to == "" || offer == "" then Send(st, ws, Error("Missing to/offer"))
    else if to == me then Send(st, ws, Error("Cannot call yourself"))
    else if to !in st.online then Send(st, ws, UserOffline(to))
    else if Busy(st.calls, to) then Send(st, ws, UserBusy(to))
    else Connected(st, ws, me, to, offer, CallId(me, to, now))
  }

  /** The accepting branch of the call handler. */
  function Connected(st: State, ws: SocketId, me: UserId, to: UserId, offer: string, id: string): State
    requires ws in st.sockets && to in st.online
  {
    var target := st.online[to];
    var st1 := st.(calls := st.calls[id := Call(me, to)]);
    var st2 := SetSocket(st1, ws, st1.sockets[ws].(currentCall := Some(id)));
    var st3 :=
      if target in st2.sockets
      then SetSocket(st2, target, st2.sockets[target].(currentCall := Some(id)))
      else st2;
    Send(st3, target, CallIncoming(me, offer, id))
  }

  function HandleAnswer(st: State, ws: SocketId, to: UserId, answer: string): State {
    if to == "" || answer == "" then Send(st, ws, Error("Missing to/answer"))
    else SendToUser(st, to, CallAnswered(answer))
  }

  function HandleCandidate(st: State, ws: SocketId, to: UserId, candidate: string): State
    requires ws in st.sockets && st.sockets[ws].user.Some?
  {
    if to == "" || candidate == "" then st
    else SendToUser(st, to, Ice(candidate, st.sockets[ws].user.value))
  }

  /** The socket lets go of its call, and the record of that call goes. */
  function DropCurrent(st: State, ws: SocketId): State
    requires ws in st.sockets
  {
    match st.sockets[ws].currentCall
    case None => st
    case Some(id) =>
      SetSocket(st.(calls := st.calls - {id}), ws, st.sockets[ws].(currentCall := None))
  }

  function HandleDecline(st: State, ws: SocketId, to: UserId, reason: string): State
    requires ws in st.sockets
  {
    DropCurrent(SendToUser(st, to, CallDeclined(if reason == "" then "busy" else reason)), ws)
  }

  /** The hangup handler's effect on the registered socket of `to`. */
  function ReleasePeer(st: State, to: UserId): State {
    if to in st.online && st.online[to] in st.sockets
    then SetSocket(Send(st, st.online[to], Hangup), st.online[to],
                   st.sockets[st.online[to]].(currentCall := None))
    else st
  }

  function HandleHangUp(st: State, ws: SocketId, to: UserId): State
    requires ws in st.sockets
  {
    DropCurrent(ReleasePeer(st, to), ws)
  }

  function HandleClose(st: State, ws: SocketId): State
    requires ws in st.sockets
  {
    var sock := st.sockets[ws];
    var rest := st.(sockets := st.sockets - {ws});
    if sock.user.None? then rest
    else
      var off := rest.(online := rest.online - {sock.user.value});
      if sock.currentCall.Some? && sock.currentCall.value in off.calls then
        var call := off.calls[sock.currentCall.value];
        var peer := if call.caller == sock.user.value then call.callee else call.caller;
        var told := SendToUser(off, peer, PeerDisconnected);
        told.(calls := told.calls - {sock.currentCall.value})
      else off
  }

  /** The users of the sockets that missed a heartbeat. */
  function DeadUsers(st: State): set<UserId> {
    set ws | ws in st.sockets && !st.sockets[ws].alive && st.sockets[ws].user.Some?
      :: st.sockets[ws].user.value
  }

  /** One tick of the heartbeat interval: sockets that did not pong since the last tick
      lose their user's registration and are terminated, the others are pinged. */
  function HandleReap(st: State): State {
    st.(sockets := map ws | ws in st.sockets ::
          if st.sockets[ws].alive then st.sockets[ws].(alive := false) else st.sockets[ws].(open := false),
        online := st.online - DeadUsers(st))
  }

  /** Messages other than auth need an authenticated socket. */
  function Authenticated(st: State, ws: SocketId, handled: State): State {
    if ws in st.sockets && st.sockets[ws].user.Some? then handled
    else Send(st, ws, Error("Not authenticated"))
  }

  function Step(st: State, e: Event): State
    requires Legal(st, e)
  {
    match e
    case Connect(ws) => SetSocket(st, ws, Socket(None, None, true, true))
    case Auth(ws, u) => HandleAuth(st, ws, u)
    case AuthFailed(ws) => HandleAuthFailed(st, ws)
    case PlaceCall(ws, to, offer, now) =>
      if st.sockets[ws].user.Some? then HandleCall(st, ws, to, offer, now)
      else Send(st, ws, Error("Not authenticated"))
    case Answer(ws, to, answer) => Authenticated(st, ws, HandleAnswer(st, ws, to, answer))
    case Candidate(ws, to, c) =>
      if st.sockets[ws].user.Some? then HandleCandidate(st, ws, to, c)
      else Send(st, ws, Error("Not authenticated"))
    case Decline(ws, to, reason) => Authenticated(st, ws, HandleDecline(st, ws, to, reason))
    case HangUp(ws, to) => Authenticated(st, ws, HandleHangUp(st, ws, to))
    case Pong(ws) => SetSocket(st, ws, st.sockets[ws].(alive := true))
    case Closing(ws) => Terminate(st, ws)
    case Close(ws) => HandleClose(st, ws)
    case Reap => HandleReap(st)
  }

  /** What the environment guarantees: events come from sockets that have not closed, a
      new socket is new, and a socket authenticates as one user, whose id is a UUID. */
  predicate Legal(st: State, e: Event) {
    match e
    case Connect(ws) => ws !in st.sockets
    case Auth(ws, u) =>
      ws in st.sockets && IsUserId(u) &&
      (st.sockets[ws].user.Some? ==> st.sockets[ws].user.value == u)
    case Reap => true
    case _ => e.ws in st.sockets
  }

  // -------------------------------------------------------------------- runs

  /** A run: the events so far, oldest first, each legal where it happened. */
  predicate IsRun(es: seq<Event>)
    decreases |es|, 0
  {
    es == [] || (IsRun(es[..|es| - 1]) && Legal(After(es[..|es| - 1]), es[|es| - 1]))
  }

  function After(es: seq<Event>): State
    requires IsRun(es)
    decreases |es|, 1
  {
    if es == [] then Initial else Step(After(es[..|es| - 1]), es[|es| - 1])
  }
}
