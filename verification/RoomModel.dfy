/** The room-link half of server/src/signaling/signalingServer.js, on values: a creator
    and one joiner meet on an entry of activeRooms, whichever of them comes first. */
module RoomModel {
  import opened Wrappers

  type SocketId = nat
  type RoomId = string

  /** A socket together with the identity it authenticated as. */
  datatype Peer = Peer(ws: SocketId, user: string, name: string)

  datatype Entry = Entry(caller: Option<Peer>, callee: Option<Peer>, offer: Option<string>, createdAt: Option<nat>)

  datatype Message =
    | RoomCreated(room: RoomId)
    | RoomWaiting(text: string)
    | RoomJoined(offer: string, joiner: string, name: string)
    | RoomAnswered(answer: string)
    | RoomIce(candidate: string)
    | RoomHungUp(room: RoomId)
    | Error(text: string)

  datatype State = State(open: set<SocketId>, rooms: map<RoomId, Entry>, sent: seq<(SocketId, Message)>)

  /** One event per atomic piece of a handler: what create-room and join-room do runs
      after their database call has answered (`found`).  "" stands for a missing field. */
  datatype Event =
    | Opened(ws: SocketId)
    | Shut(ws: SocketId)
    | CreateRoom(peer: Peer, room: RoomId, now: nat)
    | JoinRoom(peer: Peer, room: RoomId, offer: string, found: bool)
    | RoomHost(peer: Peer, room: RoomId, now: nat)
    | RoomAnswer(peer: Peer, room: RoomId, answer: string)
    | RoomCandidate(peer: Peer, room: RoomId, candidate: string, role: string)
    | RoomHangUp(peer: Peer, room: RoomId)
    | ReapRooms(now: nat)

  const ROOM_LIFETIME_MS := 24 * 60 * 60 * 1000

  function Send(st: State, ws: SocketId, m: Message): State {
    if ws in st.open then st.(sent := st.sent + [(ws, m)]) else st
  }

  function SetRoom(st: State, room: RoomId, entry: Entry): State {
    st.(rooms := st.rooms[room := entry])
  }

  function HandleCreate(st: State, peer: Peer, room: RoomId, now: nat): State {
    Send(SetRoom(st, room, Entry(Some(peer), None, None, Some(now))), peer.ws, RoomCreated(room))
  }

  function HandleJoin(st: State, peer: Peer, room: RoomId, offer: string, found: bool): State {
    if room == "" || offer == "" then Send(st, peer.ws, Error("Missing roomId/offer"))
    else if !found then Send(st, peer.ws, Error("Room not found or expired"))
    else if room !in st.rooms then
      Send(SetRoom(st, room, Entry(None, Some(peer), Some(offer), None)), peer.ws, RoomWaiting("Waiting for room creator"))
    else if st.rooms[room].callee.Some? then Send(st, peer.ws, Error("Room is full"))
    else
      var st1 := SetRoom(st, room, st.rooms[room].(callee := Some(peer), offer := Some(offer)));
      var caller := st.rooms[room].caller;
      if caller.Some? && caller.value.ws in st.open
      then Send(st1, caller.value.ws, RoomJoined(offer, peer.user, peer.name))
      else Send(st1, peer.ws, RoomWaiting("Creator offline"))
  }

  function HandleHost(st: State, peer: Peer, room: RoomId, now: nat): State {
    if room == "" then st
    else if room !in st.rooms then SetRoom(st, room, Entry(Some(peer), None, None, Some(now)))
    else
      var entry := st.rooms[room];
      var st1 := SetRoom(st, room, entry.(caller := Some(peer)));
      if entry.callee.Some? && entry.offer.Some?
      then Send(st1, peer.ws, RoomJoined(entry.offer.value, entry.callee.value.user, entry.callee.value.name))
      else st1
  }

  function HandleAnswer(st: State, room: RoomId, answer: string): State {
    if room != "" && answer != "" && room in st.rooms && st.rooms[room].callee.Some?
    then Send(st, st.rooms[room].callee.value.ws, RoomAnswered(answer))
    else st
  }

  function HandleCandidate(st: State, room: RoomId, candidate: string, role: string): State {
    if room !in st.rooms then st
    else if role == "caller" && st.rooms[room].callee.Some?
    then Send(st, st.rooms[room].callee.value.ws, RoomIce(candidate))
    else if role == "callee" && st.rooms[room].caller.Some?
    then Send(st, st.rooms[room].caller.value.ws, RoomIce(candidate))
    else st
  }

  function HandleHangUp(st: State, peer: Peer, room: RoomId): State {
    if room !in st.rooms then st
    else
      var entry := st.rooms[room];
      var other := if entry.caller.Some? && entry.caller.value.ws == peer.ws then entry.callee else entry.caller;
      var told := if other.Some? then Send(st, other.value.ws, RoomHungUp(room)) else st;
      told.(rooms := told.rooms - {room})
  }

  /** More than 24 hours old; an entry with no creation time compares with NaN, so never is. */
  predicate Stale(entry: Entry, now: nat) {
    entry.createdAt.Some? && now - entry.createdAt.value > ROOM_LIFETIME_MS
  }

  function HandleReap(st: State, now: nat): State {
    st.(rooms := map room | room in st.rooms && !Stale(st.rooms[room], now) :: st.rooms[room])
  }

  function Step(st: State, e: Event): State {
    match e
    case Opened(ws) => st.(open := st.open + {ws})
    case Shut(ws) => st.(open := st.open - {ws})
    case CreateRoom(peer, room, now) => HandleCreate(st, peer, room, now)
    case JoinRoom(peer, room, offer, found) => HandleJoin(st, peer, room, offer, found)
    case RoomHost(peer, room, now) => HandleHost(st, peer, room, now)
    case RoomAnswer(peer, room, answer) => HandleAnswer(st, room, answer)
    case RoomCandidate(peer, room, c, role) => HandleCandidate(st, room, c, role)
    case RoomHangUp(peer, room) => HandleHangUp(st, peer, room)
    case ReapRooms(now) => HandleReap(st, now)
  }

  function After(st: State, es: seq<Event>): State {
    if es == [] then st else Step(After(st, es[..|es| - 1]), es[|es| - 1])
  }

  const Initial := State({}, map[], [])

  // ------------------------------------------------------------ over every run

  /** A joiner and its offer are recorded together or not at all. */
  ghost predicate Paired(st: State) {
    forall room :: room in st.rooms ==>
      (st.rooms[room].callee.Some? <==> st.rooms[room].offer.Some?) &&
      (st.rooms[room].caller.Some? || st.rooms[room].callee.Some?)
  }

  lemma {:induction false} CalleeSetIffOfferSet(es: seq<Event>)
    ensures Paired(After(Initial, es))
  {
    if es == [] {
    } else {
      CalleeSetIffOfferSet(es[..|es| - 1]);
      PairedStep(After(Initial, es[..|es| - 1]), es[|es| - 1]);
    }
  }

  lemma {:induction false} PairedStep(st: State, e: Event)
    requires Paired(st)
    ensures Paired(Step(st, e))
  {
  }

  /** create-room draws an id that no entry has. */
  predicate FreshRoom(st: State, e: Event) {
    e.CreateRoom? ==> e.room !in st.rooms
  }

  ghost predicate FreshRooms(es: seq<Event>) {
    forall k :: 0 <= k < |es| ==> FreshRoom(After(Initial, es[..k]), es[k])
  }

  /** Event k takes the entry away, which only a hangup or the clean-up does. */
  predicate RemovedAt(es: seq<Event>, k: nat, room: RoomId) {
    && k < |es| && room in After(Initial, es[..k]).rooms && room !in After(Initial, es[..k + 1]).rooms
    && (es[k].ReapRooms? || (es[k].RoomHangUp? && es[k].room == room))
  }

  lemma FreshRoomsPrefix(es: seq<Event>, n: nat)
    requires FreshRooms(es) && n <= |es|
    ensures FreshRooms(es[..n])
  {
    forall k | 0 <= k < n ensures FreshRoom(After(Initial, es[..n][..k]), es[..n][k]) {
      assert es[..n][..k] == es[..k];
    }
  }

  lemma RemovedPrefix(es: seq<Event>, n: nat, k: nat, room: RoomId)
    requires k < n <= |es|
    ensures RemovedAt(es[..n], k, room) == RemovedAt(es, k, room)
  {
    assert es[..n][..k] == es[..k] && es[..n][..k + 1] == es[..k + 1];
  }

  predicate HasJoiner(st: State, room: RoomId) {
    room in st.rooms && st.rooms[room].callee.Some?
  }

  predicate SameJoiner(st: State, st': State, room: RoomId)
    requires room in st.rooms
  {
    room in st'.rooms && st'.rooms[room].callee == st.rooms[room].callee && st'.rooms[room].offer == st.rooms[room].offer
  }

  lemma {:induction false} JoinerStaysStep(st: State, e: Event, room: RoomId)
    requires Paired(st) && HasJoiner(st, room) && FreshRoom(st, e)
    ensures room in Step(st, e).rooms ==> SameJoiner(st, Step(st, e), room)
    ensures room !in Step(st, e).rooms ==> e.ReapRooms? || (e.RoomHangUp? && e.room == room)
  {
  }

  ghost predicate Removed(es: seq<Event>, i: nat, room: RoomId) {
    exists k: nat :: i <= k && RemovedAt(es, k, room)
  }

  lemma RemovedLonger(es: seq<Event>, i: nat, room: RoomId)
    requires es != [] && Removed(es[..|es| - 1], i, room)
    ensures Removed(es, i, room)
  {
    var k: nat :| i <= k && RemovedAt(es[..|es| - 1], k, room);
    RemovedPrefix(es, |es| - 1, k, room);
  }

  lemma LastStepIs(es: seq<Event>)
    requires es != []
    ensures es[..|es| - 1 + 1] == es && After(Initial, es) == Step(After(Initial, es[..|es| - 1]), es[|es| - 1])
  {
  }

  /** Over any run: a joiner, once recorded, stays recorded with its offer, whoever else joins
      or hosts, until a hangup or the clean-up takes the entry away. */
  lemma {:induction false} FirstJoinerStays(es: seq<Event>, i: nat, room: RoomId)
    requires FreshRooms(es) && i <= |es| && HasJoiner(After(Initial, es[..i]), room)
    ensures Removed(es, i, room) || SameJoiner(After(Initial, es[..i]), After(Initial, es), room)
    decreases |es|
  {
    if i == |es| {
      assert es[..i] == es;
    } else {
      var n := |es| - 1;
      assert es[..n][..i] == es[..i];
      FreshRoomsPrefix(es, n);
      FirstJoinerStays(es[..n], i, room);
      if Removed(es[..n], i, room) {
        RemovedLonger(es, i, room);
      } else {
        LastJoinerStep(es, room);
      }
    }
  }

  lemma LastJoinerStep(es: seq<Event>, room: RoomId)
    requires es != [] && FreshRooms(es) && HasJoiner(After(Initial, es[..|es| - 1]), room)
    ensures RemovedAt(es, |es| - 1, room) || SameJoiner(After(Initial, es[..|es| - 1]), After(Initial, es), room)
  {
    LastStepIs(es);
    CalleeSetIffOfferSet(es[..|es| - 1]);
    JoinerStaysStep(After(Initial, es[..|es| - 1]), es[|es| - 1], room);
  }
}
