/** The room store of server-rust/src/signaling/sfu_relay.rs: who is in which relay room and
    what each participant has been told about it. */
module SfuModel {

  type UserId = string
  type RoomId = string

  datatype Participant = Participant(displayName: string, mediaReady: bool)

  datatype Message =
    | PeerJoined(room: RoomId, peer: UserId, displayName: string)
    | PeerLeft(room: RoomId, peer: UserId)
    | SfuJoined(room: RoomId, peerCount: nat)
    | RoomFull(room: RoomId)

  type Room = map<UserId, Participant>

  /** `inbox` holds what has been queued for each user, in order. */
  datatype State = State(rooms: map<RoomId, Room>, inbox: map<UserId, seq<Message>>)

  const MAX_PARTICIPANTS := 16

  const Initial := State(map[], map[])

  /** The store is locked from the first look at a room to the last notification about it;
      only the acknowledgement of a join is queued after the lock is released. */
  datatype Event =
    | Join(user: UserId, displayName: string, room: RoomId)
    | Acknowledge(user: UserId, room: RoomId, peerCount: nat)
    | Answer(user: UserId, room: RoomId)
    | Leave(user: UserId, room: RoomId)
    | ReapEmpty

  function RoomOf(st: State, r: RoomId): Room {
    if r in st.rooms then st.rooms[r] else map[]
  }

  function Members(st: State, r: RoomId): set<UserId> {
    RoomOf(st, r).Keys
  }

  function Others(st: State, r: RoomId, u: UserId): set<UserId> {
    Members(st, r) - {u}
  }

  function Mail(st: State, u: UserId): seq<Message> {
    MailIn(st.inbox, u)
  }

  function MailIn(inbox: map<UserId, seq<Message>>, u: UserId): seq<Message> {
    if u in inbox then inbox[u] else []
  }

  function Post(inbox: map<UserId, seq<Message>>, u: UserId, m: Message): map<UserId, seq<Message>> {
    inbox[u := MailIn(inbox, u) + [m]]
  }

  /** One copy of m for each of the users. */
  function PostAll(inbox: map<UserId, seq<Message>>, us: set<UserId>, m: Message): map<UserId, seq<Message>> {
    map u | u in inbox.Keys + us :: if u in us then MailIn(inbox, u) + [m] else MailIn(inbox, u)
  }

  predicate Full(st: State, r: RoomId) {
    |RoomOf(st, r)| >= MAX_PARTICIPANTS
  }

  function HandleJoin(st: State, u: UserId, name: string, r: RoomId): State {
    if Full(st, r) then State(st.rooms[r := RoomOf(st, r)], Post(st.inbox, u, RoomFull(r)))
    else State(st.rooms[r := RoomOf(st, r)[u := Participant(name, false)]],
               PostAll(st.inbox, Others(st, r, u), PeerJoined(r, u, name)))
  }

  function HandleAnswer(st: State, u: UserId, r: RoomId): State {
    if u in RoomOf(st, r) then
      st.(rooms := st.rooms[r := st.rooms[r][u := st.rooms[r][u].(mediaReady := true)]])
    else st
  }

  function HandleLeave(st: State, u: UserId, r: RoomId): State {
    if u in RoomOf(st, r) then
      var remaining := RoomOf(st, r) - {u};
      State(if remaining.Keys == {} then st.rooms - {r} else st.rooms[r := remaining],
            PostAll(st.inbox, remaining.Keys, PeerLeft(r, u)))
    else st
  }

  function HandleReap(st: State): State {
    st.(rooms := map r | r in st.rooms && st.rooms[r].Keys != {} :: st.rooms[r])
  }

  function Step(st: State, e: Event): State {
    match e
    case Join(u, name, r) => HandleJoin(st, u, name, r)
    case Acknowledge(u, r, count) => st.(inbox := Post(st.inbox, u, SfuJoined(r, count)))
    case Answer(u, r) => HandleAnswer(st, u, r)
    case Leave(u, r) => HandleLeave(st, u, r)
    case ReapEmpty => HandleReap(st)
  }

  function After(es: seq<Event>): State {
    if es == [] then Initial else Step(After(es[..|es| - 1]), es[|es| - 1])
  }

  // --------------------------------------------------------------------- room sizes

  ghost predicate Sizes(rooms: map<RoomId, Room>) {
    forall r :: r in rooms ==> 1 <= |rooms[r]| <= 16
  }

  ghost predicate RoomSizes(st: State) {
    Sizes(st.rooms)
  }

  lemma AddedSize(room: Room, u: UserId, p: Participant)
    requires |room| < MAX_PARTICIPANTS
    ensures 1 <= |room[u := p]| <= MAX_PARTICIPANTS
  {
    assert room[u := p].Keys == room.Keys + {u};
    if u in room.Keys {
      assert room.Keys + {u} == room.Keys;
    }
    assert u in room[u := p].Keys;
  }

  lemma RemovedSize(room: Room, u: UserId)
    requires |room| <= MAX_PARTICIPANTS
    ensures |room - {u}| <= MAX_PARTICIPANTS && ((room - {u}).Keys != {} ==> |room - {u}| >= 1)
  {
    var rest := room - {u};
    assert rest.Keys == room.Keys - {u};
    if rest.Keys != {} {
      var v :| v in rest.Keys;
    }
  }

  lemma UpdatedSize(room: Room, u: UserId, p: Participant)
    requires u in room
    ensures |room[u := p]| == |room|
  {
    assert room[u := p].Keys == room.Keys;
  }

  lemma StoreSize(rooms: map<RoomId, Room>, r: RoomId, room: Room)
    requires 1 <= |room| <= MAX_PARTICIPANTS && Sizes(rooms)
    ensures Sizes(rooms[r := room])
  {
  }

  lemma RoomSizesJoin(st: State, u: UserId, name: string, r: RoomId)
    requires RoomSizes(st)
    ensures RoomSizes(HandleJoin(st, u, name, r))
  {
    if !Full(st, r) {
      AddedSize(RoomOf(st, r), u, Participant(name, false));
      StoreSize(st.rooms, r, RoomOf(st, r)[u := Participant(name, false)]);
    }
  }

  lemma RoomSizesLeave(st: State, u: UserId, r: RoomId)
    requires RoomSizes(st)
    ensures RoomSizes(HandleLeave(st, u, r))
  {
    if u in RoomOf(st, r) {
      var remaining := RoomOf(st, r) - {u};
      RemovedSize(RoomOf(st, r), u);
      if remaining.Keys != {} {
        StoreSize(st.rooms, r, remaining);
      }
    }
  }

  lemma RoomSizesAnswer(st: State, u: UserId, r: RoomId)
    requires RoomSizes(st)
    ensures RoomSizes(HandleAnswer(st, u, r))
  {
    if u in RoomOf(st, r) {
      var p := st.rooms[r][u].(mediaReady := true);
      UpdatedSize(st.rooms[r], u, p);
      StoreSize(st.rooms, r, st.rooms[r][u := p]);
    }
  }

  lemma RoomSizesStep(st: State, e: Event)
    requires RoomSizes(st)
    ensures RoomSizes(Step(st, e))
  {
    match e
    case Join(u, name, r) => RoomSizesJoin(st, u, name, r);
    case Acknowledge(_, _, _) =>
    case Answer(u, r) => RoomSizesAnswer(st, u, r);
    case Leave(u, r) => RoomSizesLeave(st, u, r);
    case ReapEmpty =>
  }

  /** No stored room is ever empty or above its capacity. */
  lemma {:induction false} StoredRoomsAreInhabited(es: seq<Event>)
    ensures RoomSizes(After(es))
  {
    if es != [] {
      StoredRoomsAreInhabited(es[..|es| - 1]);
      RoomSizesStep(After(es[..|es| - 1]), es[|es| - 1]);
    }
  }

  // ------------------------------------------------------------------ filling a room

  /** All different. */
  ghost predicate Distinct(us: seq<UserId>) {
    forall i, j :: 0 <= i < j < |us| ==> us[i] != us[j]
  }

  function Joins(us: seq<UserId>, r: RoomId): seq<Event> {
    seq(|us|, i requires 0 <= i < |us| => Join(us[i], us[i], r))
  }

  lemma MembersOfOneMore(st: State, u: UserId, name: string, r: RoomId)
    requires u !in Members(st, r)
    ensures |RoomOf(HandleJoin(st, u, name, r), r)| == |RoomOf(st, r)| + if |RoomOf(st, r)| < 16 then 1 else 0
    ensures Members(HandleJoin(st, u, name, r), r) == Members(st, r) + if |RoomOf(st, r)| < 16 then {u} else {}
  {
    var room, p := RoomOf(st, r), Participant(name, false);
    assert room[u := p].Keys == room.Keys + {u};
    assert |room[u := p]| == |room[u := p].Keys|;
  }

  function FirstSixteen(us: seq<UserId>): seq<UserId> {
    if |us| < 16 then us else us[..16]
  }

  lemma FirstSixteenNext(us: seq<UserId>, u: UserId)
    ensures FirstSixteen(us + [u]) == FirstSixteen(us) + if |FirstSixteen(us)| < 16 then [u] else []
    ensures |FirstSixteen(us)| <= 16
  {
    if |us| < 16 {
      assert |us| == 15 ==> (us + [u])[..16] == us + [u];
    } else {
      assert (us + [u])[..16] == us[..16];
    }
  }

  lemma JoinsNext(us: seq<UserId>, u: UserId, r: RoomId)
    ensures After(Joins(us + [u], r)) == HandleJoin(After(Joins(us, r)), u, u, r)
  {
    var es := Joins(us + [u], r);
    assert es[..|es| - 1] == Joins(us, r) && es[|es| - 1] == Join(u, u, r);
  }

  /** However many different users join an empty room in turn, the first sixteen are in it and
      the others are not: the sixteenth is admitted and the seventeenth is not. */
  lemma {:induction false} FirstSixteenAreAdmitted(us: seq<UserId>, r: RoomId)
    requires Distinct(us)
    ensures |RoomOf(After(Joins(us, r)), r)| == |FirstSixteen(us)|
    ensures forall u :: u in Members(After(Joins(us, r)), r) <==> u in FirstSixteen(us)
  {
    if us != [] {
      var before, u := us[..|us| - 1], us[|us| - 1];
      assert us == before + [u];
      FirstSixteenAreAdmitted(before, r);
      NewcomerIsNew(before, u);
      JoinsNext(before, u, r);
      MembersOfOneMore(After(Joins(before, r)), u, u, r);
      FirstSixteenNext(before, u);
    }
  }

  lemma NewcomerIsNew(us: seq<UserId>, u: UserId)
    requires Distinct(us + [u])
    ensures Distinct(us) && u !in FirstSixteen(us)
  {
    var all := us + [u];
    forall i | 0 <= i < |us| ensures us[i] != u {
      assert all[i] != all[|us|];
    }
    forall i, j | 0 <= i < j < |us| ensures us[i] != us[j] {
      assert all[i] != all[j];
    }
  }

  /** So the periodic reaping finds nothing, and a refused join creates no room. */
  lemma ReapFindsNothing(es: seq<Event>, u: UserId, name: string, r: RoomId)
    ensures Step(After(es), ReapEmpty) == After(es)
    ensures |RoomOf(After(es), r)| >= 16 ==> Step(After(es), Join(u, name, r)).rooms == After(es).rooms
  {
    StoredRoomsAreInhabited(es);
    var st := After(es);
    assert HandleReap(st).rooms == st.rooms;
    if Full(st, r) {
      assert r in st.rooms;
    }
  }
}
