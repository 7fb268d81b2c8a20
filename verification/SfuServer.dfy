/** The handlers of server-rust/src/signaling/sfu_relay.rs as they change the room store and
    queue notifications one by one.  A store remembers the events it has handled and is what
    SfuModel says after them, so its rooms hold one to sixteen participants, each of whom has
    been told enough to know the others. */
module SfuServer {
  import opened Wrappers
  import opened SfuModel
  import opened SfuViews

  lemma PostToNobody(inbox: map<UserId, seq<Message>>, us: set<UserId>, m: Message)
    ensures PostAll(inbox, us - us, m) == inbox
  {
  }

  lemma PostToOneMore(inbox: map<UserId, seq<Message>>, us: set<UserId>, todo: set<UserId>, u: UserId, m: Message)
    requires u in todo && todo <= us
    ensures Post(PostAll(inbox, us - todo, m), u, m) == PostAll(inbox, us - (todo - {u}), m)
  {
  }

  /** One copy for each of the users, behind what they have, and nothing for the rest. */
  lemma PostAllReaches(inbox: map<UserId, seq<Message>>, us: set<UserId>, m: Message, u: UserId, v: UserId)
    ensures MailIn(PostAll(inbox, us, m), v) == MailIn(inbox, v) + if v in us then [m] else []
    ensures MailIn(Post(inbox, u, m), v) == MailIn(inbox, v) + if v == u then [m] else []
  {
  }

  /** The entry of a room is made before the first look at it. */
  lemma EntryMade(rooms: map<RoomId, Room>, r: RoomId, room: Room)
    ensures r !in rooms ==> rooms[r := map[]][r := room] == rooms[r := room]
    ensures r in rooms ==> rooms[r := rooms[r]] == rooms
  {
  }

  class SfuRoomStore {
    var rooms: map<RoomId, Room>
    var inbox: map<UserId, seq<Message>>
    ghost var history: seq<Event>

    ghost predicate Valid()
      reads this
    {
      Model() == After(history)
    }

    function Model(): State
      reads this
    {
      State(rooms, inbox)
    }

    constructor ()
      ensures Valid() && RoomSizes(Model()) && history == []
    {
      rooms, inbox, history := map[], map[], [];
    }

    /** The event just handled is added to the history: rooms are still of a proper size. */
    ghost method Record(before: State, e: Event)
      requires before == After(history) && Model() == Step(before, e)
      modifies this`history
      ensures Valid() && history == old(history) + [e] && RoomSizes(Model())
    {
      assert (history + [e])[..|history|] == history;
      history := history + [e];
      StoredRoomsAreInhabited(history);
    }

    /** What a participant has heard since its latest join tells it who else is there. */
    lemma ParticipantsKnowTheRoom(i: nat, r: RoomId, u: UserId)
      requires Valid() && LatestJoin(history, i, r, u) && r in rooms && u in rooms[r]
      ensures ViewOf(history, i, r, u) == rooms[r].Keys - {u}
    {
      ViewsAreTrue(history, i, r, u);
    }

    method SendTo(u: UserId, m: Message)
      modifies this`inbox
      ensures inbox == Post(old(inbox), u, m)
    {
      inbox := inbox[u := MailIn(inbox, u) + [m]];
    }

    /** The notification loop, over users in whatever order the hash map gives them. */
    method NotifyAll(us: set<UserId>, m: Message)
      modifies this`inbox
      ensures inbox == PostAll(old(inbox), us, m)
    {
      var todo := us;
      PostToNobody(inbox, us, m);
      while todo != {}
        invariant todo <= us && inbox == PostAll(old(inbox), us - todo, m)
        decreases |todo|
      {
        var u :| u in todo;
        PostToOneMore(old(inbox), us, todo, u, m);
        SendTo(u, m);
        todo := todo - {u};
      }
      assert us - todo == us;
    }

    /** The second look at the capacity, inside the room. */
    method AddParticipant(r: RoomId, u: UserId, p: Participant) returns (added: bool)
      requires r in rooms
      modifies this`rooms
      ensures added == (|old(rooms)[r]| < 16)
      ensures rooms == if added then old(rooms)[r := old(rooms)[r][u := p]] else old(rooms)
    {
      if |rooms[r]| >= MAX_PARTICIPANTS {
        return false;
      }
      rooms := rooms[r := rooms[r][u := p]];
      return true;
    }

    /** The part of a join that holds the lock.  Once the room has passed the first look, the
        second cannot fail.  `peers` is the number of the others, None if the room was full. */
    method JoinUnderLock(u: UserId, name: string, r: RoomId) returns (peers: Option<nat>)
      requires Valid()
      modifies this
      ensures Valid() && RoomSizes(Model()) && history == old(history) + [Join(u, name, r)]
      ensures peers.None? <==> r in old(rooms) && |old(rooms)[r]| >= 16
      ensures peers.None? ==> rooms == old(rooms) && inbox == Post(old(inbox), u, RoomFull(r))
      ensures var room: Room := if r in old(rooms) then old(rooms)[r] else map[];
              peers.Some? ==>
                && rooms == old(rooms)[r := room[u := Participant(name, false)]]
                && inbox == PostAll(old(inbox), room.Keys - {u}, PeerJoined(r, u, name))
                && peers.value == |room.Keys - {u}|
    {
      ghost var before, room := Model(), RoomOf(Model(), r);
      EntryMade(rooms, r, room[u := Participant(name, false)]);
      if r !in rooms {
        rooms := rooms[r := map[]];
      }
      assert rooms[r] == room;
      if |rooms[r]| >= MAX_PARTICIPANTS {
        SendTo(u, RoomFull(r));
        peers := None;
      } else {
        peers := Admit(u, name, r);
        assert rooms == before.rooms[r := room[u := Participant(name, false)]];
      }
      Record(before, Join(u, name, r));
    }

    method Admit(u: UserId, name: string, r: RoomId) returns (peers: Option<nat>)
      requires r in rooms && |rooms[r]| < MAX_PARTICIPANTS
      modifies this`rooms, this`inbox
      ensures rooms == old(rooms)[r := old(rooms)[r][u := Participant(name, false)]]
      ensures inbox == PostAll(old(inbox), old(rooms)[r].Keys - {u}, PeerJoined(r, u, name))
      ensures peers == Some(|old(rooms)[r].Keys - {u}|)
    {
      var others := rooms[r].Keys - {u};
      var added := AddParticipant(r, u, Participant(name, false));
      assert added;
      NotifyAll(others, PeerJoined(r, u, name));
      return Some(|others|);
    }

    /** The join, then its acknowledgement outside the lock.  Whoever finds fewer than sixteen in
        the room is in it afterwards and has been told how many others there are. */
    method OnJoin(u: UserId, name: string, r: RoomId)
      requires Valid()
      modifies this
      ensures Valid() && RoomSizes(Model())
      ensures var room: Room := if r in old(rooms) then old(rooms)[r] else map[];
              if |room| >= 16 then
                && rooms == old(rooms) && inbox == Post(old(inbox), u, RoomFull(r))
                && history == old(history) + [Join(u, name, r)]
              else
                && rooms == old(rooms)[r := room[u := Participant(name, false)]]
                && inbox == Post(PostAll(old(inbox), room.Keys - {u}, PeerJoined(r, u, name)),
                                 u, SfuJoined(r, |room.Keys - {u}|))
                && history == old(history) + [Join(u, name, r), Acknowledge(u, r, |room.Keys - {u}|)]
      ensures u in Members(Model(), r) <==>
              r !in old(rooms) || u in old(rooms)[r] || |old(rooms)[r]| < 16
    {
      var peers := JoinUnderLock(u, name, r);
      if peers.Some? {
        ghost var before := Model();
        SendTo(u, SfuJoined(r, peers.value));
        Record(before, Acknowledge(u, r, peers.value));
      }
    }

    method OnAnswer(u: UserId, r: RoomId)
      requires Valid()
      modifies this
      ensures Valid() && RoomSizes(Model()) && history == old(history) + [Answer(u, r)] && inbox == old(inbox)
      ensures rooms == if r in old(rooms) && u in old(rooms)[r]
                       then old(rooms)[r := old(rooms)[r][u := Participant(old(rooms)[r][u].displayName, true)]]
                       else old(rooms)
    {
      ghost var before := Model();
      if r in rooms && u in rooms[r] {
        rooms := rooms[r := rooms[r][u := rooms[r][u].(mediaReady := true)]];
      }
      Record(before, Answer(u, r));
    }

    /** A participant goes, and an emptied room with it. */
    method TakeOut(u: UserId, r: RoomId)
      requires r in rooms && u in rooms[r]
      modifies this`rooms, this`inbox
      ensures inbox == PostAll(old(inbox), old(rooms)[r].Keys - {u}, PeerLeft(r, u))
      ensures rooms == if old(rooms)[r].Keys == {u} then old(rooms) - {r} else old(rooms)[r := old(rooms)[r] - {u}]
      ensures Model() == HandleLeave(old(Model()), u, r)
    {
      rooms := rooms[r := rooms[r] - {u}];
      NotifyAll(rooms[r].Keys, PeerLeft(r, u));
      if rooms[r].Keys == {} {
        rooms := rooms - {r};
      }
    }

    method OnLeave(u: UserId, r: RoomId)
      requires Valid()
      modifies this
      ensures Valid() && RoomSizes(Model()) && history == old(history) + [Leave(u, r)]
      ensures Members(Model(), r) == Members(old(Model()), r) - {u}
      ensures r !in old(rooms) || u !in old(rooms)[r] ==> rooms == old(rooms) && inbox == old(inbox)
      ensures r in old(rooms) && u in old(rooms)[r] ==>
                && inbox == PostAll(old(inbox), old(rooms)[r].Keys - {u}, PeerLeft(r, u))
                && rooms == if old(rooms)[r].Keys == {u} then old(rooms) - {r} else old(rooms)[r := old(rooms)[r] - {u}]
    {
      ghost var before := Model();
      if r in rooms && u in rooms[r] {
        TakeOut(u, r);
      }
      Record(before, Leave(u, r));
      MembersStep(before, Leave(u, r), r);
    }

    method RetainInhabited()
      modifies this`rooms
      ensures rooms == HandleReap(old(Model())).rooms
    {
      var todo := rooms.Keys;
      while todo != {}
        invariant todo <= old(rooms).Keys
        invariant forall r :: r in rooms <==> r in old(rooms) && (r in todo || old(rooms)[r].Keys != {})
        invariant forall r :: r in rooms ==> rooms[r] == old(rooms)[r]
        decreases |todo|
      {
        var r :| r in todo;
        if rooms[r].Keys == {} {
          rooms := rooms - {r};
        }
        todo := todo - {r};
      }
      assert rooms == HandleReap(old(Model())).rooms;
    }

    /** In use it finds nothing to remove. */
    method ReapEmptyRooms()
      requires Valid()
      modifies this
      ensures Valid() && RoomSizes(Model()) && history == old(history) + [ReapEmpty] && rooms == old(rooms)
    {
      ghost var before := Model();
      RetainInhabited();
      ReapFindsNothing(history, "", "", "");
      Record(before, ReapEmpty);
    }
  }
}
