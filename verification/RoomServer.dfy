/** The room handlers of server/src/signaling/signalingServer.js as they run on the
    activeRooms map.  A table remembers the events it has handled and is what RoomModel says
    after them, so joiners and offers come in pairs and the first joiner stays. */
module RoomServer {
  import opened Wrappers
  import opened RoomModel

  lemma JoinerStays(history: seq<Event>, e: Event, room: RoomId)
    requires e.JoinRoom? || e.RoomHost?
    ensures HasJoiner(After(Initial, history), room) ==>
              SameJoiner(After(Initial, history), Step(After(Initial, history), e), room)
  {
    if HasJoiner(After(Initial, history), room) {
      CalleeSetIffOfferSet(history);
      JoinerStaysStep(After(Initial, history), e, room);
    }
  }

  /** What sending to a socket adds to what has been sent: nothing unless it is open. */
  function Delivered(open: set<SocketId>, ws: SocketId, m: Message): seq<(SocketId, Message)> {
    if ws in open then [(ws, m)] else []
  }

  function ToPeer(open: set<SocketId>, peer: Option<Peer>, m: Message): seq<(SocketId, Message)> {
    if peer.Some? then Delivered(open, peer.value.ws, m) else []
  }

  /** Whom a hangup of `ws` is told to: the joiner if it is the host's, else the host. */
  function Other(entry: Entry, ws: SocketId): Option<Peer> {
    if entry.caller.Some? && entry.caller.value.ws == ws then entry.callee else entry.caller
  }

  class RoomTable {
    var open: set<SocketId>
    var rooms: map<RoomId, Entry>
    var sent: seq<(SocketId, Message)>
    ghost var history: seq<Event>

    ghost predicate Valid()
      reads this
    {
      Model() == After(Initial, history)
    }

    function Model(): State
      reads this
    {
      State(open, rooms, sent)
    }

    constructor ()
      ensures Valid() && Paired(Model()) && history == []
    {
      open, rooms, sent, history := {}, map[], [], [];
    }

    /** The event just handled is added to the history: entries are still paired. */
    ghost method Record(before: State, e: Event)
      requires before == After(Initial, history) && Model() == Step(before, e)
      modifies this`history
      ensures Valid() && history == old(history) + [e] && Paired(Model())
    {
      assert (history + [e])[..|history|] == history;
      history := history + [e];
      CalleeSetIffOfferSet(history);
    }

    method OnConnection(ws: SocketId)
      requires Valid()
      modifies this
      ensures Valid() && Paired(Model()) && history == old(history) + [Opened(ws)]
      ensures open == old(open) + {ws} && rooms == old(rooms) && sent == old(sent)
    {
      ghost var before := Model();
      open := open + {ws};
      Record(before, Opened(ws));
    }

    method OnDisconnect(ws: SocketId)
      requires Valid()
      modifies this
      ensures Valid() && Paired(Model()) && history == old(history) + [Shut(ws)]
      ensures open == old(open) - {ws} && rooms == old(rooms) && sent == old(sent)
    {
      ghost var before := Model();
      open := open - {ws};
      Record(before, Shut(ws));
    }

    method SendTo(ws: SocketId, m: Message)
      modifies this`sent
      ensures Model() == Send(old(Model()), ws, m)
      ensures sent == old(sent) + Delivered(open, ws, m)
    {
      if ws in open {
        sent := sent + [(ws, m)];
      }
    }

    method OnCreateRoom(peer: Peer, room: RoomId, now: nat)
      requires Valid()
      modifies this
      ensures Valid() && Paired(Model()) && history == old(history) + [CreateRoom(peer, room, now)]
      ensures open == old(open) && rooms == old(rooms)[room := Entry(Some(peer), None, None, Some(now))]
      ensures sent == old(sent) + Delivered(open, peer.ws, RoomCreated(room))
    {
      ghost var before := Model();
      rooms := rooms[room := Entry(Some(peer), None, None, Some(now))];
      SendTo(peer.ws, RoomCreated(room));
      Record(before, CreateRoom(peer, room, now));
    }

    method OnJoinRoom(peer: Peer, room: RoomId, offer: string, found: bool)
      requires Valid()
      modifies this
      ensures Valid() && Paired(Model()) && history == old(history) + [JoinRoom(peer, room, offer, found)]
      ensures HasJoiner(old(Model()), room) ==> SameJoiner(old(Model()), Model(), room)
      ensures open == old(open)
      ensures room == "" || offer == "" || !found || (room in old(rooms) && old(rooms)[room].callee.Some?) ==>
                && rooms == old(rooms)
                && sent == old(sent) + Delivered(open, peer.ws, Error(
                     if room == "" || offer == "" then "Missing roomId/offer"
                     else if !found then "Room not found or expired"
                     else "Room is full"))
      ensures room != "" && offer != "" && found && room !in old(rooms) ==>
                && rooms == old(rooms)[room := Entry(None, Some(peer), Some(offer), None)]
                && sent == old(sent) + Delivered(open, peer.ws, RoomWaiting("Waiting for room creator"))
      ensures room != "" && offer != "" && found && room in old(rooms) && old(rooms)[room].callee.None? ==>
                var Entry(caller, _, _, createdAt) := old(rooms)[room];
                && rooms == old(rooms)[room := Entry(caller, Some(peer), Some(offer), createdAt)]
                && sent == old(sent) +
                     if caller.Some? && caller.value.ws in open
                     then [(caller.value.ws, RoomJoined(offer, peer.user, peer.name))]
                     else Delivered(open, peer.ws, RoomWaiting("Creator offline"))
    {
      ghost var before := Model();
      JoinerStays(history, JoinRoom(peer, room, offer, found), room);
      if room == "" || offer == "" {
        SendTo(peer.ws, Error("Missing roomId/offer"));
      } else if !found {
        SendTo(peer.ws, Error("Room not found or expired"));
      } else if room !in rooms {
        rooms := rooms[room := Entry(None, Some(peer), Some(offer), None)];
        SendTo(peer.ws, RoomWaiting("Waiting for room creator"));
      } else if rooms[room].callee.None? {
        var caller := rooms[room].caller;
        rooms := rooms[room := rooms[room].(callee := Some(peer))];
        rooms := rooms[room := rooms[room].(offer := Some(offer))];
        if caller.Some? && caller.value.ws in open {
          SendTo(caller.value.ws, RoomJoined(offer, peer.user, peer.name));
        } else {
          SendTo(peer.ws, RoomWaiting("Creator offline"));
        }
      } else {
        SendTo(peer.ws, Error("Room is full"));
      }
      Record(before, JoinRoom(peer, room, offer, found));
    }

    method OnRoomHost(peer: Peer, room: RoomId, now: nat)
      requires Valid()
      modifies this
      ensures Valid() && Paired(Model()) && history == old(history) + [RoomHost(peer, room, now)]
      ensures HasJoiner(old(Model()), room) ==> SameJoiner(old(Model()), Model(), room)
      ensures open == old(open)
      ensures room == "" ==> rooms == old(rooms) && sent == old(sent)
      ensures room != "" && room !in old(rooms) ==>
                rooms == old(rooms)[room := Entry(Some(peer), None, None, Some(now))] && sent == old(sent)
      ensures room != "" && room in old(rooms) ==>
                var Entry(_, callee, offer, createdAt) := old(rooms)[room];
                && rooms == old(rooms)[room := Entry(Some(peer), callee, offer, createdAt)]
                && sent == old(sent) +
                     if callee.Some? && offer.Some?
                     then Delivered(open, peer.ws, RoomJoined(offer.value, callee.value.user, callee.value.name)) else []
    {
      ghost var before := Model();
      JoinerStays(history, RoomHost(peer, room, now), room);
      if room == "" {
        Record(before, RoomHost(peer, room, now));
        return;
      }
      if room !in rooms {
        rooms := rooms[room := Entry(Some(peer), None, None, Some(now))];
      } else {
        rooms := rooms[room := rooms[room].(caller := Some(peer))];
        var entry := rooms[room];
        if entry.callee.Some? && entry.offer.Some? {
          SendTo(peer.ws, RoomJoined(entry.offer.value, entry.callee.value.user, entry.callee.value.name));
        }
      }
      Record(before, RoomHost(peer, room, now));
    }

    method OnRoomAnswer(peer: Peer, room: RoomId, answer: string)
      requires Valid()
      modifies this
      ensures Valid() && Paired(Model()) && history == old(history) + [RoomAnswer(peer, room, answer)]
      ensures open == old(open) && rooms == old(rooms)
      ensures sent == old(sent) +
                if room != "" && answer != "" && room in rooms then ToPeer(open, rooms[room].callee, RoomAnswered(answer)) else []
    {
      ghost var before := Model();
      if room == "" || answer == "" {
        Record(before, RoomAnswer(peer, room, answer));
        return;
      }
      if room in rooms && rooms[room].callee.Some? {
        SendTo(rooms[room].callee.value.ws, RoomAnswered(answer));
      }
      Record(before, RoomAnswer(peer, room, answer));
    }

    method OnRoomIce(peer: Peer, room: RoomId, candidate: string, role: string)
      requires Valid()
      modifies this
      ensures Valid() && Paired(Model()) && history == old(history) + [RoomCandidate(peer, room, candidate, role)]
      ensures open == old(open) && rooms == old(rooms)
      ensures sent == old(sent) +
                if room !in rooms then []
                else if role == "caller" then ToPeer(open, rooms[room].callee, RoomIce(candidate))
                else if role == "callee" then ToPeer(open, rooms[room].caller, RoomIce(candidate))
                else []
    {
      ghost var before := Model();
      if room !in rooms {
        Record(before, RoomCandidate(peer, room, candidate, role));
        return;
      }
      if role == "caller" && rooms[room].callee.Some? {
        SendTo(rooms[room].callee.value.ws, RoomIce(candidate));
      } else if role == "callee" && rooms[room].caller.Some? {
        SendTo(rooms[room].caller.value.ws, RoomIce(candidate));
      }
      Record(before, RoomCandidate(peer, room, candidate, role));
    }

    method OnRoomHangup(peer: Peer, room: RoomId)
      requires Valid()
      modifies this
      ensures Valid() && Paired(Model()) && history == old(history) + [RoomHangUp(peer, room)]
      ensures open == old(open) && rooms == old(rooms) - {room}
      ensures sent == old(sent) +
                if room in old(rooms) then ToPeer(open, Other(old(rooms)[room], peer.ws), RoomHungUp(room)) else []
    {
      ghost var before := Model();
      if room in rooms {
        var entry := rooms[room];
        var other := if entry.caller.Some? && entry.caller.value.ws == peer.ws then entry.callee else entry.caller;
        if other.Some? {
          SendTo(other.value.ws, RoomHungUp(room));
        }
        rooms := rooms - {room};
      }
      Record(before, RoomHangUp(peer, room));
    }

    /** The clean-up of the heartbeat interval: every entry is looked at once. */
    method OnCleanup(now: nat)
      requires Valid()
      modifies this
      ensures Valid() && Paired(Model()) && history == old(history) + [ReapRooms(now)]
      ensures open == old(open) && sent == old(sent)
      ensures forall room :: room in rooms <==>
                room in old(rooms) &&
                (old(rooms)[room].createdAt.Some? ==> now - old(rooms)[room].createdAt.value <= 86400000)
      ensures forall room :: room in rooms ==> rooms[room] == old(rooms)[room]
    {
      ghost var before := Model();
      var entries := rooms;
      var todo := rooms.Keys;
      while todo != {}
        invariant todo <= entries.Keys && open == old(open) && sent == old(sent) && history == old(history)
        invariant forall room :: room in rooms <==>
                    room in entries && (room in todo || !Stale(entries[room], now))
        invariant forall room :: room in rooms ==> rooms[room] == entries[room]
        decreases |todo|
      {
        var room :| room in todo;
        if Stale(entries[room], now) {
          rooms := rooms - {room};
        }
        todo := todo - {room};
      }
      assert rooms == HandleReap(old(Model()), now).rooms;
      Record(before, ReapRooms(now));
    }
  }
}
