/** The rendezvous does not depend on who arrives first: from any room-host messages of
    one creator and any join attempts, the first joiner and the creator find each other,
    whatever else goes on at the server in between. */
module RoomRendezvous {
  import opened Wrappers
  import opened RoomModel

  /** A room-host message of the creator, or a join attempt on a room the database knows. */
  predicate Arrival(e: Event, host: Peer, room: RoomId) {
    (e.RoomHost? && e.peer == host && e.room == room) ||
    (e.JoinRoom? && e.room == room && e.offer != "" && e.found)
  }

  /** Any other traffic: other rooms, sockets other than the creator's, answers, candidates,
      refused joins, and clean-ups that do not find the entry too old. */
  predicate Aside(st: State, e: Event, host: Peer, room: RoomId) {
    match e
    case Opened(_) => true
    case Shut(ws) => ws != host.ws
    case CreateRoom(_, r, _) => r != room
    case JoinRoom(_, r, offer, found) => r != room || offer == "" || !found
    case RoomHost(_, r, _) => r != room
    case RoomAnswer(_, _, _) => true
    case RoomCandidate(_, _, _, _) => true
    case RoomHangUp(_, r) => r != room
    case ReapRooms(now) => room in st.rooms ==> !Stale(st.rooms[room], now)
  }

  /** A run of arrivals with other traffic in between. */
  predicate Meeting(st0: State, es: seq<Event>, host: Peer, room: RoomId) {
    es == [] ||
    (Meeting(st0, es[..|es| - 1], host, room) &&
     (Arrival(es[|es| - 1], host, room) || Aside(After(st0, es[..|es| - 1]), es[|es| - 1], host, room)))
  }

  /** The arrivals among the events, in order. */
  function Arrivals(es: seq<Event>, host: Peer, room: RoomId): seq<Event> {
    if es == [] then []
    else if Arrival(es[|es| - 1], host, room) then Arrivals(es[..|es| - 1], host, room) + [es[|es| - 1]]
    else Arrivals(es[..|es| - 1], host, room)
  }

  /** The event is about this room. */
  predicate Concerns(e: Event, room: RoomId) {
    (e.CreateRoom? || e.JoinRoom? || e.RoomHost? || e.RoomAnswer? || e.RoomCandidate? || e.RoomHangUp?) && e.room == room
  }

  function NewMail(st: State, e: Event): seq<(SocketId, Message)> {
    if st.sent <= Step(st, e).sent then Step(st, e).sent[|st.sent|..] else []
  }

  /** What has been sent on account of this room. */
  function Mail(st0: State, es: seq<Event>, room: RoomId): seq<(SocketId, Message)> {
    if es == [] then []
    else
      var before, e := es[..|es| - 1], es[|es| - 1];
      if Concerns(e, room) then Mail(st0, before, room) + NewMail(After(st0, before), e) else Mail(st0, before, room)
  }

  lemma SentGrows(st: State, e: Event)
    ensures st.sent <= Step(st, e).sent && |NewMail(st, e)| <= 1
    ensures Step(st, e).sent == st.sent + NewMail(st, e)
  {
  }

  /** It has really been sent. */
  lemma {:induction false} MailIsSent(st0: State, es: seq<Event>, room: RoomId)
    ensures st0.sent <= After(st0, es).sent
    ensures multiset(Mail(st0, es, room)) <= multiset(After(st0, es).sent[|st0.sent|..])
  {
    if es == [] {
      assert st0.sent[|st0.sent|..] == [];
    } else {
      var before, e := es[..|es| - 1], es[|es| - 1];
      MailIsSent(st0, before, room);
      SentGrows(After(st0, before), e);
      assert After(st0, es).sent[|st0.sent|..] == After(st0, before).sent[|st0.sent|..] + NewMail(After(st0, before), e);
    }
  }

  predicate HostCame(arrivals: seq<Event>) {
    exists i :: 0 <= i < |arrivals| && arrivals[i].RoomHost?
  }

  /** The first join attempt, independently of where the host came in. */
  function FirstJoin(arrivals: seq<Event>): (r: Option<Event>)
    ensures r.Some? ==> r.value.JoinRoom? && r.value in arrivals
    ensures r.Some? <==> exists i :: 0 <= i < |arrivals| && arrivals[i].JoinRoom?
  {
    if arrivals == [] then None else if arrivals[0].JoinRoom? then Some(arrivals[0]) else FirstJoin(arrivals[1..])
  }

  lemma {:induction false} FirstJoinSnoc(es: seq<Event>, e: Event)
    ensures FirstJoin(es + [e]) ==
            if FirstJoin(es).Some? then FirstJoin(es) else if e.JoinRoom? then Some(e) else None
  {
    if es == [] {
      assert [e][1..] == [];
      assert es + [e] == [e];
    } else {
      FirstJoinSnoc(es[1..], e);
      assert (es + [e])[1..] == es[1..] + [e];
    }
  }

  lemma HostCameSnoc(es: seq<Event>, e: Event)
    ensures HostCame(es + [e]) <==> HostCame(es) || e.RoomHost?
  {
    assert (es + [e])[|es|] == e;
    if HostCame(es) {
      var i :| 0 <= i < |es| && es[i].RoomHost?;
      assert (es + [e])[i] == es[i];
    }
  }

  /** What the first joiner's introduction looks like to the creator. */
  function Introduction(join: Event): Message
    requires join.JoinRoom?
  {
    RoomJoined(join.offer, join.peer.user, join.peer.name)
  }

  /** Nobody has been sent an offer of this room but the creator, and that the first joiner's. */
  ghost predicate OnlyOffer(mail: seq<(SocketId, Message)>, host: Peer, join: Option<Event>)
    requires join.Some? ==> join.value.JoinRoom?
  {
    forall m :: m in mail && m.1.RoomJoined? ==> join.Some? && m == (host.ws, Introduction(join.value))
  }

  /** Where the room stands after these arrivals. */
  function EntryAfter(arrivals: seq<Event>, host: Peer): Entry
    requires arrivals != [] && (arrivals[0].RoomHost? || arrivals[0].JoinRoom?)
  {
    var join := FirstJoin(arrivals);
    Entry(if HostCame(arrivals) then Some(host) else None,
          if join.Some? then Some(join.value.peer) else None,
          if join.Some? then Some(join.value.offer) else None,
          if arrivals[0].RoomHost? then Some(arrivals[0].now) else None)
  }

  ghost predicate Progress(st: State, arrivals: seq<Event>, mail: seq<(SocketId, Message)>, host: Peer, room: RoomId) {
    var join := FirstJoin(arrivals);
    && host.ws in st.open
    && OnlyOffer(mail, host, join)
    && (arrivals == [] ==> room !in st.rooms)
    && (arrivals != [] ==>
          (arrivals[0].RoomHost? || arrivals[0].JoinRoom?) && room in st.rooms && st.rooms[room] == EntryAfter(arrivals, host))
    && (HostCame(arrivals) && join.Some? ==> (host.ws, Introduction(join.value)) in mail)
  }

  lemma {:induction false} ArrivalStep(st: State, arrivals: seq<Event>, mail: seq<(SocketId, Message)>,
                                       e: Event, host: Peer, room: RoomId)
    requires room != "" && Arrival(e, host, room) && Progress(st, arrivals, mail, host, room)
    ensures Progress(Step(st, e), arrivals + [e], mail + NewMail(st, e), host, room)
  {
    FirstJoinSnoc(arrivals, e);
    HostCameSnoc(arrivals, e);
    SentGrows(st, e);
    if e.RoomHost? && arrivals != [] && FirstJoin(arrivals).Some? {
      assert NewMail(st, e)[0] == (host.ws, Introduction(FirstJoin(arrivals).value));
    } else if e.JoinRoom? && HostCame(arrivals) && FirstJoin(arrivals).None? {
      assert NewMail(st, e)[0] == (host.ws, Introduction(e));
    }
  }

  /** Other traffic moves neither the entry nor the creator's socket, and sends no offer. */
  lemma {:induction false} AsideLeaves(st: State, e: Event, host: Peer, room: RoomId)
    requires Aside(st, e, host, room)
    ensures room in Step(st, e).rooms <==> room in st.rooms
    ensures room in st.rooms ==> Step(st, e).rooms[room] == st.rooms[room]
    ensures host.ws in st.open ==> host.ws in Step(st, e).open
    ensures Concerns(e, room) ==> forall m :: m in NewMail(st, e) ==> !m.1.RoomJoined?
  {
    SentGrows(st, e);
  }

  lemma {:induction false} ProgressRun(st0: State, es: seq<Event>, host: Peer, room: RoomId)
    requires room != "" && room !in st0.rooms && host.ws in st0.open && Meeting(st0, es, host, room)
    ensures Progress(After(st0, es), Arrivals(es, host, room), Mail(st0, es, room), host, room)
  {
    if es != [] {
      var before, e := es[..|es| - 1], es[|es| - 1];
      ProgressRun(st0, before, host, room);
      if Arrival(e, host, room) {
        ArrivalStep(After(st0, before), Arrivals(before, host, room), Mail(st0, before, room), e, host, room);
      } else {
        AsideLeaves(After(st0, before), e, host, room);
      }
    }
  }

  /** The meeting, whatever the order of arrival. */
  lemma {:induction false} Rendezvous(st0: State, es: seq<Event>, host: Peer, room: RoomId, join: Event)
    requires room != "" && room !in st0.rooms && host.ws in st0.open && Meeting(st0, es, host, room)
    requires HostCame(Arrivals(es, host, room)) && FirstJoin(Arrivals(es, host, room)) == Some(join)
    ensures room in After(st0, es).rooms
    ensures After(st0, es).rooms[room].caller == Some(host)
    ensures After(st0, es).rooms[room].callee == Some(join.peer)
    ensures After(st0, es).rooms[room].offer == Some(join.offer)
    ensures OnlyOffer(Mail(st0, es, room), host, Some(join))
    ensures st0.sent <= After(st0, es).sent && (host.ws, Introduction(join)) in After(st0, es).sent[|st0.sent|..]
  {
    ProgressRun(st0, es, host, room);
    MailIsSent(st0, es, room);
    assert (host.ws, Introduction(join)) in multiset(Mail(st0, es, room));
  }

  /** Two runs with the same first joiner end in the same meeting, whatever the order and the
      traffic. */
  lemma {:induction false} RendezvousIsOrderFree(st0: State, es: seq<Event>, fs: seq<Event>, host: Peer, room: RoomId)
    requires room != "" && room !in st0.rooms && host.ws in st0.open
    requires Meeting(st0, es, host, room) && Meeting(st0, fs, host, room)
    requires HostCame(Arrivals(es, host, room)) && HostCame(Arrivals(fs, host, room))
    requires FirstJoin(Arrivals(es, host, room)).Some?
    requires FirstJoin(Arrivals(es, host, room)) == FirstJoin(Arrivals(fs, host, room))
    ensures room in After(st0, es).rooms && room in After(st0, fs).rooms
    ensures After(st0, es).rooms[room].(createdAt := None) == After(st0, fs).rooms[room].(createdAt := None)
  {
    ProgressRun(st0, es, host, room);
    ProgressRun(st0, fs, host, room);
  }

  /** One thing does depend on the order: an entry opened by its joiner has no creation
      time, so a clean-up takes the entry away if and only if its host came first and
      that was more than 24 hours ago. */
  lemma {:induction false} ReapedIffHostCameFirst(st0: State, es: seq<Event>, host: Peer, room: RoomId, now: nat)
    requires room != "" && room !in st0.rooms && host.ws in st0.open && Meeting(st0, es, host, room)
    requires Arrivals(es, host, room) != []
    ensures room !in HandleReap(After(st0, es), now).rooms <==>
            var first := Arrivals(es, host, room)[0];
            first.RoomHost? && now - first.now > 86400000
  {
    ProgressRun(st0, es, host, room);
  }

  /** After the meeting, answers go to the first joiner and candidates to the other side. */
  lemma MessagesCrossTheRoom(st0: State, es: seq<Event>, host: Peer, room: RoomId, join: Event, text: string)
    requires room != "" && room !in st0.rooms && host.ws in st0.open && Meeting(st0, es, host, room)
    requires HostCame(Arrivals(es, host, room)) && FirstJoin(Arrivals(es, host, room)) == Some(join) && text != ""
    requires join.peer.ws in After(st0, es).open
    ensures var st := After(st0, es);
            Step(st, RoomAnswer(host, room, text)).sent == st.sent + [(join.peer.ws, RoomAnswered(text))] &&
            Step(st, RoomCandidate(host, room, text, "caller")).sent == st.sent + [(join.peer.ws, RoomIce(text))] &&
            Step(st, RoomCandidate(join.peer, room, text, "callee")).sent == st.sent + [(host.ws, RoomIce(text))]
  {
    ProgressRun(st0, es, host, room);
  }
}
