/** What a participant of a relay room can work out about the room from the messages queued
    for it, against who is really there. */
module SfuViews {
  import opened SfuModel

  /** What the client does with one message about room r. */
  function Heard(peers: set<UserId>, m: Message, r: RoomId): set<UserId> {
    match m
    case PeerJoined(room, peer, _) => if room == r then peers + {peer} else peers
    case PeerLeft(room, peer) => if room == r then peers - {peer} else peers
    case _ => peers
  }

  function Replay(peers: set<UserId>, ms: seq<Message>, r: RoomId): set<UserId> {
    if ms == [] then peers else Heard(Replay(peers, ms[..|ms| - 1], r), ms[|ms| - 1], r)
  }

  /** What one event queues for u. */
  function Queued(st: State, e: Event, u: UserId): seq<Message> {
    match e
    case Join(v, name, r) =>
      if Full(st, r) then (if u == v then [RoomFull(r)] else [])
      else if u in Others(st, r, v) then [PeerJoined(r, v, name)]
      else []
    case Acknowledge(v, r, count) => if u == v then [SfuJoined(r, count)] else []
    case Leave(v, r) => if v in Members(st, r) && u in Others(st, r, v) then [PeerLeft(r, v)] else []
    case _ => []
  }

  lemma MailStep(st: State, e: Event, u: UserId)
    ensures Mail(Step(st, e), u) == Mail(st, u) + Queued(st, e, u)
  {
    if e.Leave? && e.user in RoomOf(st, e.room) {
      assert (RoomOf(st, e.room) - {e.user}).Keys == Others(st, e.room, e.user);
    }
  }

  lemma MembersJoin(st: State, u: UserId, name: string, s: RoomId, r: RoomId)
    ensures Members(HandleJoin(st, u, name, s), r) ==
            if s == r && !Full(st, r) then Members(st, r) + {u} else Members(st, r)
  {
    if s == r && !Full(st, r) {
      assert RoomOf(HandleJoin(st, u, name, r), r) == RoomOf(st, r)[u := Participant(name, false)];
    }
  }

  lemma MembersAnswer(st: State, u: UserId, s: RoomId, r: RoomId)
    ensures Members(HandleAnswer(st, u, s), r) == Members(st, r)
  {
    if s == r && u in RoomOf(st, r) {
      assert RoomOf(HandleAnswer(st, u, r), r) == RoomOf(st, r)[u := st.rooms[r][u].(mediaReady := true)];
    }
  }

  lemma MembersLeave(st: State, u: UserId, s: RoomId, r: RoomId)
    ensures Members(HandleLeave(st, u, s), r) == if s == r then Members(st, r) - {u} else Members(st, r)
  {
    if s == r {
      var remaining := RoomOf(st, r) - {u};
      assert remaining.Keys == Members(st, r) - {u};
    }
  }

  lemma MembersReap(st: State, r: RoomId)
    ensures Members(HandleReap(st), r) == Members(st, r)
  {
  }

  lemma MembersStep(st: State, e: Event, r: RoomId)
    ensures Members(Step(st, e), r) ==
            if e.Join? && e.room == r && !Full(st, r) then Members(st, r) + {e.user}
            else if e.Leave? && e.room == r then Members(st, r) - {e.user}
            else Members(st, r)
  {
    match e
    case Join(u, name, s) => MembersJoin(st, u, name, s, r);
    case Acknowledge(_, _, _) =>
    case Answer(u, s) => MembersAnswer(st, u, s, r);
    case Leave(u, s) => MembersLeave(st, u, s, r);
    case ReapEmpty => MembersReap(st, r);
  }

  /** u's join number i was let in, and u has not joined the room again since. */
  ghost predicate LatestJoin(es: seq<Event>, i: nat, r: RoomId, u: UserId) {
    && i < |es| && JoinsAt(es, i, r, u)
    && (forall k :: i < k < |es| ==> !JoinsAt(es, k, r, u))
  }

  predicate JoinsAt(es: seq<Event>, i: nat, r: RoomId, u: UserId)
    requires i < |es|
  {
    es[i].Join? && es[i].user == u && es[i].room == r && !Full(After(es[..i]), r)
  }

  /** What has been queued for u since its event i. */
  function MailSince(es: seq<Event>, i: nat, u: UserId): seq<Message>
    requires i < |es|
  {
    if |Mail(After(es[..i + 1]), u)| <= |Mail(After(es), u)| then Mail(After(es), u)[|Mail(After(es[..i + 1]), u)|..]
    else []
  }

  function ViewOf(es: seq<Event>, i: nat, r: RoomId, u: UserId): set<UserId>
    requires i < |es|
  {
    Replay(Others(After(es[..i]), r, u), MailSince(es, i, u), r)
  }

  lemma {:induction false} MailGrows(es: seq<Event>, i: nat, u: UserId)
    requires i <= |es|
    ensures Mail(After(es[..i]), u) <= Mail(After(es), u)
    decreases |es|
  {
    if i == |es| {
      assert es[..i] == es;
    } else {
      var before := es[..|es| - 1];
      assert before[..i] == es[..i];
      MailGrows(before, i, u);
      MailStep(After(before), es[|es| - 1], u);
    }
  }

  lemma TailOfLonger(a: seq<Message>, b: seq<Message>, c: seq<Message>)
    requires a <= b
    ensures |a| <= |b + c| && (b + c)[|a|..] == b[|a|..] + c
  {
  }

  lemma ReplayMore(peers: set<UserId>, ms: seq<Message>, more: seq<Message>, r: RoomId)
    requires |more| <= 1
    ensures Replay(peers, ms + more, r) == if more == [] then Replay(peers, ms, r) else Heard(Replay(peers, ms, r), more[0], r)
  {
    if more == [] {
      assert ms + more == ms;
    } else {
      assert (ms + more)[..|ms + more| - 1] == ms;
    }
  }

  lemma ViewGrows(es: seq<Event>, i: nat, r: RoomId, u: UserId)
    requires i < |es| - 1
    ensures |Queued(After(es[..|es| - 1]), es[|es| - 1], u)| <= 1
    ensures var more := Queued(After(es[..|es| - 1]), es[|es| - 1], u);
            var view := ViewOf(es[..|es| - 1], i, r, u);
            ViewOf(es, i, r, u) == if more == [] then view else Heard(view, more[0], r)
  {
    var before, e := es[..|es| - 1], es[|es| - 1];
    var more := Queued(After(before), e, u);
    assert before[..i] == es[..i] && before[..i + 1] == es[..i + 1];
    MailGrows(before, i + 1, u);
    MailStep(After(before), e, u);
    TailOfLonger(Mail(After(es[..i + 1]), u), Mail(After(before), u), more);
    ReplayMore(Others(After(es[..i]), r, u), MailSince(before, i, u), more, r);
  }

  /** One event moves a view the way it moves the room. */
  lemma HeardStep(st: State, e: Event, r: RoomId, u: UserId)
    requires u in Members(st, r) && u in Members(Step(st, e), r)
    ensures Others(Step(st, e), r, u) ==
            if Queued(st, e, u) == [] then Others(st, r, u) else Heard(Others(st, r, u), Queued(st, e, u)[0], r)
  {
    MembersStep(st, e, r);
    if e.Leave? && e.room == r && e.user != u && e.user !in Members(st, r) {
      assert Members(st, r) - {e.user} == Members(st, r);
    }
    if e.Join? && e.room == r && e.user == u {
      assert Members(st, r) + {u} == Members(st, r);
    }
  }

  lemma JoinsAtPrefix(es: seq<Event>, k: nat, r: RoomId, u: UserId)
    requires k < |es| - 1
    ensures JoinsAt(es[..|es| - 1], k, r, u) == JoinsAt(es, k, r, u)
  {
    assert es[..|es| - 1][..k] == es[..k];
  }

  lemma LatestJoinPrefix(es: seq<Event>, i: nat, r: RoomId, u: UserId)
    requires LatestJoin(es, i, r, u) && i < |es| - 1
    ensures LatestJoin(es[..|es| - 1], i, r, u) && !JoinsAt(es, |es| - 1, r, u)
  {
    var before := es[..|es| - 1];
    JoinsAtPrefix(es, i, r, u);
    forall k | i < k < |before| ensures !JoinsAt(before, k, r, u) {
      JoinsAtPrefix(es, k, r, u);
    }
  }

  lemma StaysWithoutJoin(es: seq<Event>, r: RoomId, u: UserId)
    requires es != [] && !JoinsAt(es, |es| - 1, r, u) && u in Members(After(es), r)
    ensures u in Members(After(es[..|es| - 1]), r)
  {
    MembersStep(After(es[..|es| - 1]), es[|es| - 1], r);
  }

  lemma ViewsStep(es: seq<Event>, i: nat, r: RoomId, u: UserId)
    requires i < |es| - 1 && u in Members(After(es), r) && u in Members(After(es[..|es| - 1]), r)
    requires ViewOf(es[..|es| - 1], i, r, u) == Others(After(es[..|es| - 1]), r, u)
    ensures ViewOf(es, i, r, u) == Others(After(es), r, u)
  {
    ViewGrows(es, i, r, u);
    HeardStep(After(es[..|es| - 1]), es[|es| - 1], r, u);
  }

  lemma ViewAtJoin(es: seq<Event>, r: RoomId, u: UserId)
    requires es != [] && JoinsAt(es, |es| - 1, r, u)
    ensures ViewOf(es, |es| - 1, r, u) == Others(After(es), r, u)
  {
    var n := |es| - 1;
    assert es[..n + 1] == es;
    MembersStep(After(es[..n]), es[n], r);
    assert MailSince(es, n, u) == [];
  }

  /** Each participant's view, the others present at its own latest join replayed with the
      notifications queued for it since, is exactly the true set of the others. */
  lemma {:induction false} ViewsAreTrue(es: seq<Event>, i: nat, r: RoomId, u: UserId)
    requires LatestJoin(es, i, r, u) && u in Members(After(es), r)
    ensures ViewOf(es, i, r, u) == Others(After(es), r, u)
    decreases |es|
  {
    if i == |es| - 1 {
      ViewAtJoin(es, r, u);
    } else {
      LatestJoinPrefix(es, i, r, u);
      StaysWithoutJoin(es, r, u);
      ViewsAreTrue(es[..|es| - 1], i, r, u);
      ViewsStep(es, i, r, u);
    }
  }

  lemma LatestJoinExtend(es: seq<Event>, i: nat, r: RoomId, u: UserId)
    requires es != [] && LatestJoin(es[..|es| - 1], i, r, u) && !JoinsAt(es, |es| - 1, r, u)
    ensures LatestJoin(es, i, r, u)
  {
    JoinsAtPrefix(es, i, r, u);
    forall k | i < k < |es| ensures !JoinsAt(es, k, r, u) {
      if k < |es| - 1 {
        JoinsAtPrefix(es, k, r, u);
      }
    }
  }

  /** Every participant has a latest join to start from. */
  lemma {:induction false} MembersHaveJoined(es: seq<Event>, r: RoomId, u: UserId) returns (i: nat)
    requires u in Members(After(es), r)
    ensures LatestJoin(es, i, r, u)
  {
    if JoinsAt(es, |es| - 1, r, u) {
      i := |es| - 1;
    } else {
      StaysWithoutJoin(es, r, u);
      i := MembersHaveJoined(es[..|es| - 1], r, u);
      LatestJoinExtend(es, i, r, u);
    }
  }

  predicate Ready(st: State, r: RoomId, u: UserId) {
    u in RoomOf(st, r) && RoomOf(st, r)[u].mediaReady
  }

  lemma ReadyStep(st: State, e: Event, r: RoomId, u: UserId)
    requires u in Members(st, r) && u in Members(Step(st, e), r)
    ensures Ready(Step(st, e), r, u) <==>
            if e.Join? && e.user == u && e.room == r && !Full(st, r) then false
            else e == Answer(u, r) || Ready(st, r, u)
  {
    MembersStep(st, e, r);
  }

  lemma ReadyAtJoin(es: seq<Event>, r: RoomId, u: UserId)
    requires es != [] && JoinsAt(es, |es| - 1, r, u)
    ensures !Ready(After(es), r, u) && Answer(u, r) !in es[|es| - 1..]
  {
    assert es[|es| - 1..] == [es[|es| - 1]];
  }

  lemma InLonger(es: seq<Event>, i: nat, e: Event)
    requires i < |es| - 1
    ensures e in es[i..] <==> es[|es| - 1] == e || e in es[..|es| - 1][i..]
  {
    assert es[i..] == es[..|es| - 1][i..] + [es[|es| - 1]];
  }

  lemma ReadyExtend(es: seq<Event>, r: RoomId, u: UserId)
    requires es != [] && !JoinsAt(es, |es| - 1, r, u)
    requires u in Members(After(es), r) && u in Members(After(es[..|es| - 1]), r)
    ensures Ready(After(es), r, u) <==> es[|es| - 1] == Answer(u, r) || Ready(After(es[..|es| - 1]), r, u)
  {
    ReadyStep(After(es[..|es| - 1]), es[|es| - 1], r, u);
  }

  /** A participant counts as ready exactly when it has answered since its latest join. */
  lemma {:induction false} ReadyIffAnswered(es: seq<Event>, i: nat, r: RoomId, u: UserId)
    requires LatestJoin(es, i, r, u) && u in Members(After(es), r)
    ensures Ready(After(es), r, u) <==> Answer(u, r) in es[i..]
    decreases |es|
  {
    if i == |es| - 1 {
      ReadyAtJoin(es, r, u);
    } else {
      LatestJoinPrefix(es, i, r, u);
      StaysWithoutJoin(es, r, u);
      ReadyIffAnswered(es[..|es| - 1], i, r, u);
      ReadyExtend(es, r, u);
      InLonger(es, i, Answer(u, r));
    }
  }
}
