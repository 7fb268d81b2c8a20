/** Where the messages for a user go who stays registered on one instance. */
module HubRouting {
  import opened HubModel

  /** The payloads for u sent by instance i, in order. */
  function Select(xs: seq<Item>, i: nat, u: UserId): seq<string> {
    if xs == [] then []
    else if xs[0].Routed? && xs[0].origin == i && xs[0].to == u then [xs[0].payload] + Select(xs[1..], i, u)
    else Select(xs[1..], i, u)
  }

  lemma {:induction false} SelectConcat(xs: seq<Item>, ys: seq<Item>, i: nat, u: UserId)
    ensures Select(xs + ys, i, u) == Select(xs, i, u) + Select(ys, i, u)
  {
    if xs == [] {
      assert xs + ys == ys;
    } else {
      assert (xs + ys)[1..] == xs[1..] + ys;
      SelectConcat(xs[1..], ys, i, u);
    }
  }

  lemma SelectOne(x: Item, i: nat, u: UserId)
    ensures Select([x], i, u) == if x.Routed? && x.origin == i && x.to == u then [x.payload] else []
  {
  }

  /** What instance i was asked to send to u. */
  function Sent(es: seq<Event>, i: nat, u: UserId): seq<string> {
    if es == [] then []
    else
      var before, e := es[..|es| - 1], es[|es| - 1];
      if e.Send? && e.host == i && e.to == u then Sent(before, i, u) + [e.payload] else Sent(before, i, u)
  }

  /** u is connected to h alone, over c, and c carries no one else. */
  ghost predicate Home(st: State, h: nat, u: UserId, c: ConnId) {
    && h < |st.connections| && u in st.connections[h] && st.connections[h][u] == c
    && (forall j, v :: 0 <= j < |st.connections| && v in st.connections[j] && (v == u || st.connections[j][v] == c) ==>
          j == h && v == u)
  }

  /** The event neither registers nor deregisters u, and hands c to no one. */
  predicate Quiet(e: Event, u: UserId, c: ConnId) {
    match e
    case Register(_, v, d) => v != u && d != c
    case Deregister(_, v) => v != u
    case _ => true
  }

  ghost predicate AllQuiet(es: seq<Event>, u: UserId, c: ConnId) {
    forall k :: 0 <= k < |es| ==> Quiet(es[k], u, c)
  }

  /** Published for u by instance i and not yet handled by its host h. */
  function Pending(st: State, h: nat, u: UserId, i: nat): seq<string>
    requires WellFormed(st) && h < |st.connections|
  {
    Select(st.channel[st.cursors[h]..], i, u)
  }

  function Received(st: State, c: ConnId, i: nat, u: UserId): seq<string> {
    Select(Queue(st, c), i, u)
  }

  lemma HomeStep(st: State, e: Event, h: nat, u: UserId, c: ConnId)
    requires WellFormed(st) && Home(st, h, u, c) && Quiet(e, u, c)
    ensures Home(Step(st, e), h, u, c)
  {
  }

  // ------------------------------------------------------------------- one step

  lemma ReceivedMore(st: State, st': State, c: ConnId, x: Item, i: nat, u: UserId)
    requires Queue(st', c) == Queue(st, c) + [x]
    ensures Received(st', c, i, u) ==
            Received(st, c, i, u) + (if x.Routed? && x.origin == i && x.to == u then [x.payload] else [])
  {
    SelectConcat(Queue(st, c), [x], i, u);
    SelectOne(x, i, u);
  }

  lemma PendingPublished(st: State, x: Item, h: nat, u: UserId, i: nat)
    requires WellFormed(st) && h < |st.connections| && x.Routed?
    ensures Pending(st.(channel := st.channel + [x]), h, u, i) ==
            Pending(st, h, u, i) + (if x.origin == i && x.to == u then [x.payload] else [])
  {
    var rest := st.channel[st.cursors[h]..];
    assert (st.channel + [x])[st.cursors[h]..] == rest + [x];
    SelectConcat(rest, [x], i, u);
    SelectOne(x, i, u);
  }

  lemma SendStep(st: State, j: nat, v: UserId, m: string, h: nat, u: UserId, c: ConnId, i: nat)
    requires WellFormed(st) && Home(st, h, u, c) && j < |st.connections|
    ensures var st' := Step(st, Send(j, v, m));
            if v != u || j != i then
              Received(st', c, i, u) == Received(st, c, i, u) && Pending(st', h, u, i) == Pending(st, h, u, i)
            else if j == h then
              Received(st', c, i, u) == Received(st, c, i, u) + [m] && Pending(st', h, u, i) == Pending(st, h, u, i)
            else
              Received(st', c, i, u) == Received(st, c, i, u) && Pending(st', h, u, i) == Pending(st, h, u, i) + [m]
  {
    var st' := Step(st, Send(j, v, m));
    if v in st.connections[j] {
      if v == u {
        ReceivedMore(st, st', c, Routed(j, v, m), i, u);
      }
    } else {
      PendingPublished(st, Routed(j, v, m), h, u, i);
    }
  }

  lemma PendingHandled(st: State, h: nat, u: UserId, i: nat)
    requires WellFormed(st) && h < |st.connections| && st.cursors[h] < |st.channel|
    ensures var x := st.channel[st.cursors[h]];
            Pending(st, h, u, i) ==
            (if x.origin == i && x.to == u then [x.payload] else []) + Select(st.channel[st.cursors[h] + 1..], i, u)
  {
    var rest := st.channel[st.cursors[h]..];
    assert rest[1..] == st.channel[st.cursors[h] + 1..];
  }

  lemma DeliverElsewhere(st: State, j: nat, h: nat, u: UserId, c: ConnId, i: nat)
    requires WellFormed(st) && Home(st, h, u, c) && j < |st.connections| && j != h
    ensures Queue(HandleDeliver(st, j), c) == Queue(st, c)
    ensures WellFormed(HandleDeliver(st, j)) && Pending(HandleDeliver(st, j), h, u, i) == Pending(st, h, u, i)
  {
  }

  /** Handling a published message moves it from what is pending to what is received. */
  lemma DeliverHere(st: State, h: nat, u: UserId, c: ConnId, i: nat)
    requires WellFormed(st) && Home(st, h, u, c)
    ensures WellFormed(HandleDeliver(st, h))
    ensures Received(HandleDeliver(st, h), c, i, u) + Pending(HandleDeliver(st, h), h, u, i) ==
            Received(st, c, i, u) + Pending(st, h, u, i)
  {
    if st.cursors[h] < |st.channel| {
      var x, st' := st.channel[st.cursors[h]], HandleDeliver(st, h);
      PendingHandled(st, h, u, i);
      if x.to == u {
        ReceivedMore(st, st', c, x, i, u);
      } else {
        assert Queue(st', c) == Queue(st, c);
      }
    }
  }

  lemma DeliverStep(st: State, j: nat, h: nat, u: UserId, c: ConnId, i: nat)
    requires WellFormed(st) && Home(st, h, u, c) && j < |st.connections|
    ensures WellFormed(Step(st, Deliver(j)))
    ensures var st' := Step(st, Deliver(j));
            Received(st', c, i, u) + Pending(st', h, u, i) == Received(st, c, i, u) + Pending(st, h, u, i)
  {
    if j == h {
      DeliverHere(st, h, u, c, i);
    } else {
      DeliverElsewhere(st, j, h, u, c, i);
    }
  }

  lemma RegistrationStep(st: State, e: Event, h: nat, u: UserId, c: ConnId, i: nat)
    requires WellFormed(st) && Home(st, h, u, c) && Quiet(e, u, c) && (e.Register? || e.Deregister?)
    ensures WellFormed(Step(st, e))
    ensures Received(Step(st, e), c, i, u) == Received(st, c, i, u)
    ensures Pending(Step(st, e), h, u, i) == Pending(st, h, u, i)
  {
    StepWellFormed(st, e);
    assert Queue(Step(st, e), c) == Queue(st, c);
  }

  // ------------------------------------------------------------------ whole runs

  lemma QuietPrefix(es: seq<Event>, u: UserId, c: ConnId)
    requires AllQuiet(es, u, c) && es != []
    ensures AllQuiet(es[..|es| - 1], u, c) && Quiet(es[|es| - 1], u, c)
  {
  }

  lemma {:induction false} StaysHome(st: State, es: seq<Event>, h: nat, u: UserId, c: ConnId)
    requires WellFormed(st) && Home(st, h, u, c) && AllQuiet(es, u, c)
    ensures Home(Run(st, es), h, u, c)
  {
    if es != [] {
      QuietPrefix(es, u, c);
      StaysHome(st, es[..|es| - 1], h, u, c);
      HomeStep(Run(st, es[..|es| - 1]), es[|es| - 1], h, u, c);
    }
  }

  lemma Regroup(a: seq<string>, b: seq<string>, c: seq<string>)
    ensures (a + b) + c == a + (b + c)
  {
  }

  // --------------------------------------------------- in order, exactly when

  /** From instance i for u: what its connection has been handed, then what is pending. */
  function Line(st: State, h: nat, u: UserId, c: ConnId, i: nat): seq<string>
    requires WellFormed(st) && h < |st.connections|
  {
    Received(st, c, i, u) + Pending(st, h, u, i)
  }

  function SentBy(e: Event, i: nat, u: UserId): seq<string> {
    if e.Send? && e.host == i && e.to == u then [e.payload] else []
  }

  /** The event is not a direct send by the host past a different message of its own that it
      published earlier and has not handled. */
  predicate OvertakesNothing(st: State, e: Event, h: nat, u: UserId)
    requires WellFormed(st) && h < |st.connections|
  {
    e.Send? && e.host == h && e.to == u ==> forall x :: x in Pending(st, h, u, h) ==> x == e.payload
  }

  lemma {:induction false} CommutesIff(m: string, p: seq<string>)
    ensures [m] + p == p + [m] <==> forall x :: x in p ==> x == m
  {
    if p != [] {
      var rest := p[1..];
      CommutesIff(m, rest);
      assert p == [p[0]] + rest && p[0] in p && forall x :: x in rest ==> x in p;
      if [m] + p == p + [m] {
        assert m == ([m] + p)[0] == (p + [m])[0] == p[0];
        assert [m] + rest == ([m] + p)[1..] == (p + [m])[1..] == rest + [m];
      }
    }
  }

  lemma InsertedIff(r: seq<string>, m: string, p: seq<string>)
    ensures (r + [m]) + p == (r + p) + [m] <==> forall x :: x in p ==> x == m
  {
    CommutesIff(m, p);
    var left, right := [m] + p, p + [m];
    assert (r + [m]) + p == r + left && (r + p) + [m] == r + right;
    assert (r + left)[|r|..] == left && (r + right)[|r|..] == right;
  }

  /** For every event and every sender: it extends the line by what it sends if and only if it
      is not the host overtaking itself. */
  lemma StepKeepsOrderIff(st: State, e: Event, h: nat, u: UserId, c: ConnId, i: nat)
    requires WellFormed(st) && Home(st, h, u, c) && Quiet(e, u, c) && i < |st.connections|
    ensures WellFormed(Step(st, e)) && h < |Step(st, e).connections|
    ensures Line(Step(st, e), h, u, c, i) == Line(st, h, u, c, i) + SentBy(e, i, u) <==>
            (i == h ==> OvertakesNothing(st, e, h, u))
  {
    StepWellFormed(st, e);
    if e.host < |st.connections| {
      match e
      case Send(j, v, m) => SendKeepsOrderIff(st, j, v, m, h, u, c, i);
      case Deliver(j) => DeliverStep(st, j, h, u, c, i);
      case Register(_, _, _) => RegistrationStep(st, e, h, u, c, i);
      case Deregister(_, _) => RegistrationStep(st, e, h, u, c, i);
    }
    assert Line(st, h, u, c, i) + [] == Line(st, h, u, c, i);
  }

  lemma SendKeepsOrderIff(st: State, j: nat, v: UserId, m: string, h: nat, u: UserId, c: ConnId, i: nat)
    requires WellFormed(st) && Home(st, h, u, c) && j < |st.connections| && i < |st.connections|
    ensures WellFormed(Step(st, Send(j, v, m))) && h < |Step(st, Send(j, v, m)).connections|
    ensures Line(Step(st, Send(j, v, m)), h, u, c, i) == Line(st, h, u, c, i) + SentBy(Send(j, v, m), i, u) <==>
            (i == h ==> OvertakesNothing(st, Send(j, v, m), h, u))
  {
    StepWellFormed(st, Send(j, v, m));
    SendStep(st, j, v, m, h, u, c, i);
    var r, p := Received(st, c, i, u), Pending(st, h, u, i);
    if v == u && j == i {
      if j == h {
        InsertedIff(r, m, p);
      } else {
        Regroup(r, p, [m]);
      }
    } else {
      assert (r + p) + [] == r + p;
    }
  }

  /** Whatever the order, each event adds exactly what it sends: nothing is lost or doubled. */
  lemma StepKeepsCount(st: State, e: Event, h: nat, u: UserId, c: ConnId, i: nat)
    requires WellFormed(st) && Home(st, h, u, c) && Quiet(e, u, c) && i < |st.connections|
    ensures WellFormed(Step(st, e)) && h < |Step(st, e).connections|
    ensures multiset(Line(Step(st, e), h, u, c, i)) == multiset(Line(st, h, u, c, i)) + multiset(SentBy(e, i, u))
  {
    StepKeepsOrderIff(st, e, h, u, c, i);
    if i == h && !OvertakesNothing(st, e, h, u) {
      SendStep(st, h, u, e.payload, h, u, c, h);
    }
  }

  ghost predicate NothingOvertaken(st: State, es: seq<Event>, h: nat, u: UserId)
    requires WellFormed(st) && h < |st.connections|
  {
    es == [] ||
    (NothingOvertaken(st, es[..|es| - 1], h, u) && OvertakesNothing(Run(st, es[..|es| - 1]), es[|es| - 1], h, u))
  }

  ghost predicate InOrder(st: State, es: seq<Event>, h: nat, u: UserId, c: ConnId, i: nat)
    requires WellFormed(st) && h < |st.connections|
  {
    Line(Run(st, es), h, u, c, i) == Line(st, h, u, c, i) + Sent(es, i, u)
  }

  ghost predicate AlwaysInOrder(st: State, es: seq<Event>, h: nat, u: UserId, c: ConnId, i: nat)
    requires WellFormed(st) && h < |st.connections|
  {
    InOrder(st, es, h, u, c, i) && (es != [] ==> AlwaysInOrder(st, es[..|es| - 1], h, u, c, i))
  }

  lemma AddCounts(start: seq<string>, sent: seq<string>, more: seq<string>, mid: seq<string>, end: seq<string>)
    requires multiset(mid) == multiset(start) + multiset(sent) && multiset(end) == multiset(mid) + multiset(more)
    ensures multiset(end) == multiset(start) + multiset(sent + more)
  {
    assert multiset(sent + more) == multiset(sent) + multiset(more);
  }

  lemma SentIs(es: seq<Event>, i: nat, u: UserId)
    requires es != []
    ensures Sent(es, i, u) == Sent(es[..|es| - 1], i, u) + SentBy(es[|es| - 1], i, u)
  {
  }

  /** While u stays registered on h alone, nothing sent to it is ever lost or doubled. */
  lemma {:induction false} ExactlyOnce(st: State, es: seq<Event>, h: nat, u: UserId, c: ConnId, i: nat)
    requires WellFormed(st) && Home(st, h, u, c) && AllQuiet(es, u, c) && i < |st.connections|
    ensures multiset(Line(Run(st, es), h, u, c, i)) == multiset(Line(st, h, u, c, i)) + multiset(Sent(es, i, u))
  {
    if es != [] {
      var before, e := es[..|es| - 1], es[|es| - 1];
      QuietPrefix(es, u, c);
      ExactlyOnce(st, before, h, u, c, i);
      StaysHome(st, before, h, u, c);
      StepKeepsCount(Run(st, before), e, h, u, c, i);
      SentIs(es, i, u);
      AddCounts(Line(st, h, u, c, i), Sent(before, i, u), SentBy(e, i, u),
                Line(Run(st, before), h, u, c, i), Line(Run(st, es), h, u, c, i));
    }
  }

  lemma InOrderStep(st: State, es: seq<Event>, h: nat, u: UserId, c: ConnId, i: nat)
    requires WellFormed(st) && Home(st, h, u, c) && AllQuiet(es, u, c) && i < |st.connections| && es != []
    requires InOrder(st, es[..|es| - 1], h, u, c, i)
    ensures InOrder(st, es, h, u, c, i) <==>
            (i == h ==> OvertakesNothing(Run(st, es[..|es| - 1]), es[|es| - 1], h, u))
  {
    var before, e := es[..|es| - 1], es[|es| - 1];
    QuietPrefix(es, u, c);
    StaysHome(st, before, h, u, c);
    StepKeepsOrderIff(Run(st, before), e, h, u, c, i);
    Regroup(Line(st, h, u, c, i), Sent(before, i, u), SentBy(e, i, u));
    assert Sent(before, i, u) + [] == Sent(before, i, u);
  }

  /** While u stays registered on h alone: what has reached its connection from instance i,
      then what is still pending, is what was there at the start and then everything instance
      i has sent since, in order; from the host itself, provided it overtakes nothing. */
  lemma {:induction false} InOrderExactlyOnce(st: State, es: seq<Event>, h: nat, u: UserId, c: ConnId, i: nat)
    requires WellFormed(st) && Home(st, h, u, c) && AllQuiet(es, u, c) && i < |st.connections|
    requires i == h ==> NothingOvertaken(st, es, h, u)
    ensures InOrder(st, es, h, u, c, i)
  {
    if es == [] {
      assert Line(st, h, u, c, i) + [] == Line(st, h, u, c, i);
    } else {
      QuietPrefix(es, u, c);
      InOrderExactlyOnce(st, es[..|es| - 1], h, u, c, i);
      InOrderStep(st, es, h, u, c, i);
    }
  }

  /** The proviso is exact: the host's own messages are in order all along if and only if it
      never sends one past a different one still pending. */
  lemma {:induction false} AlwaysInOrderIff(st: State, es: seq<Event>, h: nat, u: UserId, c: ConnId)
    requires WellFormed(st) && Home(st, h, u, c) && AllQuiet(es, u, c)
    ensures AlwaysInOrder(st, es, h, u, c, h) <==> NothingOvertaken(st, es, h, u)
  {
    if es == [] {
      assert Line(st, h, u, c, h) + [] == Line(st, h, u, c, h);
    } else {
      QuietPrefix(es, u, c);
      AlwaysInOrderIff(st, es[..|es| - 1], h, u, c);
      if AlwaysInOrder(st, es[..|es| - 1], h, u, c, h) {
        InOrderStep(st, es, h, u, c, h);
      }
    }
  }

  /** What the host has published for u itself can only be used up while u is there. */
  lemma PendingOnlyShrinks(st: State, e: Event, h: nat, u: UserId, c: ConnId, x: string)
    requires WellFormed(st) && Home(st, h, u, c) && Quiet(e, u, c)
    ensures WellFormed(Step(st, e)) && h < |Step(st, e).connections|
    ensures x in Pending(Step(st, e), h, u, h) ==> x in Pending(st, h, u, h)
  {
    StepWellFormed(st, e);
    if e.host < |st.connections| {
      match e
      case Send(j, v, m) => SendStep(st, j, v, m, h, u, c, h);
      case Deliver(j) => HandledShrinks(st, j, h, u, x);
      case Register(_, _, _) => RegistrationStep(st, e, h, u, c, h);
      case Deregister(_, _) => RegistrationStep(st, e, h, u, c, h);
    }
  }

  lemma HandledShrinks(st: State, j: nat, h: nat, u: UserId, x: string)
    requires WellFormed(st) && h < |st.connections| && j < |st.connections|
    ensures WellFormed(HandleDeliver(st, j)) && h < |HandleDeliver(st, j).connections|
    ensures x in Pending(HandleDeliver(st, j), h, u, h) ==> x in Pending(st, h, u, h)
  {
    if j == h && st.cursors[h] < |st.channel| {
      PendingHandled(st, h, u, h);
    }
  }

  lemma {:induction false} PendingWasThere(st: State, es: seq<Event>, h: nat, u: UserId, c: ConnId, x: string)
    requires WellFormed(st) && Home(st, h, u, c) && AllQuiet(es, u, c)
    ensures x in Pending(Run(st, es), h, u, h) ==> x in Pending(st, h, u, h)
  {
    if es != [] {
      QuietPrefix(es, u, c);
      PendingWasThere(st, es[..|es| - 1], h, u, c, x);
      StaysHome(st, es[..|es| - 1], h, u, c);
      PendingOnlyShrinks(Run(st, es[..|es| - 1]), es[|es| - 1], h, u, c, x);
    }
  }

  /** With nothing pending at the start, nothing can be overtaken. */
  lemma {:induction false} NothingToOvertake(st: State, es: seq<Event>, h: nat, u: UserId, c: ConnId)
    requires WellFormed(st) && Home(st, h, u, c) && AllQuiet(es, u, c) && Pending(st, h, u, h) == []
    ensures NothingOvertaken(st, es, h, u)
  {
    if es != [] {
      QuietPrefix(es, u, c);
      NothingToOvertake(st, es[..|es| - 1], h, u, c);
      var p := Pending(Run(st, es[..|es| - 1]), h, u, h);
      if p != [] {
        PendingWasThere(st, es[..|es| - 1], h, u, c, p[0]);
      }
    }
  }

  /** So a user to whom the host itself owes nothing at the start gets from every instance, the
      host included, everything in order, whatever is sent. */
  lemma InOrderWhenNothingIsOwed(st: State, es: seq<Event>, h: nat, u: UserId, c: ConnId, i: nat)
    requires WellFormed(st) && Home(st, h, u, c) && AllQuiet(es, u, c) && i < |st.connections|
    requires Pending(st, h, u, h) == []
    ensures InOrder(st, es, h, u, c, i) && AlwaysInOrder(st, es, h, u, c, h)
  {
    NothingToOvertake(st, es, h, u, c);
    InOrderExactlyOnce(st, es, h, u, c, i);
    AlwaysInOrderIff(st, es, h, u, c);
  }

  /** The connection has been handed, at some place, something other than what was due there. */
  ghost predicate Misplaced(st: State, es: seq<Event>, h: nat, u: UserId, c: ConnId)
    requires WellFormed(st) && h < |st.connections|
  {
    var got, due := Received(Run(st, es), c, h, u), Line(st, h, u, c, h) + Sent(es, h, u);
    exists k :: 0 <= k < |got| && k < |due| && got[k] != due[k]
  }

  lemma ReceivedGrows(st: State, e: Event, c: ConnId, i: nat, u: UserId)
    requires WellFormed(st)
    ensures Received(st, c, i, u) <= Received(Step(st, e), c, i, u)
  {
    var q, q' := Queue(st, c), Queue(Step(st, e), c);
    if q' != q {
      assert q' == q + [q'[|q|]];
      SelectConcat(q, [q'[|q|]], i, u);
    }
  }

  lemma MisplacedStays(st: State, es: seq<Event>, h: nat, u: UserId, c: ConnId)
    requires WellFormed(st) && h < |st.connections| && es != [] && Misplaced(st, es[..|es| - 1], h, u, c)
    ensures Misplaced(st, es, h, u, c)
  {
    var before, e := es[..|es| - 1], es[|es| - 1];
    ReceivedGrows(Run(st, before), e, c, h, u);
    var got, due := Received(Run(st, before), c, h, u), Line(st, h, u, c, h) + Sent(before, h, u);
    var k :| 0 <= k < |got| && k < |due| && got[k] != due[k];
    var got', due' := Received(Run(st, es), c, h, u), Line(st, h, u, c, h) + Sent(es, h, u);
    assert got'[k] == got[k] && due'[k] == due[k];
  }

  lemma DueNext(r: seq<string>, p: seq<string>, m: string)
    requires p != []
    ensures |r| < |(r + p) + [m]| && ((r + p) + [m])[|r|] == p[0]
  {
  }

  /** A send past something pending puts its message where that was due. */
  lemma OvertakingMisplaces(st: State, es: seq<Event>, h: nat, u: UserId, c: ConnId)
    requires WellFormed(st) && Home(st, h, u, c) && AllQuiet(es, u, c) && es != []
    requires InOrder(st, es[..|es| - 1], h, u, c, h)
    requires !OvertakesNothing(Run(st, es[..|es| - 1]), es[|es| - 1], h, u)
    requires es[|es| - 1].payload !in Pending(Run(st, es[..|es| - 1]), h, u, h)
    ensures Misplaced(st, es, h, u, c)
  {
    var before, m := es[..|es| - 1], es[|es| - 1].payload;
    StaysHome(st, before, h, u, c);
    var mid, end := Run(st, before), Run(st, es);
    SendStep(mid, h, u, m, h, u, c, h);
    var r, p := Received(mid, c, h, u), Pending(mid, h, u, h);
    SentIs(es, h, u);
    Regroup(Line(st, h, u, c, h), Sent(before, h, u), [m]);
    DueNext(r, p, m);
    assert Received(end, c, h, u) == r + [m] && (r + [m])[|r|] == m;
    assert p[0] in p;
  }

  lemma {:induction false} KeptOrMisplaced(st: State, es: seq<Event>, h: nat, u: UserId, c: ConnId)
    requires WellFormed(st) && Home(st, h, u, c) && AllQuiet(es, u, c)
    requires forall x :: x in Sent(es, h, u) ==> x !in Pending(st, h, u, h)
    ensures if NothingOvertaken(st, es, h, u) then InOrder(st, es, h, u, c, h) else Misplaced(st, es, h, u, c)
  {
    if NothingOvertaken(st, es, h, u) {
      InOrderExactlyOnce(st, es, h, u, c, h);
    } else {
      var before, e := es[..|es| - 1], es[|es| - 1];
      QuietPrefix(es, u, c);
      assert forall x :: x in Sent(before, h, u) ==> x in Sent(es, h, u);
      KeptOrMisplaced(st, before, h, u, c);
      if NothingOvertaken(st, before, h, u) {
        assert Sent(es, h, u) == Sent(before, h, u) + [e.payload];
        assert e.payload in Sent(es, h, u);
        PendingWasThere(st, before, h, u, c, e.payload);
        OvertakingMisplaces(st, es, h, u, c);
      } else {
        MisplacedStays(st, es, h, u, c);
      }
    }
  }

  lemma MisplacedIsDisorder(st: State, es: seq<Event>, h: nat, u: UserId, c: ConnId)
    requires WellFormed(st) && h < |st.connections| && Misplaced(st, es, h, u, c)
    ensures !InOrder(st, es, h, u, c, h)
  {
    var got, due := Received(Run(st, es), c, h, u), Line(st, h, u, c, h) + Sent(es, h, u);
    var k :| 0 <= k < |got| && k < |due| && got[k] != due[k];
    assert Line(Run(st, es), h, u, c, h)[k] == got[k];
  }

  /** And it is final: if the host sends nothing equal to what was pending at the start, its
      messages end in order if and only if it never sent one while any was pending. */
  lemma EndsInOrderIff(st: State, es: seq<Event>, h: nat, u: UserId, c: ConnId)
    requires WellFormed(st) && Home(st, h, u, c) && AllQuiet(es, u, c)
    requires forall x :: x in Sent(es, h, u) ==> x !in Pending(st, h, u, h)
    ensures InOrder(st, es, h, u, c, h) <==> NothingOvertaken(st, es, h, u)
  {
    KeptOrMisplaced(st, es, h, u, c);
    if !NothingOvertaken(st, es, h, u) {
      MisplacedIsDisorder(st, es, h, u, c);
    }
  }

  /** Once the host has handled the whole channel, the connection holds it all. */
  lemma DrainedMeansDelivered(st: State, es: seq<Event>, h: nat, u: UserId, c: ConnId, i: nat)
    requires WellFormed(st) && Home(st, h, u, c) && AllQuiet(es, u, c) && i < |st.connections|
    requires i == h ==> NothingOvertaken(st, es, h, u)
    requires Run(st, es).cursors[h] == |Run(st, es).channel|
    ensures Received(Run(st, es), c, i, u) == Received(st, c, i, u) + Pending(st, h, u, i) + Sent(es, i, u)
  {
    InOrderExactlyOnce(st, es, h, u, c, i);
    var end := Run(st, es);
    assert end.channel[end.cursors[h]..] == [];
    assert Received(end, c, i, u) + [] == Received(end, c, i, u);
  }

  // ------------------------------------------------------- and nowhere else

  predicate Names(x: Item, u: UserId) {
    x.Routed? && x.to == u
  }

  function Named(xs: seq<Item>, u: UserId): seq<Item> {
    if xs == [] then []
    else if Names(xs[|xs| - 1], u) then Named(xs[..|xs| - 1], u) + [xs[|xs| - 1]]
    else Named(xs[..|xs| - 1], u)
  }

  lemma NamedMore(xs: seq<Item>, x: Item, u: UserId)
    requires !Names(x, u)
    ensures Named(xs + [x], u) == Named(xs, u)
  {
    assert (xs + [x])[..|xs|] == xs;
  }

  lemma ElsewhereStep(st: State, e: Event, h: nat, u: UserId, c: ConnId, d: ConnId)
    requires WellFormed(st) && Home(st, h, u, c) && Quiet(e, u, c) && d != c
    ensures Named(Queue(Step(st, e), d), u) == Named(Queue(st, d), u)
  {
    var q, q' := Queue(st, d), Queue(Step(st, e), d);
    if q' != q {
      NamedMore(q, q'[|q|], u);
      assert q' == q + [q'[|q|]];
    }
  }

  /** No other connection, on any instance, is handed a message for u. */
  lemma {:induction false} NowhereElse(st: State, es: seq<Event>, h: nat, u: UserId, c: ConnId, d: ConnId)
    requires WellFormed(st) && Home(st, h, u, c) && AllQuiet(es, u, c) && d != c
    ensures Named(Queue(Run(st, es), d), u) == Named(Queue(st, d), u)
  {
    if es != [] {
      QuietPrefix(es, u, c);
      NowhereElse(st, es[..|es| - 1], h, u, c, d);
      StaysHome(st, es[..|es| - 1], h, u, c);
      ElsewhereStep(Run(st, es[..|es| - 1]), es[|es| - 1], h, u, c, d);
    }
  }

  lemma RunMore(st: State, es: seq<Event>, e: Event)
    requires WellFormed(st)
    ensures Run(st, es + [e]) == Step(Run(st, es), e)
  {
    assert (es + [e])[..|es|] == es;
  }

  lemma SentMore(es: seq<Event>, e: Event, i: nat, u: UserId)
    ensures Sent(es + [e], i, u) == Sent(es, i, u) + if e.Send? && e.host == i && e.to == u then [e.payload] else []
  {
    assert (es + [e])[..|es|] == es;
  }

  function Overtaking(u: UserId, c: ConnId): seq<Event> {
    [] + [Send(0, u, "1")] + [Register(0, u, c)] + [Send(0, u, "2")] + [Deliver(0)]
  }

  lemma OvertakingSends(u: UserId, c: ConnId)
    ensures Sent(Overtaking(u, c), 0, u) == ["1", "2"]
  {
    SentMore([], Send(0, u, "1"), 0, u);
    SentMore([] + [Send(0, u, "1")], Register(0, u, c), 0, u);
    SentMore([] + [Send(0, u, "1")] + [Register(0, u, c)], Send(0, u, "2"), 0, u);
    SentMore([] + [Send(0, u, "1")] + [Register(0, u, c)] + [Send(0, u, "2")], Deliver(0), 0, u);
  }

  /** It does happen: a message published before u registered on the host is overtaken by one
      that the host sends directly afterwards. */
  lemma LocalOvertakesPublished(u: UserId, c: ConnId)
    ensures Received(Run(Initial(1), Overtaking(u, c)), c, 0, u) == ["2", "1"]
    ensures Sent(Overtaking(u, c), 0, u) == ["1", "2"]
  {
    OvertakingSends(u, c);
    var e1 := [] + [Send(0, u, "1")];
    var e2 := e1 + [Register(0, u, c)];
    var e3 := e2 + [Send(0, u, "2")];
    RunMore(Initial(1), [], Send(0, u, "1"));
    RunMore(Initial(1), e1, Register(0, u, c));
    RunMore(Initial(1), e2, Send(0, u, "2"));
    RunMore(Initial(1), e3, Deliver(0));
    PublishThenRegister(Initial(1), u, c);
    SendLocally(Run(Initial(1), e2), u, c);
    Overtaken(Run(Initial(1), e3), u, c);
  }

  lemma PublishThenRegister(st: State, u: UserId, c: ConnId)
    requires st == Initial(1)
    ensures WellFormed(st) && WellFormed(Step(st, Send(0, u, "1")))
    ensures Step(Step(st, Send(0, u, "1")), Register(0, u, c)) == State([map[u := c]], [0], [Routed(0, u, "1")], map[])
  {
    assert Initial(1) == State([map[]], [0], [], map[]);
    var s1 := Step(st, Send(0, u, "1"));
    assert s1 == State([map[]], [0], [Routed(0, u, "1")], map[]);
  }

  lemma SendLocally(st: State, u: UserId, c: ConnId)
    requires st == State([map[u := c]], [0], [Routed(0, u, "1")], map[])
    ensures WellFormed(st)
    ensures Step(st, Send(0, u, "2")) == State([map[u := c]], [0], [Routed(0, u, "1")], map[c := [Routed(0, u, "2")]])
  {
    assert u in st.connections[0] && st.connections[0][u] == c;
    assert QueueIn(st.queues, c) + [Routed(0, u, "2")] == [Routed(0, u, "2")];
  }

  lemma Overtaken(st: State, u: UserId, c: ConnId)
    requires st == State([map[u := c]], [0], [Routed(0, u, "1")], map[c := [Routed(0, u, "2")]])
    ensures WellFormed(st) && Received(Step(st, Deliver(0)), c, 0, u) == ["2", "1"]
  {
    var queued := [Routed(0, u, "2")];
    assert Queue(Step(st, Deliver(0)), c) == queued + [Routed(0, u, "1")];
    SelectConcat(queued, [Routed(0, u, "1")], 0, u);
    SelectOne(Routed(0, u, "1"), 0, u);
    SelectOne(Routed(0, u, "2"), 0, u);
  }
}
