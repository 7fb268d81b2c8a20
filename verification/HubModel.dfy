/** The signaling hub of server-rust/src/signaling/hub.rs on N server instances: a message
    goes straight to a local connection or else over a Redis channel that every instance
    reads in order. */
module HubModel {

  type UserId = string
  type ConnId = int

  /** What is queued on a connection or published.  `origin`, the sending instance, is
      bookkeeping that the real message does not carry. */
  datatype Item =
    | Routed(origin: nat, to: UserId, payload: string)
    | SessionReplaced

  /** `cursors[i]` counts the published messages that instance i has handled. */
  datatype State = State(
    connections: seq<map<UserId, ConnId>>,
    cursors: seq<nat>,
    channel: seq<Item>,
    queues: map<ConnId, seq<Item>>)

  datatype Event =
    | Register(host: nat, user: UserId, conn: ConnId)
    | Deregister(host: nat, user: UserId)
    | Send(host: nat, to: UserId, payload: string)
    | Deliver(host: nat)

  function Initial(n: nat): (st: State)
    ensures WellFormed(st) && |st.connections| == n
  {
    State(seq(n, _ => map[]), seq(n, _ => 0), [], map[])
  }

  predicate WellFormed(st: State) {
    && |st.cursors| == |st.connections|
    && (forall i :: 0 <= i < |st.cursors| ==> st.cursors[i] <= |st.channel|)
    && (forall k :: 0 <= k < |st.channel| ==> st.channel[k].Routed?)
  }

  function QueueIn(queues: map<ConnId, seq<Item>>, c: ConnId): seq<Item> {
    if c in queues then queues[c] else []
  }

  function Queue(st: State, c: ConnId): seq<Item> {
    QueueIn(st.queues, c)
  }

  function Enqueue(queues: map<ConnId, seq<Item>>, c: ConnId, x: Item): map<ConnId, seq<Item>> {
    queues[c := QueueIn(queues, c) + [x]]
  }

  function HandleRegister(st: State, i: nat, u: UserId, c: ConnId): State
    requires i < |st.connections|
  {
    st.(connections := st.connections[i := st.connections[i][u := c]],
        queues := if u in st.connections[i] then Enqueue(st.queues, st.connections[i][u], SessionReplaced) else st.queues)
  }

  function HandleSend(st: State, i: nat, to: UserId, payload: string): State
    requires i < |st.connections|
  {
    if to in st.connections[i] then
      st.(queues := Enqueue(st.queues, st.connections[i][to], Routed(i, to, payload)))
    else
      st.(channel := st.channel + [Routed(i, to, payload)])
  }

  /** The subscriber loop takes one message and drops it unless its user is connected here. */
  function HandleDeliver(st: State, i: nat): State
    requires WellFormed(st) && i < |st.connections|
  {
    if st.cursors[i] == |st.channel| then st
    else
      var x := st.channel[st.cursors[i]];
      st.(cursors := st.cursors[i := st.cursors[i] + 1],
          queues := if x.to in st.connections[i] then Enqueue(st.queues, st.connections[i][x.to], x) else st.queues)
  }

  function Step(st: State, e: Event): State
    requires WellFormed(st)
  {
    if e.host >= |st.connections| then st
    else
      match e
      case Register(i, u, c) => HandleRegister(st, i, u, c)
      case Deregister(i, u) => st.(connections := st.connections[i := st.connections[i] - {u}])
      case Send(i, to, payload) => HandleSend(st, i, to, payload)
      case Deliver(i) => HandleDeliver(st, i)
  }

  lemma StepWellFormed(st: State, e: Event)
    requires WellFormed(st)
    ensures WellFormed(Step(st, e)) && |Step(st, e).connections| == |st.connections|
  {
  }

  function Run(st: State, es: seq<Event>): (after: State)
    requires WellFormed(st)
    ensures WellFormed(after) && |after.connections| == |st.connections|
  {
    if es == [] then st
    else
      var before := Run(st, es[..|es| - 1]);
      StepWellFormed(before, es[|es| - 1]);
      Step(before, es[|es| - 1])
  }

  lemma {:induction false} RunConcat(st: State, es: seq<Event>, fs: seq<Event>)
    requires WellFormed(st)
    ensures Run(st, es + fs) == Run(Run(st, es), fs)
  {
    if fs == [] {
      assert es + fs == es;
    } else {
      assert (es + fs)[..|es + fs| - 1] == es + fs[..|fs| - 1];
      RunConcat(st, es, fs[..|fs| - 1]);
    }
  }
}
