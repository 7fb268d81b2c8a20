/** The SignalingHub of server-rust/src/signaling/hub.rs on each of several instances.  What
    they share remembers what they have done, and each is its part of what HubModel says after
    that, so a user who stays on one of them gets every message once and in order. */
module HubServer {
  import opened HubModel
  import opened HubRouting

  /** What the instances share: the Redis channel and the queues of the connections. */
  class Bus {
    const instances: nat
    var channel: seq<Item>
    var queues: map<ConnId, seq<Item>>
    ghost var history: seq<Event>

    ghost function Cluster(): (st: State)
      reads this
      ensures WellFormed(st) && |st.connections| == instances
    {
      Run(Initial(instances), history)
    }

    ghost predicate Valid()
      reads this
    {
      channel == Cluster().channel && queues == Cluster().queues
    }

    constructor (instances: nat)
      ensures this.instances == instances && Valid() && history == []
    {
      this.instances, channel, queues, history := instances, [], map[], [];
    }

    method SendOn(c: ConnId, x: Item)
      modifies this`queues
      ensures queues == Enqueue(old(queues), c, x)
      ensures queues == Queued(old(queues), c, x)
    {
      queues := queues[c := QueueIn(queues, c) + [x]];
    }

    method Publish(x: Item)
      modifies this`channel
      ensures channel == old(channel) + [x]
    {
      channel := channel + [x];
    }
  }

  /** One more item at the end of what is queued on a connection. */
  function Queued(queues: map<ConnId, seq<Item>>, c: ConnId, x: Item): map<ConnId, seq<Item>> {
    queues[c := (if c in queues then queues[c] else []) + [x]]
  }

  class SignalingHub {
    const host: nat
    const bus: Bus
    var connections: map<UserId, ConnId>
    var cursor: nat

    ghost predicate Valid()
      reads this, bus
    {
      && bus.Valid() && host < bus.instances
      && connections == bus.Cluster().connections[host] && cursor == bus.Cluster().cursors[host]
    }

    constructor (host: nat, bus: Bus)
      requires bus.Valid() && bus.history == [] && host < bus.instances
      ensures this.host == host && this.bus == bus && Valid()
    {
      this.host, this.bus, connections, cursor := host, bus, map[], 0;
    }

    /** The event just handled is added to the history that the instances share. */
    ghost method Record(before: State, e: Event)
      requires host < bus.instances && before == bus.Cluster() && e.host == host
      requires var after := Step(before, e);
               connections == after.connections[host] && cursor == after.cursors[host] &&
               bus.channel == after.channel && bus.queues == after.queues
      modifies bus`history
      ensures Valid() && bus.history == old(bus.history) + [e]
    {
      assert (bus.history + [e])[..|bus.history|] == bus.history;
      bus.history := bus.history + [e];
    }

    /** What another instance does leaves this one a part of the cluster. */
    twostate lemma StaysPart(e: Event)
      requires old(Valid()) && e.host != host && bus.Valid() && bus.history == old(bus.history) + [e]
      requires connections == old(connections) && cursor == old(cursor)
      ensures Valid()
    {
      assert bus.history[..|bus.history| - 1] == old(bus.history);
    }

    method OnRegister(u: UserId, c: ConnId)
      requires Valid()
      modifies this`connections, bus`queues, bus`history
      ensures Valid() && bus.history == old(bus.history) + [Register(host, u, c)]
      ensures connections == old(connections)[u := c]
      ensures bus.queues == if u in old(connections) then Queued(old(bus.queues), old(connections)[u], SessionReplaced)
                            else old(bus.queues)
    {
      ghost var before := bus.Cluster();
      if u in connections {
        bus.SendOn(connections[u], SessionReplaced);
      }
      connections := connections[u := c];
      Record(before, Register(host, u, c));
    }

    method OnDeregister(u: UserId)
      requires Valid()
      modifies this`connections, bus`history
      ensures Valid() && bus.history == old(bus.history) + [Deregister(host, u)]
      ensures connections == old(connections) - {u}
    {
      ghost var before := bus.Cluster();
      connections := connections - {u};
      Record(before, Deregister(host, u));
    }

    /** A local connection first, the channel otherwise, never both. */
    method SendTo(to: UserId, payload: string)
      requires Valid()
      modifies bus
      ensures Valid() && bus.history == old(bus.history) + [Send(host, to, payload)]
      ensures to in connections ==>
                bus.channel == old(bus.channel) &&
                bus.queues == Queued(old(bus.queues), connections[to], Routed(host, to, payload))
      ensures to !in connections ==>
                bus.channel == old(bus.channel) + [Routed(host, to, payload)] && bus.queues == old(bus.queues)
    {
      ghost var before := bus.Cluster();
      if to in connections {
        bus.SendOn(connections[to], Routed(host, to, payload));
      } else {
        bus.Publish(Routed(host, to, payload));
      }
      Record(before, Send(host, to, payload));
    }

    /** One turn of the subscriber loop. */
    method OnMessage()
      requires Valid()
      modifies this`cursor, bus`queues, bus`history
      ensures Valid() && bus.history == old(bus.history) + [Deliver(host)]
      ensures old(cursor) == |bus.channel| ==> cursor == old(cursor) && bus.queues == old(bus.queues)
      ensures old(cursor) < |bus.channel| ==>
                var x := bus.channel[old(cursor)];
                && cursor == old(cursor) + 1
                && bus.queues == if x.to in connections then Queued(old(bus.queues), connections[x.to], x) else old(bus.queues)
    {
      ghost var before := bus.Cluster();
      if cursor < |bus.channel| {
        var x := bus.channel[cursor];
        cursor := cursor + 1;
        if x.to in connections {
          bus.SendOn(connections[x.to], x);
        }
      }
      Record(before, Deliver(host));
    }

    /** Whatever the instances have done since a user settled here alone: once this one has
        handled the channel, the user's connection holds what it held or was due at that time
        and then all that any instance sent since, in order. */
    lemma ResidentsGetEverything(settled: nat, u: UserId, c: ConnId, i: nat)
      requires Valid() && settled <= |bus.history| && i < bus.instances && cursor == |bus.channel|
      requires Home(Run(Initial(bus.instances), bus.history[..settled]), host, u, c)
      requires AllQuiet(bus.history[settled..], u, c)
      requires i == host ==>
                 NothingOvertaken(Run(Initial(bus.instances), bus.history[..settled]), bus.history[settled..], host, u)
      ensures var start := Run(Initial(bus.instances), bus.history[..settled]);
              Select(QueueIn(bus.queues, c), i, u) ==
              Received(start, c, i, u) + Pending(start, host, u, i) + Sent(bus.history[settled..], i, u)
    {
      var start := Run(Initial(bus.instances), bus.history[..settled]);
      RunConcat(Initial(bus.instances), bus.history[..settled], bus.history[settled..]);
      assert bus.history[..settled] + bus.history[settled..] == bus.history;
      DrainedMeansDelivered(start, bus.history[settled..], host, u, c, i);
    }

    /** With no proviso on what was sent, if this instance owed the user nothing of its own when
        the user settled here, as when it had handled the channel by then. */
    lemma NothingOwedEverythingInOrder(settled: nat, u: UserId, c: ConnId, i: nat)
      requires Valid() && settled <= |bus.history| && i < bus.instances && cursor == |bus.channel|
      requires Home(Run(Initial(bus.instances), bus.history[..settled]), host, u, c)
      requires AllQuiet(bus.history[settled..], u, c)
      requires Pending(Run(Initial(bus.instances), bus.history[..settled]), host, u, host) == []
      ensures var start := Run(Initial(bus.instances), bus.history[..settled]);
              Select(QueueIn(bus.queues, c), i, u) ==
              Received(start, c, i, u) + Pending(start, host, u, i) + Sent(bus.history[settled..], i, u)
    {
      NothingToOvertake(Run(Initial(bus.instances), bus.history[..settled]), bus.history[settled..], host, u, c);
      ResidentsGetEverything(settled, u, c, i);
    }
  }
}
