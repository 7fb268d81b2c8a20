/** The contacts table of server-rust/src/routes/contacts.rs at the level of single SQL
    statements.  Statements of any number of handlers may come in any order; a statement
    that acts on the outcome of an earlier read names the position of that read. */
module ContactRows {
  import opened Wrappers

  type UserId = string

  datatype Status = Pending | Accepted | Blocked

  /** UNIQUE (requester_id, target_id) */
  type Table = map<(UserId, UserId), Status>

  datatype Statement =
    | StatusRead(me: UserId, target: UserId)
    | SendUpsert(requester: UserId, target: UserId, read: nat)
    | InviteInsert(requester: UserId, target: UserId)
    | AcceptUpdate(requester: UserId, target: UserId)
    | DeclineDelete(requester: UserId, target: UserId)
    | RemoveDelete(me: UserId, other: UserId)
    | BlockDelete(me: UserId, other: UserId)
    | BlockInsert(me: UserId, other: UserId)
    | CallRead(caller: UserId, callee: UserId)
    | CallIncoming(caller: UserId, callee: UserId, read: nat)

  function Row(t: Table, p: UserId, q: UserId): Option<Status> {
    if (p, q) in t then Some(t[(p, q)]) else None
  }

  /** The EXISTS query of can_call. */
  predicate CanCall(t: Table, a: UserId, b: UserId) {
    Row(t, a, b) == Some(Accepted) || Row(t, b, a) == Some(Accepted)
  }

  predicate NoRow(t: Table, a: UserId, b: UserId) {
    (a, b) !in t && (b, a) !in t
  }

  function Accept(t: Table, requester: UserId, target: UserId): Table {
    if Row(t, requester, target) == Some(Pending) then t[(requester, target) := Accepted] else t
  }

  function Decline(t: Table, requester: UserId, target: UserId): Table {
    if Row(t, requester, target) == Some(Pending) then t - {(requester, target)} else t
  }

  /** INSERT that leaves an existing row alone: ON CONFLICT DO NOTHING, or a violation of
      the UNIQUE constraint. */
  function InsertIfAbsent(t: Table, a: UserId, b: UserId, status: Status): Table {
    if (a, b) in t then t else t[(a, b) := status]
  }

  function DeleteAccepted(t: Table, a: UserId, b: UserId): Table {
    t - set k | k in {(a, b), (b, a)} && k in t && t[k] == Accepted
  }

  function DeleteBoth(t: Table, a: UserId, b: UserId): Table {
    t - {(a, b), (b, a)}
  }

  function Execute(t: Table, s: Statement): Table {
    match s
    case SendUpsert(a, b, _) => t[(a, b) := Pending]
    case InviteInsert(a, b) => InsertIfAbsent(t, a, b, Pending)
    case AcceptUpdate(a, b) => Accept(t, a, b)
    case DeclineDelete(a, b) => Decline(t, a, b)
    case RemoveDelete(a, b) => DeleteAccepted(t, a, b)
    case BlockDelete(a, b) => DeleteBoth(t, a, b)
    case BlockInsert(a, b) => InsertIfAbsent(t, a, b, Blocked)
    case _ => t
  }

  function Rows(trace: seq<Statement>): Table {
    if trace == [] then map[] else Execute(Rows(trace[..|trace| - 1]), trace[|trace| - 1])
  }

  /** A request is sent only by a handler whose read found no row of the pair, and a call is
      delivered only by a handler whose read found them to be contacts. */
  predicate LegalAt(trace: seq<Statement>, k: nat)
    requires k < |trace|
  {
    match trace[k]
    case SendUpsert(a, b, read) =>
      a != b && read < k && trace[read] == StatusRead(a, b) && NoRow(Rows(trace[..read]), a, b)
    case CallIncoming(a, b, read) =>
      a != b && read < k && trace[read] == CallRead(a, b) && CanCall(Rows(trace[..read]), a, b)
    case _ => true
  }

  ghost predicate Legal(trace: seq<Statement>) {
    forall k :: 0 <= k < |trace| ==> LegalAt(trace, k)
  }

  // ------------------------------------------------- what a row says about the past

  predicate Concerns(s: Statement, p: UserId, q: UserId) {
    (s.RemoveDelete? || s.BlockDelete?) && ((s.me == p && s.other == q) || (s.me == q && s.other == p))
  }

  predicate SendsTo(s: Statement, p: UserId, q: UserId) {
    s.SendUpsert? && s.requester == p && s.target == q
  }

  predicate EndsPending(s: Statement, p: UserId, q: UserId) {
    s == AcceptUpdate(p, q) || s == DeclineDelete(p, q) || (s.BlockDelete? && Concerns(s, p, q))
  }

  predicate EndsAccepted(s: Statement, p: UserId, q: UserId) {
    SendsTo(s, p, q) || Concerns(s, p, q)
  }

  predicate EndsBlocked(s: Statement, p: UserId, q: UserId) {
    SendsTo(s, p, q) || (s.BlockDelete? && Concerns(s, p, q))
  }

  /** Statement i made the row (p, q) pending and nothing has answered it since. */
  ghost predicate RequestedAt(trace: seq<Statement>, i: nat, p: UserId, q: UserId) {
    && i < |trace|
    && (SendsTo(trace[i], p, q) || (trace[i] == InviteInsert(p, q) && Row(Rows(trace[..i]), p, q) == None))
    && (forall m :: i < m < |trace| ==> !EndsPending(trace[m], p, q))
  }

  ghost predicate AcceptedAt(trace: seq<Statement>, j: nat, p: UserId, q: UserId) {
    && j < |trace| && trace[j] == AcceptUpdate(p, q) && Row(Rows(trace[..j]), p, q) == Some(Pending)
    && (forall m :: j < m < |trace| ==> !EndsAccepted(trace[m], p, q))
  }

  ghost predicate BlockedAt(trace: seq<Statement>, j: nat, p: UserId, q: UserId) {
    && j < |trace| && trace[j] == BlockInsert(p, q) && Row(Rows(trace[..j]), p, q) == None
    && (forall m :: j < m < |trace| ==> !EndsBlocked(trace[m], p, q))
  }

  lemma RequestedStep(before: seq<Statement>, s: Statement, i: nat, p: UserId, q: UserId)
    requires i < |before|
    ensures RequestedAt(before + [s], i, p, q) <==> RequestedAt(before, i, p, q) && !EndsPending(s, p, q)
  {
    var trace := before + [s];
    assert trace[..i] == before[..i] && trace[i] == before[i] && trace[|before|] == s;
    assert forall m :: 0 <= m < |before| ==> trace[m] == before[m];
  }

  lemma AcceptedStep(before: seq<Statement>, s: Statement, j: nat, p: UserId, q: UserId)
    requires j < |before|
    ensures AcceptedAt(before + [s], j, p, q) <==> AcceptedAt(before, j, p, q) && !EndsAccepted(s, p, q)
  {
    var trace := before + [s];
    assert trace[..j] == before[..j] && trace[j] == before[j] && trace[|before|] == s;
    assert forall m :: 0 <= m < |before| ==> trace[m] == before[m];
  }

  lemma BlockedStep(before: seq<Statement>, s: Statement, j: nat, p: UserId, q: UserId)
    requires j < |before|
    ensures BlockedAt(before + [s], j, p, q) <==> BlockedAt(before, j, p, q) && !EndsBlocked(s, p, q)
  {
    var trace := before + [s];
    assert trace[..j] == before[..j] && trace[j] == before[j] && trace[|before|] == s;
    assert forall m :: 0 <= m < |before| ==> trace[m] == before[m];
  }

  lemma LastStep(before: seq<Statement>, s: Statement)
    ensures (before + [s])[..|before|] == before && Rows(before + [s]) == Execute(Rows(before), s)
  {
    assert (before + [s])[..|before|] == before;
  }

  /** A row is pending exactly when some request since then unanswered put it there. */
  lemma {:induction false} PendingIff(trace: seq<Statement>, p: UserId, q: UserId)
    ensures Row(Rows(trace), p, q) == Some(Pending) <==> exists i: nat :: RequestedAt(trace, i, p, q)
  {
    if trace != [] {
      var n := |trace| - 1;
      var before, s := trace[..n], trace[n];
      assert trace == before + [s];
      PendingIff(before, p, q);
      LastStep(before, s);
      forall i | 0 <= i < n
        ensures RequestedAt(trace, i, p, q) <==> RequestedAt(before, i, p, q) && !EndsPending(s, p, q)
      {
        RequestedStep(before, s, i, p, q);
      }
      PendingEffect(Rows(before), s, p, q);
      if exists i: nat :: RequestedAt(before, i, p, q) {
        var i: nat :| RequestedAt(before, i, p, q);
        assert RequestedAt(trace, i, p, q) <==> !EndsPending(s, p, q);
      }
      assert RequestedAt(trace, n, p, q) <==>
             SendsTo(s, p, q) || (s == InviteInsert(p, q) && Row(Rows(before), p, q) == None);
    }
  }

  lemma PendingEffect(t: Table, s: Statement, p: UserId, q: UserId)
    ensures Row(Execute(t, s), p, q) == Some(Pending) <==>
            || SendsTo(s, p, q) || (s == InviteInsert(p, q) && Row(t, p, q) == None)
            || (Row(t, p, q) == Some(Pending) && !EndsPending(s, p, q))
  {
  }

  lemma AcceptedEffect(t: Table, s: Statement, p: UserId, q: UserId)
    ensures Row(Execute(t, s), p, q) == Some(Accepted) <==>
            || (s == AcceptUpdate(p, q) && Row(t, p, q) == Some(Pending))
            || (Row(t, p, q) == Some(Accepted) && !EndsAccepted(s, p, q))
  {
  }

  lemma BlockedEffect(t: Table, s: Statement, p: UserId, q: UserId)
    ensures Row(Execute(t, s), p, q) == Some(Blocked) <==>
            || (s == BlockInsert(p, q) && Row(t, p, q) == None)
            || (Row(t, p, q) == Some(Blocked) && !EndsBlocked(s, p, q))
  {
  }

  /** A row is accepted exactly when its target accepted it and nothing has undone that. */
  lemma {:induction false} AcceptedIff(trace: seq<Statement>, p: UserId, q: UserId)
    ensures Row(Rows(trace), p, q) == Some(Accepted) <==> exists j: nat :: AcceptedAt(trace, j, p, q)
  {
    if trace != [] {
      var n := |trace| - 1;
      var before, s := trace[..n], trace[n];
      assert trace == before + [s];
      AcceptedIff(before, p, q);
      LastStep(before, s);
      forall j | 0 <= j < n
        ensures AcceptedAt(trace, j, p, q) <==> AcceptedAt(before, j, p, q) && !EndsAccepted(s, p, q)
      {
        AcceptedStep(before, s, j, p, q);
      }
      AcceptedEffect(Rows(before), s, p, q);
      if exists j: nat :: AcceptedAt(before, j, p, q) {
        var j: nat :| AcceptedAt(before, j, p, q);
        assert AcceptedAt(trace, j, p, q) <==> !EndsAccepted(s, p, q);
      }
      assert AcceptedAt(trace, n, p, q) <==> s == AcceptUpdate(p, q) && Row(Rows(before), p, q) == Some(Pending);
    }
  }

  /** A block lasts until the blocker's own request overwrites it or either blocks again. */
  lemma {:induction false} BlockedIff(trace: seq<Statement>, p: UserId, q: UserId)
    ensures Row(Rows(trace), p, q) == Some(Blocked) <==> exists j: nat :: BlockedAt(trace, j, p, q)
  {
    if trace != [] {
      var n := |trace| - 1;
      var before, s := trace[..n], trace[n];
      assert trace == before + [s];
      BlockedIff(before, p, q);
      LastStep(before, s);
      forall j | 0 <= j < n
        ensures BlockedAt(trace, j, p, q) <==> BlockedAt(before, j, p, q) && !EndsBlocked(s, p, q)
      {
        BlockedStep(before, s, j, p, q);
      }
      BlockedEffect(Rows(before), s, p, q);
      if exists j: nat :: BlockedAt(before, j, p, q) {
        var j: nat :| BlockedAt(before, j, p, q);
        assert BlockedAt(trace, j, p, q) <==> !EndsBlocked(s, p, q);
      }
      assert BlockedAt(trace, n, p, q) <==> s == BlockInsert(p, q) && Row(Rows(before), p, q) == None;
    }
  }

  // -------------------------------------------------------------------------- consent

  /** p asked at i, by a request or an invite, q said yes at j, and neither has been undone. */
  ghost predicate ConsentAt(trace: seq<Statement>, i: nat, j: nat, p: UserId, q: UserId) {
    AcceptedAt(trace, j, p, q) && RequestedAt(trace[..j], i, p, q)
  }

  ghost predicate Consented(trace: seq<Statement>, p: UserId, q: UserId) {
    exists i: nat, j: nat :: ConsentAt(trace, i, j, p, q)
  }

  lemma AcceptedIsConsented(trace: seq<Statement>, p: UserId, q: UserId)
    ensures Row(Rows(trace), p, q) == Some(Accepted) <==> Consented(trace, p, q)
  {
    AcceptedIff(trace, p, q);
    if Row(Rows(trace), p, q) == Some(Accepted) {
      var j: nat :| AcceptedAt(trace, j, p, q);
      PendingIff(trace[..j], p, q);
      var i: nat :| RequestedAt(trace[..j], i, p, q);
      assert ConsentAt(trace, i, j, p, q);
    }
  }

  /** Two users may call each other exactly when one asked, the other then accepted, and
      nothing since has taken it back, however the statements of handlers interleave. */
  lemma CanCallIffConsented(trace: seq<Statement>, a: UserId, b: UserId)
    ensures CanCall(Rows(trace), a, b) <==> Consented(trace, a, b) || Consented(trace, b, a)
  {
    AcceptedIsConsented(trace, a, b);
    AcceptedIsConsented(trace, b, a);
  }

  /** Every call-incoming from a to b was preceded by a request of one of them and a later
      accept by the other that still stood when the handler looked. */
  lemma EveryCallHasConsent(trace: seq<Statement>, d: nat)
    requires Legal(trace) && d < |trace| && trace[d].CallIncoming?
    ensures trace[d].read < d
    ensures var asked := trace[..trace[d].read];
            Consented(asked, trace[d].caller, trace[d].callee) || Consented(asked, trace[d].callee, trace[d].caller)
  {
    assert LegalAt(trace, d);
    CanCallIffConsented(trace[..trace[d].read], trace[d].caller, trace[d].callee);
  }

  /** A block is not safe from its own maker: a request that read the table before the block
      and writes after it turns the blocked row into a pending one, and a call goes through. */
  lemma StaleRequestErasesBlock(a: UserId, b: UserId) returns (trace: seq<Statement>)
    requires a != b
    ensures Legal(trace) && BlockInsert(a, b) in trace && CallIncoming(b, a, 5) in trace
    ensures Row(Rows(trace), a, b) == Some(Accepted) && Row(Rows(trace), b, a) == None
  {
    var t0 := [StatusRead(a, b)];
    var t1 := t0 + [BlockDelete(a, b)];
    var t2 := t1 + [BlockInsert(a, b)];
    var t3 := t2 + [SendUpsert(a, b, 0)];
    var t4 := t3 + [AcceptUpdate(a, b)];
    var t5 := t4 + [CallRead(b, a)];
    trace := t5 + [CallIncoming(b, a, 5)];
    LastStep([], StatusRead(a, b));
    LastStep(t0, BlockDelete(a, b));
    LastStep(t1, BlockInsert(a, b));
    LastStep(t2, SendUpsert(a, b, 0));
    LastStep(t3, AcceptUpdate(a, b));
    LastStep(t4, CallRead(b, a));
    LastStep(t5, CallIncoming(b, a, 5));
    assert [] + [StatusRead(a, b)] == t0 && trace[..0] == [] && trace[..5] == t4;
    assert trace[2] == BlockInsert(a, b) && trace[6] == CallIncoming(b, a, 5);
  }
}
