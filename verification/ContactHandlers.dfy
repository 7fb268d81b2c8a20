/** The handlers of server-rust/src/routes/contacts.rs run one at a time, on the table of
    ContactRows and the invite links. */
module ContactHandlers {
  import opened Wrappers
  import opened ContactRows

  datatype Invite = Invite(owner: UserId, usesLeft: int, expiresAt: nat)

  datatype State = State(users: set<UserId>, rows: Table, invites: map<string, Invite>, now: nat)

  /** `me` is the authenticated user, who has an account.  `first` says which of two rows of a
      pair fetch_optional happens to return; `token` is the random one that was drawn. */
  datatype Request =
    | SendRequest(me: UserId, target: UserId, first: bool)
    | AcceptRequest(me: UserId, requester: UserId)
    | DeclineRequest(me: UserId, requester: UserId)
    | RemoveContact(me: UserId, other: UserId)
    | BlockUser(me: UserId, other: UserId)
    | GenerateInvite(me: UserId, token: string)
    | UseInvite(me: UserId, owner: UserId, token: string)
    | PassTime(seconds: nat)

  datatype Failure = BadRequest | NotFound | AlreadyContacts | RequestExists | IsBlocked | DatabaseError

  const INVITE_SECONDS := 86400

  function Initial(users: set<UserId>): State {
    State(users, map[], map[], 0)
  }

  /** A row of the pair, in either direction. */
  function Existing(t: Table, me: UserId, target: UserId, first: bool): Option<Status> {
    if (me, target) in t && (first || (target, me) !in t) then Row(t, me, target) else Row(t, target, me)
  }

  function SendCheck(st: State, me: UserId, target: UserId, first: bool): Option<Failure> {
    if target == me then Some(BadRequest)
    else if target !in st.users then Some(NotFound)
    else
      match Existing(st.rows, me, target, first)
      case Some(Accepted) => Some(AlreadyContacts)
      case Some(Pending) => Some(RequestExists)
      case Some(Blocked) => Some(IsBlocked)
      case None => None
  }

  function InviteCheck(st: State, owner: UserId, token: string): Option<Failure> {
    if token !in st.invites || st.invites[token].owner != owner || st.invites[token].expiresAt <= st.now then Some(NotFound)
    else if st.invites[token].usesLeft == 0 then Some(BadRequest)
    else None
  }

  function Use(st: State, token: string): map<string, Invite>
    requires token in st.invites
  {
    st.invites[token := st.invites[token].(usesLeft := st.invites[token].usesLeft - 1)]
  }

  /** A block of an unknown user deletes, then fails on the foreign key. */
  function BlockRows(st: State, me: UserId, other: UserId): Table {
    if other in st.users then InsertIfAbsent(DeleteBoth(st.rows, me, other), me, other, Blocked)
    else DeleteBoth(st.rows, me, other)
  }

  function Step(st: State, r: Request): State {
    match r
    case SendRequest(me, target, first) =>
      if SendCheck(st, me, target, first).Some? then st else st.(rows := st.rows[(me, target) := Pending])
    case AcceptRequest(me, requester) => st.(rows := Accept(st.rows, requester, me))
    case DeclineRequest(me, requester) => st.(rows := Decline(st.rows, requester, me))
    case RemoveContact(me, other) => st.(rows := DeleteAccepted(st.rows, me, other))
    case BlockUser(me, other) => st.(rows := BlockRows(st, me, other))
    case GenerateInvite(me, token) =>
      if token in st.invites then st
      else st.(invites := st.invites[token := Invite(me, 1, st.now + INVITE_SECONDS)])
    case UseInvite(me, owner, token) =>
      if InviteCheck(st, owner, token).Some? then st
      else st.(invites := Use(st, token), rows := InsertIfAbsent(st.rows, me, owner, Pending))
    case PassTime(seconds) => st.(now := st.now + seconds)
  }

  /** What the handler fails with, if it does. */
  function Refusal(st: State, r: Request): Option<Failure> {
    match r
    case SendRequest(me, target, first) => SendCheck(st, me, target, first)
    case AcceptRequest(me, requester) => if Row(st.rows, requester, me) == Some(Pending) then None else Some(NotFound)
    case BlockUser(me, other) => if other in st.users then None else Some(DatabaseError)
    case GenerateInvite(me, token) => if token in st.invites then Some(DatabaseError) else None
    case UseInvite(me, owner, token) => InviteCheck(st, owner, token)
    case _ => None
  }

  function After(users: set<UserId>, rs: seq<Request>): State {
    if rs == [] then Initial(users) else Step(After(users, rs[..|rs| - 1]), rs[|rs| - 1])
  }

  function RowsAt(users: set<UserId>, rs: seq<Request>, i: nat): Table
    requires i <= |rs|
  {
    After(users, rs[..i]).rows
  }

  lemma {:induction false} UsersStay(users: set<UserId>, rs: seq<Request>)
    ensures After(users, rs).users == users
  {
    if rs != [] {
      UsersStay(users, rs[..|rs| - 1]);
    }
  }

  // ---------------------------------------------------- handlers are runs of statements

  /** What the handler of r executes when its first statement is number k of the trace. */
  function Script(st: State, r: Request, k: nat): seq<Statement> {
    match r
    case SendRequest(me, target, first) =>
      if target == me || target !in st.users then []
      else [StatusRead(me, target)] +
           (if SendCheck(st, me, target, first).Some? then [] else [SendUpsert(me, target, k)])
    case AcceptRequest(me, requester) => [AcceptUpdate(requester, me)]
    case DeclineRequest(me, requester) => [DeclineDelete(requester, me)]
    case RemoveContact(me, other) => [RemoveDelete(me, other)]
    case BlockUser(me, other) => [BlockDelete(me, other)] + (if other in st.users then [BlockInsert(me, other)] else [])
    case UseInvite(me, owner, token) => if InviteCheck(st, owner, token).Some? then [] else [InviteInsert(me, owner)]
    case _ => []
  }

  function Trace(users: set<UserId>, rs: seq<Request>): seq<Statement> {
    if rs == [] then []
    else
      var before := Trace(users, rs[..|rs| - 1]);
      before + Script(After(users, rs[..|rs| - 1]), rs[|rs| - 1], |before|)
  }

  lemma LegalExtend(trace: seq<Statement>, s: Statement)
    requires Legal(trace) && LegalAt(trace + [s], |trace|)
    ensures Legal(trace + [s])
  {
    var longer := trace + [s];
    forall k | 0 <= k < |longer| ensures LegalAt(longer, k) {
      if k < |trace| {
        assert LegalAt(trace, k);
        assert longer[k] == trace[k];
        if trace[k].SendUpsert? || trace[k].CallIncoming? {
          assert longer[..trace[k].read] == trace[..trace[k].read] && longer[trace[k].read] == trace[trace[k].read];
        }
      }
    }
  }

  lemma ScriptEffect(st: State, r: Request, k: nat)
    ensures |Script(st, r, k)| <= 2
    ensures Script(st, r, k) == [] ==> Step(st, r).rows == st.rows
    ensures |Script(st, r, k)| == 1 ==> Step(st, r).rows == Execute(st.rows, Script(st, r, k)[0])
    ensures |Script(st, r, k)| == 2 ==>
              Step(st, r).rows == Execute(Execute(st.rows, Script(st, r, k)[0]), Script(st, r, k)[1])
  {
  }

  lemma ScriptShape(st: State, r: Request, k: nat)
    ensures Script(st, r, k) != [] ==> !Script(st, r, k)[0].SendUpsert? && !Script(st, r, k)[0].CallIncoming?
    ensures |Script(st, r, k)| == 2 ==>
              || Script(st, r, k)[1].BlockInsert?
              || (r.SendRequest? && r.me != r.target && NoRow(st.rows, r.me, r.target) &&
                  Script(st, r, k) == [StatusRead(r.me, r.target), SendUpsert(r.me, r.target, k)])
  {
  }

  /** A statement that needs no read, or follows its read of an unchanged table. */
  lemma RunOne(trace: seq<Statement>, s: Statement)
    requires Legal(trace) && !s.SendUpsert? && !s.CallIncoming?
    ensures Legal(trace + [s]) && Rows(trace + [s]) == Execute(Rows(trace), s)
  {
    LastStep(trace, s);
    LegalExtend(trace, s);
  }

  lemma RunSend(trace: seq<Statement>, a: UserId, b: UserId)
    requires Legal(trace) && a != b && NoRow(Rows(trace), a, b)
    ensures Legal(trace + [StatusRead(a, b)] + [SendUpsert(a, b, |trace|)])
  {
    var middle, s := trace + [StatusRead(a, b)], SendUpsert(a, b, |trace|);
    RunOne(trace, StatusRead(a, b));
    assert (middle + [s])[..|trace|] == trace;
    LegalExtend(middle, s);
  }

  lemma ScriptRuns(st: State, r: Request, trace: seq<Statement>)
    requires Legal(trace) && Rows(trace) == st.rows
    ensures Legal(trace + Script(st, r, |trace|)) && Rows(trace + Script(st, r, |trace|)) == Step(st, r).rows
  {
    var script := Script(st, r, |trace|);
    ScriptEffect(st, r, |trace|);
    ScriptShape(st, r, |trace|);
    if script == [] {
      assert trace + script == trace;
    } else {
      RunOne(trace, script[0]);
      if |script| == 1 {
        assert script == [script[0]];
      } else {
        assert trace + script == trace + [script[0]] + [script[1]];
        LastStep(trace + [script[0]], script[1]);
        if script[1].BlockInsert? {
          RunOne(trace + [script[0]], script[1]);
        } else {
          RunSend(trace, r.me, r.target);
        }
      }
    }
  }

  /** A serial run of handlers is one of the interleavings of ContactRows and leaves the same
      table, so what is proved there about consent holds of it. */
  lemma {:induction false} SerialRunsAreTraces(users: set<UserId>, rs: seq<Request>)
    ensures Legal(Trace(users, rs)) && Rows(Trace(users, rs)) == After(users, rs).rows
  {
    if rs != [] {
      SerialRunsAreTraces(users, rs[..|rs| - 1]);
      ScriptRuns(After(users, rs[..|rs| - 1]), rs[|rs| - 1], Trace(users, rs[..|rs| - 1]));
    }
  }

  // ---------------------------------------------------------------------- blocked pairs

  predicate BlockedPair(t: Table, x: UserId, y: UserId) {
    Row(t, x, y) == Some(Blocked) || Row(t, y, x) == Some(Blocked)
  }

  predicate BlocksPair(r: Request, x: UserId, y: UserId) {
    r == BlockUser(x, y) || r == BlockUser(y, x)
  }

  lemma BlockedPairStep(st: State, r: Request, x: UserId, y: UserId)
    requires BlockedPair(st.rows, x, y) && x in st.users && y in st.users
    ensures BlockedPair(Step(st, r).rows, x, y)
  {
  }

  /** Once either of two users has blocked the other, a blocked row of the pair stays. */
  lemma {:induction false} BlockedPairStays(users: set<UserId>, rs: seq<Request>, b: nat, x: UserId, y: UserId)
    requires b < |rs| && rs[b] == BlockUser(x, y) && x in users && y in users
    ensures BlockedPair(After(users, rs).rows, x, y)
    decreases |rs|
  {
    var n := |rs| - 1;
    UsersStay(users, rs[..n]);
    if b < n {
      BlockedPairStays(users, rs[..n], b, x, y);
      BlockedPairStep(After(users, rs[..n]), rs[n], x, y);
    }
  }

  // ------------------------------------------------------ how a blocked pair is reopened

  /** Request i redeems an invite of the owner and inserts the row (claimer, owner). */
  predicate RedeemsAt(users: set<UserId>, rs: seq<Request>, i: nat, claimer: UserId, owner: UserId) {
    && i < |rs| && rs[i].UseInvite? && rs[i].me == claimer && rs[i].owner == owner
    && InviteCheck(After(users, rs[..i]), owner, rs[i].token) == None
    && Row(RowsAt(users, rs, i), claimer, owner) == None
  }

  /** Request j accepts the pending request of `requester`, and it has not been removed since. */
  ghost predicate AcceptsAt(users: set<UserId>, rs: seq<Request>, j: nat, me: UserId, requester: UserId) {
    && j < |rs| && rs[j] == AcceptRequest(me, requester)
    && Row(RowsAt(users, rs, j), requester, me) == Some(Pending)
    && (forall m :: j < m < |rs| ==> rs[m] != RemoveContact(me, requester) && rs[m] != RemoveContact(requester, me))
  }

  /** x blocked y at b, and neither has blocked the other since. */
  ghost predicate LastBlock(users: set<UserId>, rs: seq<Request>, b: nat, x: UserId, y: UserId) {
    && b < |rs| && rs[b] == BlockUser(x, y) && x in users && y in users && x != y
    && (forall m :: b < m < |rs| ==> !BlocksPair(rs[m], x, y))
  }

  ghost predicate ReadmittedAt(users: set<UserId>, rs: seq<Request>, b: nat, i: nat, j: nat, x: UserId, y: UserId) {
    b < i < j && RedeemsAt(users, rs, i, y, x) && AcceptsAt(users, rs, j, x, y)
  }

  lemma RedeemsPrefix(users: set<UserId>, rs: seq<Request>, n: nat, i: nat, claimer: UserId, owner: UserId)
    requires i < n <= |rs|
    ensures RedeemsAt(users, rs[..n], i, claimer, owner) <==> RedeemsAt(users, rs, i, claimer, owner)
  {
    assert rs[..n][..i] == rs[..i] && rs[..n][i] == rs[i];
  }

  lemma AcceptsPrefix(users: set<UserId>, rs: seq<Request>, j: nat, me: UserId, requester: UserId)
    requires j < |rs| - 1
    ensures AcceptsAt(users, rs, j, me, requester) <==>
            && AcceptsAt(users, rs[..|rs| - 1], j, me, requester)
            && rs[|rs| - 1] != RemoveContact(me, requester) && rs[|rs| - 1] != RemoveContact(requester, me)
  {
    var before := rs[..|rs| - 1];
    assert before[..j] == rs[..j] && before[j] == rs[j];
    assert forall m :: 0 <= m < |before| ==> before[m] == rs[m];
  }

  /** How one request moves the row (y, x) of a pair that x has blocked. */
  lemma ReverseRowStep(st: State, r: Request, x: UserId, y: UserId)
    requires Row(st.rows, x, y) == Some(Blocked) && x != y && !BlocksPair(r, x, y)
    ensures Row(Step(st, r).rows, x, y) == Some(Blocked)
    ensures Row(Step(st, r).rows, y, x) == Some(Pending) <==>
            || (r.UseInvite? && r.me == y && r.owner == x && InviteCheck(st, x, r.token) == None && Row(st.rows, y, x) == None)
            || (Row(st.rows, y, x) == Some(Pending) && r != AcceptRequest(x, y) && r != DeclineRequest(x, y))
    ensures Row(Step(st, r).rows, y, x) == Some(Accepted) <==>
            || (r == AcceptRequest(x, y) && Row(st.rows, y, x) == Some(Pending))
            || (Row(st.rows, y, x) == Some(Accepted) && r != RemoveContact(x, y) && r != RemoveContact(y, x))
  {
  }

  lemma LastBlockPrefix(users: set<UserId>, rs: seq<Request>, b: nat, x: UserId, y: UserId)
    requires LastBlock(users, rs, b, x, y) && b < |rs| - 1
    ensures LastBlock(users, rs[..|rs| - 1], b, x, y) && !BlocksPair(rs[|rs| - 1], x, y)
  {
  }

  lemma AtTheBlock(users: set<UserId>, rs: seq<Request>, x: UserId, y: UserId)
    requires rs != [] && LastBlock(users, rs, |rs| - 1, x, y)
    ensures Row(After(users, rs).rows, x, y) == Some(Blocked) && Row(After(users, rs).rows, y, x) == None
  {
    UsersStay(users, rs[..|rs| - 1]);
  }

  /** The blocker's row stands, and the other row is pending only through an invite of the
      blocker that the blocked user redeemed later. */
  lemma {:induction false} PendingNeedsInvite(users: set<UserId>, rs: seq<Request>, b: nat, x: UserId, y: UserId)
    requires LastBlock(users, rs, b, x, y)
    ensures Row(After(users, rs).rows, x, y) == Some(Blocked)
    ensures Row(After(users, rs).rows, y, x) == Some(Pending) ==> exists i: nat :: b < i && RedeemsAt(users, rs, i, y, x)
    decreases |rs|
  {
    var n := |rs| - 1;
    if b == n {
      AtTheBlock(users, rs, x, y);
    } else {
      LastBlockPrefix(users, rs, b, x, y);
      PendingNeedsInvite(users, rs[..n], b, x, y);
      ReverseRowStep(After(users, rs[..n]), rs[n], x, y);
      if Row(After(users, rs).rows, y, x) == Some(Pending) {
        if Row(After(users, rs[..n]).rows, y, x) == Some(Pending) {
          var i: nat :| b < i && RedeemsAt(users, rs[..n], i, y, x);
          RedeemsPrefix(users, rs, n, i, y, x);
        } else {
          assert RedeemsAt(users, rs, n, y, x);
        }
      }
    }
  }

  predicate Removes(r: Request, x: UserId, y: UserId) {
    r == RemoveContact(x, y) || r == RemoveContact(y, x)
  }

  ghost predicate AcceptedAfter(users: set<UserId>, rs: seq<Request>, b: nat, x: UserId, y: UserId) {
    exists j: nat :: b < j && AcceptsAt(users, rs, j, x, y)
  }

  lemma AcceptedAfterStep(users: set<UserId>, rs: seq<Request>, b: nat, x: UserId, y: UserId)
    requires b < |rs| - 1
    ensures AcceptedAfter(users, rs, b, x, y) <==>
            || (rs[|rs| - 1] == AcceptRequest(x, y) && Row(RowsAt(users, rs, |rs| - 1), y, x) == Some(Pending))
            || (AcceptedAfter(users, rs[..|rs| - 1], b, x, y) && !Removes(rs[|rs| - 1], x, y))
  {
    var n := |rs| - 1;
    assert AcceptsAt(users, rs, n, x, y) <==>
           rs[n] == AcceptRequest(x, y) && Row(RowsAt(users, rs, n), y, x) == Some(Pending);
    forall j: nat | j < n
      ensures AcceptsAt(users, rs, j, x, y) <==> AcceptsAt(users, rs[..n], j, x, y) && !Removes(rs[n], x, y)
    {
      AcceptsPrefix(users, rs, j, x, y);
    }
  }

  lemma {:induction false} AcceptedNeedsBlocker(users: set<UserId>, rs: seq<Request>, b: nat, x: UserId, y: UserId)
    requires LastBlock(users, rs, b, x, y)
    ensures Row(After(users, rs).rows, y, x) == Some(Accepted) <==> AcceptedAfter(users, rs, b, x, y)
    decreases |rs|
  {
    var n := |rs| - 1;
    if b == n {
      AtTheBlock(users, rs, x, y);
    } else {
      LastBlockPrefix(users, rs, b, x, y);
      AcceptedNeedsBlocker(users, rs[..n], b, x, y);
      PendingNeedsInvite(users, rs[..n], b, x, y);
      ReverseRowStep(After(users, rs[..n]), rs[n], x, y);
      AcceptedAfterStep(users, rs, b, x, y);
    }
  }

  /** After x's block, and with no newer block of the pair, the two may call each other
      exactly when y has redeemed an invite of x since, x itself has then accepted, and neither
      has removed the other again. */
  lemma ReopenedIffBlockerAccepts(users: set<UserId>, rs: seq<Request>, b: nat, x: UserId, y: UserId)
    requires LastBlock(users, rs, b, x, y)
    ensures CanCall(After(users, rs).rows, x, y) <==>
            exists i: nat, j: nat :: ReadmittedAt(users, rs, b, i, j, x, y)
  {
    PendingNeedsInvite(users, rs, b, x, y);
    AcceptedNeedsBlocker(users, rs, b, x, y);
    if CanCall(After(users, rs).rows, x, y) {
      var j: nat :| b < j && AcceptsAt(users, rs, j, x, y);
      LastBlockAt(users, rs, b, j, x, y);
      PendingNeedsInvite(users, rs[..j], b, x, y);
      var i: nat :| b < i && RedeemsAt(users, rs[..j], i, y, x);
      RedeemsPrefix(users, rs, j, i, y, x);
      assert ReadmittedAt(users, rs, b, i, j, x, y);
    }
  }

  lemma LastBlockAt(users: set<UserId>, rs: seq<Request>, b: nat, j: nat, x: UserId, y: UserId)
    requires LastBlock(users, rs, b, x, y) && b < j <= |rs|
    ensures LastBlock(users, rs[..j], b, x, y)
  {
  }

  // -------------------------------------------------------------------- one row per pair

  /** Only redeeming an invite gives a pair its second row. */
  lemma {:induction false} SecondRowNeedsInvite(users: set<UserId>, rs: seq<Request>, x: UserId, y: UserId)
    requires x != y && (x, y) in After(users, rs).rows && (y, x) in After(users, rs).rows
    ensures exists i: nat :: RedeemsAt(users, rs, i, x, y) || RedeemsAt(users, rs, i, y, x)
  {
    var n := |rs| - 1;
    var before := After(users, rs[..n]).rows;
    if (x, y) in before && (y, x) in before {
      SecondRowNeedsInvite(users, rs[..n], x, y);
      var i: nat :| RedeemsAt(users, rs[..n], i, x, y) || RedeemsAt(users, rs[..n], i, y, x);
      RedeemsPrefix(users, rs, n, i, x, y);
      RedeemsPrefix(users, rs, n, i, y, x);
    } else {
      assert RedeemsAt(users, rs, n, x, y) || RedeemsAt(users, rs, n, y, x);
    }
  }

  ghost predicate NoRedemption(rs: seq<Request>) {
    forall i :: 0 <= i < |rs| ==> !rs[i].UseInvite?
  }

  lemma {:induction false} OneRowPerPair(users: set<UserId>, rs: seq<Request>, x: UserId, y: UserId)
    requires NoRedemption(rs) && x != y
    ensures !((x, y) in After(users, rs).rows && (y, x) in After(users, rs).rows)
  {
    if (x, y) in After(users, rs).rows && (y, x) in After(users, rs).rows {
      SecondRowNeedsInvite(users, rs, x, y);
    }
  }

  /** With no invite redeemed, users one of whom has ever blocked the other never may call. */
  lemma BlockedForGood(users: set<UserId>, rs: seq<Request>, b: nat, x: UserId, y: UserId)
    requires NoRedemption(rs) && x != y && x in users && y in users && b < |rs| && rs[b] == BlockUser(x, y)
    ensures !CanCall(After(users, rs).rows, x, y)
  {
    BlockedPairStays(users, rs, b, x, y);
    OneRowPerPair(users, rs, x, y);
  }

  /** With an invite redeemed, a blocked user is called: x blocks y, y redeems an invite of x,
      x accepts, and the pair holds a blocked and an accepted row at once. */
  lemma InviteReopensBlockedPair(users: set<UserId>, x: UserId, y: UserId, token: string) returns (rs: seq<Request>)
    requires x != y && x in users && y in users
    ensures |rs| == 4 && rs[1] == BlockUser(x, y)
    ensures Row(After(users, rs).rows, x, y) == Some(Blocked) && CanCall(After(users, rs).rows, x, y)
  {
    var r1 := [GenerateInvite(x, token)];
    var r2 := r1 + [BlockUser(x, y)];
    var r3 := r2 + [UseInvite(y, x, token)];
    rs := r3 + [AcceptRequest(x, y)];
    assert rs[..3] == r3 && r3[..2] == r2 && r2[..1] == r1 && r1[..0] == [];
    assert After(users, r1) == Step(Initial(users), r1[0]);
    assert After(users, r2) == Step(After(users, r1), BlockUser(x, y));
    assert After(users, r3) == Step(After(users, r2), UseInvite(y, x, token));
  }

  // ------------------------------------------------------------------------- invites

  /** Request i is a successful redemption of this link. */
  predicate SpendsAt(users: set<UserId>, rs: seq<Request>, i: nat, token: string) {
    i < |rs| && rs[i].UseInvite? && rs[i].token == token && InviteCheck(After(users, rs[..i]), rs[i].owner, token) == None
  }

  ghost predicate Spent(users: set<UserId>, rs: seq<Request>, token: string) {
    exists i: nat :: SpendsAt(users, rs, i, token)
  }

  lemma SpentStep(users: set<UserId>, rs: seq<Request>, token: string)
    requires rs != []
    ensures Spent(users, rs, token) <==> Spent(users, rs[..|rs| - 1], token) || SpendsAt(users, rs, |rs| - 1, token)
  {
    var n := |rs| - 1;
    forall i: nat | i < n ensures SpendsAt(users, rs, i, token) <==> SpendsAt(users, rs[..n], i, token) {
      assert rs[..n][..i] == rs[..i] && rs[..n][i] == rs[i];
    }
  }

  predicate Unused(st: State, token: string) {
    token in st.invites && st.invites[token].usesLeft == 1
  }

  predicate UsedUp(st: State, token: string) {
    token in st.invites && st.invites[token].usesLeft == 0
  }

  lemma UsesStep(st: State, r: Request, token: string)
    requires token in st.invites ==> Unused(st, token) || UsedUp(st, token)
    ensures token in Step(st, r).invites ==> Unused(Step(st, r), token) || UsedUp(Step(st, r), token)
    ensures UsedUp(Step(st, r), token) <==>
            UsedUp(st, token) || (r.UseInvite? && r.token == token && InviteCheck(st, r.owner, token) == None)
  {
  }

  lemma {:induction false} UsesLeftIff(users: set<UserId>, rs: seq<Request>, token: string)
    ensures token in After(users, rs).invites ==> Unused(After(users, rs), token) || UsedUp(After(users, rs), token)
    ensures UsedUp(After(users, rs), token) <==> Spent(users, rs, token)
  {
    if rs != [] {
      var n := |rs| - 1;
      UsesLeftIff(users, rs[..n], token);
      UsesStep(After(users, rs[..n]), rs[n], token);
      SpentStep(users, rs, token);
    }
  }

  /** A link is redeemed at most once. */
  lemma RedeemedAtMostOnce(users: set<UserId>, rs: seq<Request>, i: nat, k: nat, token: string)
    requires SpendsAt(users, rs, i, token) && SpendsAt(users, rs, k, token)
    ensures i == k
  {
    SpentBefore(users, rs, i, k, token);
    SpentBefore(users, rs, k, i, token);
  }

  lemma SpentBefore(users: set<UserId>, rs: seq<Request>, i: nat, k: nat, token: string)
    requires SpendsAt(users, rs, i, token) && k < |rs|
    ensures i < k ==> !SpendsAt(users, rs, k, token)
  {
    if i < k {
      assert rs[..k][..i] == rs[..i] && rs[..k][i] == rs[i];
      assert SpendsAt(users, rs[..k], i, token);
      UsesLeftIff(users, rs[..k], token);
    }
  }
}
