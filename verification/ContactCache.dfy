/** The contact lists that the client of one user keeps (lib/services/contacts_service.dart)
    against the rows of the server, while that user is the only one acting. */
module ContactCache {
  import opened Wrappers
  import opened ContactRows
  import opened ContactHandlers

  /** Who _contacts and _pendingIncoming name. */
  datatype Device = Device(contacts: set<UserId>, incoming: set<UserId>)

  datatype Action =
    | LoadAll
    | Send(target: UserId, first: bool)
    | AcceptFrom(requester: UserId)
    | DeclineFrom(requester: UserId)
    | Remove(other: UserId)
    | Block(other: UserId)

  /** The rows that list_contacts selects, each named by the user at its other end. */
  function Contacts(t: Table, me: UserId): set<UserId> {
    set k | k in t && t[k] == Accepted && (k.0 == me || k.1 == me) :: if k.0 == me then k.1 else k.0
  }

  function Incoming(t: Table, me: UserId): set<UserId> {
    set k | k in t && t[k] == Pending && k.1 == me :: k.0
  }

  function Load(t: Table, me: UserId): Device {
    Device(Contacts(t, me), Incoming(t, me))
  }

  function RequestOf(me: UserId, a: Action): Option<Request> {
    match a
    case LoadAll => None
    case Send(target, first) => Some(SendRequest(me, target, first))
    case AcceptFrom(requester) => Some(AcceptRequest(me, requester))
    case DeclineFrom(requester) => Some(DeclineRequest(me, requester))
    case Remove(other) => Some(RemoveContact(me, other))
    case Block(other) => Some(BlockUser(me, other))
  }

  function ServerAfter(st: State, me: UserId, a: Action): State {
    match RequestOf(me, a)
    case None => st
    case Some(r) => Step(st, r)
  }

  /** The lists are loaded afresh after a request or an acceptance and edited in place after
      the rest; a request that the server refuses leaves them alone. */
  function DeviceAfter(st: State, me: UserId, d: Device, a: Action): Device {
    match RequestOf(me, a)
    case None => Load(st.rows, me)
    case Some(r) =>
      if Refusal(st, r).Some? then d
      else
        match a
        case DeclineFrom(requester) => d.(incoming := d.incoming - {requester})
        case Remove(other) => d.(contacts := d.contacts - {other})
        case Block(other) => Device(d.contacts - {other}, d.incoming - {other})
        case _ => Load(Step(st, r).rows, me)
  }

  function ServerRun(st: State, me: UserId, run: seq<Action>): State {
    if run == [] then st else ServerAfter(ServerRun(st, me, run[..|run| - 1]), me, run[|run| - 1])
  }

  function DeviceRun(st: State, me: UserId, d: Device, run: seq<Action>): Device {
    if run == [] then d
    else
      var before := run[..|run| - 1];
      DeviceAfter(ServerRun(st, me, before), me, DeviceRun(st, me, d, before), run[|run| - 1])
  }

  // -------------------------------------------------------------------------- agreement

  ghost predicate RowsAmongUsers(st: State) {
    forall k :: k in st.rows ==> k.0 in st.users && k.1 in st.users
  }

  /** The requests come from users with accounts. */
  predicate Authenticated(users: set<UserId>, r: Request) {
    !r.PassTime? ==> r.me in users
  }

  lemma AmongUsersStep(st: State, r: Request)
    requires RowsAmongUsers(st) && Authenticated(st.users, r)
    requires forall token :: token in st.invites ==> st.invites[token].owner in st.users
    ensures RowsAmongUsers(Step(st, r)) && Step(st, r).users == st.users
    ensures forall token :: token in Step(st, r).invites ==> Step(st, r).invites[token].owner in st.users
  {
    if r.AcceptRequest? && Row(st.rows, r.requester, r.me) == Some(Pending) {
      assert (r.requester, r.me) in st.rows;
    }
  }

  /** Foreign keys hold in every reachable state. */
  lemma {:induction false} AmongUsers(users: set<UserId>, rs: seq<Request>)
    requires forall i :: 0 <= i < |rs| ==> Authenticated(users, rs[i])
    ensures RowsAmongUsers(After(users, rs)) && After(users, rs).users == users
    ensures forall token :: token in After(users, rs).invites ==> After(users, rs).invites[token].owner in users
  {
    if rs != [] {
      AmongUsers(users, rs[..|rs| - 1]);
      AmongUsersStep(After(users, rs[..|rs| - 1]), rs[|rs| - 1]);
    }
  }

  lemma ContactsAre(t: Table, me: UserId, u: UserId)
    ensures u in Contacts(t, me) <==> CanCall(t, me, u)
    ensures u in Incoming(t, me) <==> Row(t, u, me) == Some(Pending)
  {
    if CanCall(t, me, u) {
      var k := if Row(t, me, u) == Some(Accepted) then (me, u) else (u, me);
      assert k in t && t[k] == Accepted;
    }
    if Row(t, u, me) == Some(Pending) {
      assert (u, me) in t;
    }
  }

  predicate Edits(a: Action) {
    a.DeclineFrom? || a.Remove? || a.Block?
  }

  function Other(a: Action): UserId
    requires Edits(a)
  {
    if a.DeclineFrom? then a.requester else a.other
  }

  /** Declining, removing and blocking take their user out of reach and touch no other. */
  lemma EditRows(st: State, me: UserId, a: Action, u: UserId)
    requires Edits(a)
    ensures CanCall(ServerAfter(st, me, a).rows, me, u) <==>
            CanCall(st.rows, me, u) && (u == Other(a) ==> a.DeclineFrom?)
    ensures Row(ServerAfter(st, me, a).rows, u, me) == Some(Pending) <==>
            Row(st.rows, u, me) == Some(Pending) && (u == Other(a) ==> a.Remove?)
  {
    match a
    case DeclineFrom(requester) =>
    case Remove(other) =>
    case Block(other) =>
  }

  lemma EditIsReload(st: State, me: UserId, a: Action)
    requires Edits(a) && Refusal(st, RequestOf(me, a).value) == None
    ensures DeviceAfter(st, me, Load(st.rows, me), a) == Load(ServerAfter(st, me, a).rows, me)
  {
    var d, d' := Load(st.rows, me), Load(ServerAfter(st, me, a).rows, me);
    var after := DeviceAfter(st, me, d, a);
    forall u
      ensures u in after.contacts <==> u in d'.contacts
      ensures u in after.incoming <==> u in d'.incoming
    {
      EditRows(st, me, a, u);
      ContactsAre(st.rows, me, u);
      ContactsAre(ServerAfter(st, me, a).rows, me, u);
    }
    assert after.contacts == d'.contacts && after.incoming == d'.incoming;
  }

  lemma RefusedChangesNothing(st: State, r: Request)
    requires RowsAmongUsers(st) && Refusal(st, r).Some?
    ensures Step(st, r).rows == st.rows
  {
    if r.BlockUser? {
      assert (r.me, r.other) !in st.rows && (r.other, r.me) !in st.rows;
      assert Step(st, r).rows == st.rows;
    }
  }

  lemma AgreesStep(st: State, me: UserId, a: Action)
    requires RowsAmongUsers(st)
    ensures DeviceAfter(st, me, Load(st.rows, me), a) == Load(ServerAfter(st, me, a).rows, me)
  {
    match RequestOf(me, a)
    case None =>
    case Some(r) =>
      if Refusal(st, r).Some? {
        RefusedChangesNothing(st, r);
      } else if Edits(a) {
        EditIsReload(st, me, a);
      }
  }

  lemma RunKeepsUsers(st: State, me: UserId, run: seq<Action>)
    requires RowsAmongUsers(st) && me in st.users
    ensures RowsAmongUsers(ServerRun(st, me, run)) && ServerRun(st, me, run).users == st.users
  {
    if run != [] {
      var before := ServerRun(st, me, run[..|run| - 1]);
      RunKeepsUsers(st, me, run[..|run| - 1]);
      var a := run[|run| - 1];
      if a.AcceptFrom? && Row(before.rows, a.requester, me) == Some(Pending) {
        assert (a.requester, me) in before.rows;
      }
    }
  }

  /** Once loaded, and however the user goes on, the lists are what a fresh load would give. */
  lemma {:induction false} ListsStayFresh(st: State, me: UserId, run: seq<Action>)
    requires RowsAmongUsers(st) && me in st.users
    ensures DeviceRun(st, me, Load(st.rows, me), run) == Load(ServerRun(st, me, run).rows, me)
  {
    if run != [] {
      ListsStayFresh(st, me, run[..|run| - 1]);
      RunKeepsUsers(st, me, run[..|run| - 1]);
      AgreesStep(ServerRun(st, me, run[..|run| - 1]), me, run[|run| - 1]);
    }
  }

  /** So the client says a user can be called exactly when the server will let the call
      through, and shows as pending exactly the requests it could accept. */
  lemma ClientKnowsWhoCanBeCalled(st: State, me: UserId, run: seq<Action>, u: UserId)
    requires RowsAmongUsers(st) && me in st.users
    ensures u in DeviceRun(st, me, Load(st.rows, me), run).contacts <==> CanCall(ServerRun(st, me, run).rows, me, u)
    ensures u in DeviceRun(st, me, Load(st.rows, me), run).incoming <==>
            Refusal(ServerRun(st, me, run), AcceptRequest(me, u)) == None
  {
    ListsStayFresh(st, me, run);
    ContactsAre(ServerRun(st, me, run).rows, me, u);
  }

  /** How often list_contacts names a user: once for every accepted row of the two. */
  function Entries(t: Table, me: UserId, u: UserId): nat {
    (if Row(t, me, u) == Some(Accepted) then 1 else 0) +
    (if u != me && Row(t, u, me) == Some(Accepted) then 1 else 0)
  }

  lemma EntriesOfOneMore(t: Table, k: (UserId, UserId), status: Status, me: UserId, u: UserId)
    requires k !in t
    ensures Entries(t[k := status], me, u) ==
            Entries(t, me, u) + (if status == Accepted && (k == (me, u) || k == (u, me)) then 1 else 0)
  {
  }

  /** list_contacts names a contact once unless an invite has been redeemed between the two. */
  lemma NamedTwiceNeedsInvite(users: set<UserId>, rs: seq<Request>, me: UserId, u: UserId)
    ensures Entries(After(users, rs).rows, me, u) > 0 <==> CanCall(After(users, rs).rows, me, u)
    ensures Entries(After(users, rs).rows, me, u) == 2 ==>
              exists i: nat :: RedeemsAt(users, rs, i, me, u) || RedeemsAt(users, rs, i, u, me)
  {
    if Entries(After(users, rs).rows, me, u) == 2 {
      SecondRowNeedsInvite(users, rs, me, u);
    }
  }
}
