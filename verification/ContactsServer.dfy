/** The handlers of server-rust/src/routes/contacts.rs as they run against the tables,
    statement by statement.  A database remembers the requests it has served and is what
    ContactHandlers says after them, so nobody is rung without consent. */
module ContactsServer {
  import opened Wrappers
  import opened ContactRows
  import opened ContactHandlers
  import ContactCache

  /** What the call arm of dispatch_message sends, and to whom: Ringing goes to the callee,
      the rest back to the caller. */
  datatype CallOutcome = CannotCallYourself | NotContacts | UserOffline | UserBusy | Ringing

  ghost predicate AllAuthenticated(users: set<UserId>, rs: seq<Request>) {
    forall k :: 0 <= k < |rs| ==> ContactCache.Authenticated(users, rs[k])
  }

  /** What a request to a user is refused for, by the row there already is. */
  function RefusedFor(status: Status): Failure {
    match status
    case Accepted => AlreadyContacts
    case Pending => RequestExists
    case Blocked => IsBlocked
  }

  class ContactsDb {
    const users: set<UserId>
    var rows: Table
    var invites: map<string, Invite>
    var now: nat
    ghost var history: seq<Request>

    ghost predicate Valid()
      reads this
    {
      AllAuthenticated(users, history) && Model() == After(users, history)
    }

    function Model(): State
      reads this
    {
      State(users, rows, invites, now)
    }

    constructor (users: set<UserId>)
      ensures Valid() && history == [] && this.users == users
    {
      this.users, rows, invites, now, history := users, map[], map[], 0, [];
    }

    /** The request just served is added to the history: rows are still among users. */
    ghost method Record(before: State, r: Request)
      requires AllAuthenticated(users, history) && before == After(users, history)
      requires ContactCache.Authenticated(users, r) && Model() == Step(before, r)
      modifies this`history
      ensures Valid() && history == old(history) + [r] && ContactCache.RowsAmongUsers(Model())
    {
      assert (history + [r])[..|history|] == history;
      history := history + [r];
      ContactCache.AmongUsers(users, history);
    }

    /** Users one of whom has ever blocked the other stay a blocked pair. */
    lemma BlocksStand(b: nat, x: UserId, y: UserId)
      requires Valid() && b < |history| && history[b] == BlockUser(x, y) && y in users
      ensures BlockedPair(rows, x, y)
    {
      BlockedPairStays(users, history, b, x, y);
    }

    method OnSendRequest(me: UserId, target: UserId, first: bool) returns (failure: Option<Failure>)
      requires Valid() && me in users
      modifies this
      ensures Valid() && history == old(history) + [SendRequest(me, target, first)]
      ensures failure == Refusal(old(Model()), SendRequest(me, target, first))
      ensures failure == Some(BadRequest) <==> target == me
      ensures failure == Some(NotFound) <==> target != me && target !in users
      ensures failure.None? <==>
                target != me && target in users && (me, target) !in old(rows) && (target, me) !in old(rows)
      ensures target != me && target in users && failure.Some? ==>
                exists status :: failure == Some(RefusedFor(status)) &&
                  (Row(old(rows), me, target) == Some(status) || Row(old(rows), target, me) == Some(status))
      ensures rows == if failure.None? then old(rows)[(me, target) := Pending] else old(rows)
      ensures invites == old(invites) && now == old(now)
    {
      ghost var before := Model();
      if target == me {
        failure := Some(BadRequest);
      } else if target !in users {
        failure := Some(NotFound);
      } else {
        var existing := Existing(rows, me, target, first);
        if existing == Some(Accepted) {
          failure := Some(AlreadyContacts);
        } else if existing == Some(Pending) {
          failure := Some(RequestExists);
        } else if existing == Some(Blocked) {
          failure := Some(IsBlocked);
        } else {
          rows := rows[(me, target) := Pending];
          failure := None;
        }
      }
      Record(before, SendRequest(me, target, first));
    }

    method OnAcceptRequest(me: UserId, requester: UserId) returns (failure: Option<Failure>)
      requires Valid() && me in users
      modifies this
      ensures Valid() && history == old(history) + [AcceptRequest(me, requester)]
      ensures failure == Refusal(old(Model()), AcceptRequest(me, requester))
      ensures failure.None? ==> CanCall(rows, me, requester)
      ensures if Row(old(rows), requester, me) == Some(Pending)
              then failure == None && rows == old(rows)[(requester, me) := Accepted]
              else failure == Some(NotFound) && rows == old(rows)
      ensures invites == old(invites) && now == old(now)
    {
      ghost var before := Model();
      var affected := 0;
      if (requester, me) in rows && rows[(requester, me)] == Pending {
        rows := rows[(requester, me) := Accepted];
        affected := 1;
      }
      failure := if affected == 0 then Some(NotFound) else None;
      Record(before, AcceptRequest(me, requester));
    }

    method OnDeclineRequest(me: UserId, requester: UserId)
      requires Valid() && me in users
      modifies this
      ensures Valid() && history == old(history) + [DeclineRequest(me, requester)]
      ensures Row(rows, requester, me) != Some(Pending)
      ensures rows == if Row(old(rows), requester, me) == Some(Pending) then old(rows) - {(requester, me)} else old(rows)
      ensures invites == old(invites) && now == old(now)
    {
      ghost var before := Model();
      if (requester, me) in rows && rows[(requester, me)] == Pending {
        rows := rows - {(requester, me)};
      }
      Record(before, DeclineRequest(me, requester));
    }

    method OnRemoveContact(me: UserId, other: UserId)
      requires Valid() && me in users
      modifies this
      ensures Valid() && history == old(history) + [RemoveContact(me, other)]
      ensures !CanCall(rows, me, other)
      ensures forall k :: k in rows <==>
                k in old(rows) && !(old(rows)[k] == Accepted && (k == (me, other) || k == (other, me)))
      ensures forall k :: k in rows ==> rows[k] == old(rows)[k]
      ensures invites == old(invites) && now == old(now)
    {
      ghost var before := Model();
      if (me, other) in rows && rows[(me, other)] == Accepted {
        rows := rows - {(me, other)};
      }
      if (other, me) in rows && rows[(other, me)] == Accepted {
        rows := rows - {(other, me)};
      }
      Record(before, RemoveContact(me, other));
    }

    method OnBlockUser(me: UserId, other: UserId) returns (failure: Option<Failure>)
      requires Valid() && me in users
      modifies this
      ensures Valid() && history == old(history) + [BlockUser(me, other)]
      ensures failure == Refusal(old(Model()), BlockUser(me, other))
      ensures !CanCall(rows, me, other) && (failure.None? ==> BlockedPair(rows, me, other))
      ensures failure == if other in users then None else Some(DatabaseError)
      ensures var cleared := old(rows) - {(me, other), (other, me)};
              rows == if failure.None? then cleared[(me, other) := Blocked] else cleared
      ensures invites == old(invites) && now == old(now)
    {
      ghost var before := Model();
      rows := rows - {(me, other), (other, me)};
      if other !in users {
        failure := Some(DatabaseError);
      } else {
        rows := rows[(me, other) := Blocked];
        failure := None;
      }
      Record(before, BlockUser(me, other));
    }

    method OnGenerateInvite(me: UserId, token: string) returns (failure: Option<Failure>)
      requires Valid() && me in users
      modifies this
      ensures Valid() && history == old(history) + [GenerateInvite(me, token)]
      ensures failure == Refusal(old(Model()), GenerateInvite(me, token))
      ensures if token in old(invites) then failure == Some(DatabaseError) && invites == old(invites)
              else failure == None && invites == old(invites)[token := Invite(me, 1, now + 86400)]
      ensures rows == old(rows) && now == old(now)
    {
      ghost var before := Model();
      if token in invites {
        failure := Some(DatabaseError);
      } else {
        invites := invites[token := Invite(me, 1, now + INVITE_SECONDS)];
        failure := None;
      }
      Record(before, GenerateInvite(me, token));
    }

    /** A link that is accepted was never accepted before. */
    method OnUseInvite(me: UserId, owner: UserId, token: string) returns (failure: Option<Failure>)
      requires Valid() && me in users
      modifies this
      ensures Valid() && history == old(history) + [UseInvite(me, owner, token)]
      ensures failure == Refusal(old(Model()), UseInvite(me, owner, token))
      ensures failure.None? ==> forall k: nat :: !SpendsAt(users, old(history), k, token)
      ensures failure == Some(NotFound) <==>
                token !in old(invites) || old(invites)[token].owner != owner || old(invites)[token].expiresAt <= now
      ensures failure == Some(BadRequest) <==>
                token in old(invites) && old(invites)[token].owner == owner && now < old(invites)[token].expiresAt &&
                old(invites)[token].usesLeft == 0
      ensures failure == None || failure == Some(NotFound) || failure == Some(BadRequest)
      ensures failure.Some? ==> invites == old(invites) && rows == old(rows)
      ensures failure.None? ==>
                var Invite(o, uses, expiry) := old(invites)[token];
                && invites == old(invites)[token := Invite(o, uses - 1, expiry)]
                && rows == if (me, owner) in old(rows) then old(rows) else old(rows)[(me, owner) := Pending]
      ensures now == old(now)
    {
      ghost var before := Model();
      UsesLeftIff(users, history, token);
      if token !in invites || invites[token].owner != owner || invites[token].expiresAt <= now {
        failure := Some(NotFound);
      } else if invites[token].usesLeft == 0 {
        failure := Some(BadRequest);
      } else {
        var invite := invites[token];
        invites := invites[token := invite.(usesLeft := invite.usesLeft - 1)];
        if (me, owner) !in rows {
          rows := rows[(me, owner) := Pending];
        }
        failure := None;
      }
      Record(before, UseInvite(me, owner, token));
    }

    method OnTick(seconds: nat)
      requires Valid()
      modifies this
      ensures Valid() && history == old(history) + [PassTime(seconds)]
      ensures now == old(now) + seconds && rows == old(rows) && invites == old(invites)
    {
      ghost var before := Model();
      now := now + seconds;
      Record(before, PassTime(seconds));
    }

    /** One entry for every accepted row of the user, in the order of the scan. */
    method ListContacts(me: UserId) returns (names: seq<UserId>)
      ensures forall u :: multiset(names)[u] == ContactCache.Entries(rows, me, u)
    {
      names := [];
      var todo := rows.Keys;
      while todo != {}
        invariant todo <= rows.Keys
        invariant forall u :: multiset(names)[u] == ContactCache.Entries(rows - todo, me, u)
        decreases |todo|
      {
        var k :| k in todo;
        ghost var seen := rows - todo;
        if rows[k] == Accepted && (k.0 == me || k.1 == me) {
          var other := if k.0 == me then k.1 else k.0;
          names := names + [other];
        }
        todo := todo - {k};
        assert rows - todo == seen[k := rows[k]];
        forall u ensures multiset(names)[u] == ContactCache.Entries(rows - todo, me, u) {
          ContactCache.EntriesOfOneMore(seen, k, rows[k], me, u);
        }
      }
      assert rows - todo == rows;
    }

    method PendingRequests(me: UserId) returns (names: seq<UserId>)
      ensures forall u :: multiset(names)[u] == if Row(rows, u, me) == Some(Pending) then 1 else 0
    {
      names := [];
      var todo := rows.Keys;
      while todo != {}
        invariant todo <= rows.Keys
        invariant forall u :: multiset(names)[u] == if Row(rows - todo, u, me) == Some(Pending) then 1 else 0
        decreases |todo|
      {
        var k :| k in todo;
        ghost var seen := rows - todo;
        if rows[k] == Pending && k.1 == me {
          names := names + [k.0];
        }
        todo := todo - {k};
        assert rows - todo == seen[k := rows[k]];
      }
      assert rows - todo == rows;
    }

    /** `connected` and `busy` are what the hub and the busy key say of the callee.  Nobody is
        rung unless one of the two asked, the other accepted, and that still stands. */
    method OnCall(caller: UserId, callee: UserId, connected: bool, busy: bool) returns (outcome: CallOutcome)
      requires Valid()
      ensures outcome == CannotCallYourself <==> caller == callee
      ensures outcome == NotContacts <==> caller != callee && !CanCall(rows, caller, callee)
      ensures outcome == UserOffline <==> caller != callee && CanCall(rows, caller, callee) && !connected
      ensures outcome == Ringing <==> caller != callee && CanCall(rows, caller, callee) && connected && !busy
      ensures outcome == Ringing ==> Consented(Trace(users, history), caller, callee) || Consented(Trace(users, history), callee, caller)
    {
      SerialRunsAreTraces(users, history);
      CanCallIffConsented(Trace(users, history), caller, callee);
      if callee == caller {
        return CannotCallYourself;
      }
      var allowed := CanCall(rows, caller, callee);
      if !allowed {
        return NotContacts;
      }
      if !connected {
        return UserOffline;
      }
      if busy {
        return UserBusy;
      }
      return Ringing;
    }
  }
}
