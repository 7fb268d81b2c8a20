/** The ContactsService of lib/services/contacts_service.dart talking to the server.  Once its
    lists are fresh, whatever its user does keeps them fresh, while nobody else acts. */
module ContactsClient {
  import opened Wrappers
  import opened ContactRows
  import opened ContactHandlers
  import opened ContactCache
  import opened ContactsServer

  datatype ContactStatus = IsAccepted | IsPendingIncoming

  datatype Contact = Contact(contactId: UserId, status: ContactStatus)

  function WithStatus(names: seq<UserId>, status: ContactStatus): seq<Contact> {
    seq(|names|, i requires 0 <= i < |names| => Contact(names[i], status))
  }

  /** The list without the entries of one user. */
  function RemoveWhere(cs: seq<Contact>, u: UserId): seq<Contact> {
    if cs == [] then []
    else if cs[0].contactId == u then RemoveWhere(cs[1..], u)
    else [cs[0]] + RemoveWhere(cs[1..], u)
  }

  function Ids(cs: seq<Contact>): set<UserId> {
    set c | c in cs :: c.contactId
  }

  ghost predicate AllAre(cs: seq<Contact>, status: ContactStatus) {
    forall c :: c in cs ==> c.status == status
  }

  lemma {:induction false} RemoveWhereIds(cs: seq<Contact>, u: UserId)
    ensures forall c :: c in RemoveWhere(cs, u) <==> c in cs && c.contactId != u
    ensures Ids(RemoveWhere(cs, u)) == Ids(cs) - {u}
  {
    if cs != [] {
      RemoveWhereIds(cs[1..], u);
      assert cs == [cs[0]] + cs[1..];
    }
  }

  lemma RemoveWhereCons(c: Contact, more: seq<Contact>, u: UserId)
    ensures RemoveWhere([c] + more, u) == (if c.contactId == u then [] else [c]) + RemoveWhere(more, u)
  {
    assert ([c] + more)[1..] == more;
  }

  lemma Regroup(a: seq<Contact>, b: seq<Contact>, c: seq<Contact>, d: seq<Contact>)
    ensures (a + b) + c + d == a + (b + c + d)
  {
  }

  /** removeWhere takes out every entry of the user and keeps the others in their order. */
  lemma {:induction false} RemoveWhereIsFilter(before: seq<Contact>, c: Contact, after: seq<Contact>, u: UserId)
    ensures RemoveWhere(before + [c] + after, u) ==
            RemoveWhere(before, u) + (if c.contactId == u then [] else [c]) + RemoveWhere(after, u)
  {
    if before == [] {
      assert before + [c] + after == [c] + after;
      RemoveWhereCons(c, after, u);
    } else {
      var x, rest := before[0], before[1..];
      RemoveWhereIsFilter(rest, c, after, u);
      RemoveWhereCons(x, rest + [c] + after, u);
      RemoveWhereCons(x, rest, u);
      assert before == [x] + rest;
      Regroup([x], rest, [c], after);
      Regroup(if x.contactId == u then [] else [x], RemoveWhere(rest, u),
              if c.contactId == u then [] else [c], RemoveWhere(after, u));
    }
  }

  lemma WithStatusIds(names: seq<UserId>, status: ContactStatus)
    ensures AllAre(WithStatus(names, status), status)
    ensures forall u :: u in Ids(WithStatus(names, status)) <==> multiset(names)[u] > 0
  {
    var cs := WithStatus(names, status);
    forall u ensures u in Ids(cs) <==> u in names {
      if u in names {
        var i :| 0 <= i < |names| && names[i] == u;
        assert cs[i] == Contact(u, status);
      }
    }
  }

  class ContactsService {
    const me: UserId
    const db: ContactsDb
    var contacts: seq<Contact>
    var pendingIncoming: seq<Contact>

    /** The lists hold what their names say. */
    ghost predicate Valid()
      reads this, db
    {
      AllAre(contacts, IsAccepted) && AllAre(pendingIncoming, IsPendingIncoming) && db.Valid() && me in db.users
    }

    /** The lists name exactly the server's accepted contacts and pending requesters. */
    ghost predicate Fresh()
      reads this, db
    {
      View() == Load(db.rows, me)
    }

    ghost function View(): Device
      reads this
    {
      Device(Ids(contacts), Ids(pendingIncoming))
    }

    constructor (me: UserId, db: ContactsDb)
      requires db.Valid() && me in db.users
      ensures this.me == me && this.db == db && Valid() && View() == Device({}, {})
    {
      this.me, this.db, contacts, pendingIncoming := me, db, [], [];
    }

    method LoadAll()
      requires Valid()
      modifies this
      ensures Valid() && Fresh()
    {
      var names := db.ListContacts(me);
      contacts := WithStatus(names, IsAccepted);
      WithStatusIds(names, IsAccepted);
      names := db.PendingRequests(me);
      pendingIncoming := WithStatus(names, IsPendingIncoming);
      WithStatusIds(names, IsPendingIncoming);
      forall u
        ensures u in Ids(contacts) <==> u in Contacts(db.rows, me)
        ensures u in Ids(pendingIncoming) <==> u in Incoming(db.rows, me)
      {
        ContactsAre(db.rows, me, u);
      }
    }

    /** A list that is fresh before an action is fresh after it. */
    lemma StaysFresh(a: Action)
      requires Valid()
      ensures Fresh() ==> DeviceAfter(db.Model(), me, View(), a) == Load(ServerAfter(db.Model(), me, a).rows, me)
    {
      AmongUsers(db.users, db.history);
      AgreesStep(db.Model(), me, a);
    }

    lemma ServerStep(before: seq<Request>, r: Request)
      requires db.Valid() && db.history == before + [r]
      ensures db.Model() == Step(ContactHandlers.After(db.users, before), r)
    {
      assert db.history[..|db.history| - 1] == before;
    }

    method SendRequest(target: UserId, first: bool) returns (failure: Option<Failure>)
      requires Valid()
      modifies this, db
      ensures Valid() && db.history == old(db.history) + [ContactHandlers.SendRequest(me, target, first)]
      ensures View() == DeviceAfter(old(db.Model()), me, old(View()), Send(target, first))
      ensures old(Fresh()) ==> Fresh()
      ensures failure == Refusal(old(db.Model()), ContactHandlers.SendRequest(me, target, first))
      ensures failure.None? ==> Fresh()
      ensures failure.Some? ==> contacts == old(contacts) && pendingIncoming == old(pendingIncoming)
    {
      StaysFresh(Send(target, first));
      ghost var before := db.history;
      failure := db.OnSendRequest(me, target, first);
      ServerStep(before, ContactHandlers.SendRequest(me, target, first));
      if failure.None? {
        LoadAll();
      }
    }

    method AcceptRequest(requester: UserId) returns (done: bool)
      requires Valid()
      modifies this, db
      ensures Valid() && db.history == old(db.history) + [ContactHandlers.AcceptRequest(me, requester)]
      ensures View() == DeviceAfter(old(db.Model()), me, old(View()), AcceptFrom(requester))
      ensures old(Fresh()) ==> Fresh()
      ensures done == (requester in Incoming(old(db.rows), me))
      ensures done ==> Fresh() && requester in View().contacts
      ensures !done ==> contacts == old(contacts) && pendingIncoming == old(pendingIncoming)
    {
      StaysFresh(AcceptFrom(requester));
      ghost var before := db.history;
      ContactsAre(db.rows, me, requester);
      var failure := db.OnAcceptRequest(me, requester);
      ServerStep(before, ContactHandlers.AcceptRequest(me, requester));
      if failure.None? {
        LoadAll();
        ContactsAre(db.rows, me, requester);
      }
      return failure.None?;
    }

    method DeclineRequest(requester: UserId)
      requires Valid()
      modifies this`pendingIncoming, db
      ensures Valid() && db.history == old(db.history) + [ContactHandlers.DeclineRequest(me, requester)]
      ensures View() == DeviceAfter(old(db.Model()), me, old(View()), DeclineFrom(requester))
      ensures old(Fresh()) ==> Fresh()
      ensures requester !in View().incoming && pendingIncoming == RemoveWhere(old(pendingIncoming), requester)
    {
      StaysFresh(DeclineFrom(requester));
      ghost var before := db.history;
      db.OnDeclineRequest(me, requester);
      ServerStep(before, ContactHandlers.DeclineRequest(me, requester));
      RemoveWhereIds(pendingIncoming, requester);
      pendingIncoming := RemoveWhere(pendingIncoming, requester);
    }

    method RemoveContact(userId: UserId)
      requires Valid()
      modifies this`contacts, db
      ensures Valid() && db.history == old(db.history) + [ContactHandlers.RemoveContact(me, userId)]
      ensures View() == DeviceAfter(old(db.Model()), me, old(View()), Remove(userId))
      ensures old(Fresh()) ==> Fresh()
      ensures userId !in View().contacts && contacts == RemoveWhere(old(contacts), userId)
    {
      StaysFresh(Remove(userId));
      ghost var before := db.history;
      db.OnRemoveContact(me, userId);
      ServerStep(before, ContactHandlers.RemoveContact(me, userId));
      RemoveWhereIds(contacts, userId);
      contacts := RemoveWhere(contacts, userId);
    }

    method BlockUser(userId: UserId) returns (done: bool)
      requires Valid()
      modifies this, db
      ensures Valid() && db.history == old(db.history) + [ContactHandlers.BlockUser(me, userId)]
      ensures View() == DeviceAfter(old(db.Model()), me, old(View()), Block(userId))
      ensures old(Fresh()) ==> Fresh()
      ensures done == (userId in db.users)
      ensures done ==> userId !in View().contacts && userId !in View().incoming
      ensures contacts == if done then RemoveWhere(old(contacts), userId) else old(contacts)
      ensures pendingIncoming == if done then RemoveWhere(old(pendingIncoming), userId) else old(pendingIncoming)
    {
      StaysFresh(Block(userId));
      ghost var before := db.history;
      var failure := db.OnBlockUser(me, userId);
      ServerStep(before, ContactHandlers.BlockUser(me, userId));
      if failure.None? {
        RemoveWhereIds(contacts, userId);
        RemoveWhereIds(pendingIncoming, userId);
        contacts := RemoveWhere(contacts, userId);
        pendingIncoming := RemoveWhere(pendingIncoming, userId);
      }
      return failure.None?;
    }

    /** Given fresh lists, the answer is the server's. */
    method CanCallUser(userId: UserId) returns (yes: bool)
      requires Valid()
      ensures yes == (userId in View().contacts)
      ensures Fresh() ==> yes == CanCall(db.rows, me, userId)
    {
      ContactsAre(db.rows, me, userId);
      yes := Contact(userId, IsAccepted) in contacts;
    }
  }
}
