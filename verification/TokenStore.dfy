/** Refresh-token sessions of server-rust/src/db/redis_store.rs under the protocol of
    server-rust/src/routes/auth.rs: one Redis key per token and, per user, a list of the
    ten most recently stored token ids, all with a time to live. */
module TokenStore {
  import opened Wrappers

  type UserId = string
  type Jti = string

  /** rt_list:{user}: newest first, gone once the clock reaches `expiry`. */
  datatype Index = Index(jtis: seq<Jti>, expiry: nat)

  datatype State = State(now: nat, ttl: nat, keys: map<(UserId, Jti), nat>, index: map<UserId, Index>)

  const MAX_INDEX := 10

  function Initial(ttl: nat): State {
    State(0, ttl, map[], map[])
  }

  /** is_refresh_token_valid: EXISTS on a key that has not expired. */
  predicate Valid(st: State, u: UserId, j: Jti) {
    (u, j) in st.keys && st.now < st.keys[(u, j)]
  }

  /** LRANGE 0 -1 of the index list, empty if it never existed or has expired. */
  function Listed(st: State, u: UserId): seq<Jti> {
    if u in st.index && st.now < st.index[u].expiry then st.index[u].jtis else []
  }

  function Trim(jtis: seq<Jti>): seq<Jti> {
    if |jtis| > MAX_INDEX then jtis[..MAX_INDEX] else jtis
  }

  /** SETEX, LPUSH, LTRIM 0 9, EXPIRE. */
  function Store(st: State, u: UserId, j: Jti): State {
    st.(keys := st.keys[(u, j) := st.now + st.ttl],
        index := st.index[u := Index(Trim([j] + Listed(st, u)), st.now + st.ttl)])
  }

  function Revoke(st: State, u: UserId, j: Jti): State {
    st.(keys := st.keys - {(u, j)})
  }

  function ListedKeys(st: State, u: UserId): set<(UserId, Jti)> {
    set j | j in Listed(st, u) :: (u, j)
  }

  function RevokeAll(st: State, u: UserId): State {
    st.(keys := st.keys - ListedKeys(st, u), index := st.index - {u})
  }

  /** Issue: a login or registration.  Refresh and Logout carry the claims of a token that
      passed signature verification; `successor` is the id generated for its successor. */
  datatype Event =
    | Issue(user: UserId, jti: Jti)
    | Refresh(user: UserId, jti: Jti, successor: Jti)
    | Logout(user: UserId, jti: Jti)
    | LogoutAll(user: UserId)
    | Tick(seconds: nat)

  function Step(st: State, e: Event): State {
    match e
    case Issue(u, j) => Store(st, u, j)
    case Refresh(u, j, successor) => if Valid(st, u, j) then Store(Revoke(st, u, j), u, successor) else RevokeAll(st, u)
    case Logout(u, j) => Revoke(st, u, j)
    case LogoutAll(u) => RevokeAll(st, u)
    case Tick(seconds) => st.(now := st.now + seconds)
  }

  function After(ttl: nat, es: seq<Event>): State {
    if es == [] then Initial(ttl) else Step(After(ttl, es[..|es| - 1]), es[|es| - 1])
  }

  /** Every token id ever stored for `u`, newest first, dead or alive. */
  function Stored(ttl: nat, es: seq<Event>, u: UserId): seq<Jti> {
    if es == [] then []
    else
      var before, e := es[..|es| - 1], es[|es| - 1];
      match NewToken(After(ttl, before), e, u)
      case Some(j) => [j] + Stored(ttl, before, u)
      case None => Stored(ttl, before, u)
  }

  /** The id that handling `e` stores for `u`. */
  function NewToken(st: State, e: Event, u: UserId): Option<Jti> {
    match e
    case Issue(v, j) => if v == u then Some(j) else None
    case Refresh(v, j, successor) => if v == u && Valid(st, v, j) then Some(successor) else None
    case _ => None
  }

  /** Token ids are version 4 UUIDs: none is generated twice. */
  predicate FreshIds(ttl: nat, es: seq<Event>)
    decreases |es|
  {
    es == [] ||
    (FreshIds(ttl, es[..|es| - 1]) && IsFresh(After(ttl, es[..|es| - 1]), es[|es| - 1], ttl, es[..|es| - 1]))
  }

  predicate IsFresh(st: State, e: Event, ttl: nat, before: seq<Event>) {
    match e
    case Issue(u, j) => j !in Stored(ttl, before, u)
    case Refresh(u, j, successor) => successor !in Stored(ttl, before, u)
    case _ => true
  }

  // ---------------------------------------------------------------------- the invariant

  /** For one user: the list is the newest part of what was stored, and every live token
      among the ten newest is on it and outlived by it. */
  ghost predicate InvFor(st: State, stored: seq<Jti>, u: UserId) {
    && (u in st.index ==> |st.index[u].jtis| <= MAX_INDEX && st.index[u].jtis <= stored)
    && (forall j :: (u, j) in st.keys ==> st.keys[(u, j)] <= st.now + st.ttl)
    && (forall j :: (u, j) in st.keys ==> j in stored)
    && (forall p :: 0 <= p < |stored| && p < MAX_INDEX && Valid(st, u, stored[p]) ==>
          u in st.index && p < |st.index[u].jtis| && st.keys[(u, stored[p])] <= st.index[u].expiry)
  }

  lemma {:induction false} InvStore(st: State, stored: seq<Jti>, u: UserId, n: Jti)
    requires InvFor(st, stored, u) && n !in stored
    ensures InvFor(Store(st, u, n), [n] + stored, u)
  {
    var st', stored' := Store(st, u, n), [n] + stored;
    assert Listed(st, u) <= stored;
    forall p | 0 <= p < |stored'| && p < MAX_INDEX && Valid(st', u, stored'[p])
      ensures p < |st'.index[u].jtis| && st'.keys[(u, stored'[p])] <= st'.index[u].expiry
    {
      if p > 0 {
        assert stored'[p] == stored[p - 1] && stored[p - 1] != n;
        assert Valid(st, u, stored[p - 1]);
        assert Listed(st, u) == st.index[u].jtis;
      }
    }
  }

  lemma {:induction false} InvRevoke(st: State, stored: seq<Jti>, u: UserId, v: UserId, j: Jti)
    requires InvFor(st, stored, u)
    ensures InvFor(Revoke(st, v, j), stored, u)
  {
    assert forall k :: Valid(Revoke(st, v, j), u, k) ==> Valid(st, u, k);
  }

  /** Anything live among the ten newest is on the list. */
  lemma RecentIsListed(st: State, stored: seq<Jti>, u: UserId, p: nat)
    requires InvFor(st, stored, u) && p < |stored| && p < MAX_INDEX && Valid(st, u, stored[p])
    ensures stored[p] in Listed(st, u)
  {
    assert Listed(st, u) == st.index[u].jtis;
    assert st.index[u].jtis[p] == stored[p];
  }

  lemma {:induction false} InvRevokeAll(st: State, stored: seq<Jti>, u: UserId, v: UserId)
    requires InvFor(st, stored, u)
    ensures InvFor(RevokeAll(st, v), stored, u)
  {
    var st' := RevokeAll(st, v);
    forall p | 0 <= p < |stored| && p < MAX_INDEX && Valid(st', u, stored[p])
      ensures u in st'.index && p < |st'.index[u].jtis| && st'.keys[(u, stored[p])] <= st'.index[u].expiry
    {
      assert Valid(st, u, stored[p]);
      RecentIsListed(st, stored, u, p);
    }
  }

  lemma {:induction false} InvOther(st: State, stored: seq<Jti>, u: UserId, v: UserId, n: Jti)
    requires InvFor(st, stored, u) && u != v
    ensures InvFor(Store(st, v, n), stored, u)
  {
    assert forall k :: Valid(Store(st, v, n), u, k) == Valid(st, u, k);
  }

  lemma {:induction false} InvStep(st: State, stored: seq<Jti>, u: UserId, e: Event)
    requires InvFor(st, stored, u)
    requires NewToken(st, e, u).Some? ==> NewToken(st, e, u).value !in stored
    ensures InvFor(Step(st, e), if NewToken(st, e, u).Some? then [NewToken(st, e, u).value] + stored else stored, u)
  {
    match e
    case Issue(v, j) => if u == v { InvStore(st, stored, u, j); } else { InvOther(st, stored, u, v, j); }
    case Refresh(v, j, successor) =>
      if Valid(st, v, j) {
        InvRevoke(st, stored, u, v, j);
        if u == v {
          InvStore(Revoke(st, v, j), stored, u, successor);
        } else {
          InvOther(Revoke(st, v, j), stored, u, v, successor);
        }
      } else {
        InvRevokeAll(st, stored, u, v);
      }
    case Logout(v, j) => InvRevoke(st, stored, u, v, j);
    case LogoutAll(v) => InvRevokeAll(st, stored, u, v);
    case Tick(seconds) => assert forall k :: Valid(Step(st, e), u, k) ==> Valid(st, u, k);
  }

  lemma {:induction false} InvRun(ttl: nat, es: seq<Event>, u: UserId)
    requires FreshIds(ttl, es)
    ensures InvFor(After(ttl, es), Stored(ttl, es, u), u)
  {
    if es != [] {
      InvRun(ttl, es[..|es| - 1], u);
      InvStep(After(ttl, es[..|es| - 1]), Stored(ttl, es[..|es| - 1], u), u, es[|es| - 1]);
    }
  }

  // ------------------------------------------------------------------- what revoke-all does

  /** `j` is among the ten ids most recently stored for the user. */
  predicate Recent(stored: seq<Jti>, j: Jti) {
    exists p :: 0 <= p < |stored| && p < 10 && stored[p] == j
  }

  /** Over any run: a token that is neither expired nor revoked and has fewer than ten later
      stores is on the list, and the list has not expired. */
  lemma LiveRecentTokenIsListed(ttl: nat, es: seq<Event>, u: UserId, p: nat)
    requires FreshIds(ttl, es) && p < |Stored(ttl, es, u)| && p < 10
    requires Valid(After(ttl, es), u, Stored(ttl, es, u)[p])
    ensures u in After(ttl, es).index && After(ttl, es).now < After(ttl, es).index[u].expiry
    ensures Stored(ttl, es, u)[p] in After(ttl, es).index[u].jtis
  {
    InvRun(ttl, es, u);
    RecentIsListed(After(ttl, es), Stored(ttl, es, u), u, p);
  }

  /** Revoke-all ends exactly the sessions among the ten most recent stores: a token is
      valid afterwards if and only if it was valid before and at least ten newer ones were
      stored.  Other users keep theirs. */
  lemma RevokeAllExactly(ttl: nat, es: seq<Event>, u: UserId, v: UserId, j: Jti)
    requires FreshIds(ttl, es)
    ensures Valid(RevokeAll(After(ttl, es), u), v, j) <==>
            Valid(After(ttl, es), v, j) && (v == u ==> !Recent(Stored(ttl, es, u), j))
  {
    var st, stored := After(ttl, es), Stored(ttl, es, u);
    InvRun(ttl, es, u);
    if Recent(stored, j) && Valid(st, u, j) {
      var p :| 0 <= p < |stored| && p < 10 && stored[p] == j;
      RecentIsListed(st, stored, u, p);
    }
    if j in Listed(st, u) {
      var p :| 0 <= p < |Listed(st, u)| && Listed(st, u)[p] == j;
      assert Trim(stored)[p] == stored[p] == j;
    }
  }

  /** "Reuse detected, all sessions revoked" is therefore true if and only if no session is
      older than the ten most recent stores. */
  lemma ReuseEndsEverySessionIff(ttl: nat, es: seq<Event>, u: UserId, j: Jti, successor: Jti)
    requires FreshIds(ttl, es) && !Valid(After(ttl, es), u, j)
    ensures (forall k :: !Valid(Step(After(ttl, es), Refresh(u, j, successor)), u, k)) <==>
            (forall k :: Valid(After(ttl, es), u, k) ==> Recent(Stored(ttl, es, u), k))
  {
    forall k
      ensures Valid(Step(After(ttl, es), Refresh(u, j, successor)), u, k) <==>
              Valid(After(ttl, es), u, k) && !Recent(Stored(ttl, es, u), k)
    {
      RevokeAllExactly(ttl, es, u, u, k);
    }
  }

  /** Distinct ids, told apart by their length. */
  function Name(n: nat): (j: Jti)
    ensures |j| == n
  {
    seq(n, i => 'x')
  }

  /** `n` logins in the same second, all still valid; newest first in what was stored. */
  ghost predicate Logins(ttl: nat, es: seq<Event>, u: UserId, n: nat) {
    && FreshIds(ttl, es) && After(ttl, es).now == 0 && After(ttl, es).ttl == ttl && |Stored(ttl, es, u)| == n
    && (forall k :: 0 <= k < n ==> Stored(ttl, es, u)[k] == Name(n - 1 - k))
    && (forall k :: 0 <= k < n ==> Valid(After(ttl, es), u, Name(k)))
  }

  lemma NamesDiffer(stored: seq<Jti>, n: nat)
    requires |stored| == n && forall k :: 0 <= k < n ==> stored[k] == Name(n - 1 - k)
    ensures Name(n) !in stored
  {
    forall k | 0 <= k < n ensures stored[k] != Name(n) {
      assert |stored[k]| == n - 1 - k;
    }
  }

  lemma LoginStores(st: State, u: UserId, n: nat)
    requires st.ttl > 0 && forall k :: 0 <= k < n ==> Valid(st, u, Name(k))
    ensures forall k :: 0 <= k < n + 1 ==> Valid(Store(st, u, Name(n)), u, Name(k))
  {
    var st' := Store(st, u, Name(n));
    forall k | 0 <= k < n + 1 ensures Valid(st', u, Name(k)) {
      if k < n {
        assert Valid(st, u, Name(k));
      }
    }
  }

  lemma LoginListed(ttl: nat, es: seq<Event>, u: UserId, j: Jti)
    ensures After(ttl, es + [Issue(u, j)]) == Store(After(ttl, es), u, j)
    ensures Stored(ttl, es + [Issue(u, j)], u) == [j] + Stored(ttl, es, u)
    ensures FreshIds(ttl, es) && j !in Stored(ttl, es, u) ==> FreshIds(ttl, es + [Issue(u, j)])
  {
    assert (es + [Issue(u, j)])[..|es|] == es;
  }

  lemma OneMoreLogin(ttl: nat, es: seq<Event>, u: UserId, n: nat)
    requires ttl > 0 && Logins(ttl, es, u, n)
    ensures Logins(ttl, es + [Issue(u, Name(n))], u, n + 1)
  {
    NamesDiffer(Stored(ttl, es, u), n);
    LoginListed(ttl, es, u, Name(n));
    LoginStores(After(ttl, es), u, n);
  }

  /** After eleven logins and a logout everywhere, the first login is still valid. */
  lemma RevokeAllMissesTheEleventh(ttl: nat, u: UserId) returns (es: seq<Event>)
    requires ttl > 0
    ensures FreshIds(ttl, es) && Valid(Step(After(ttl, es), LogoutAll(u)), u, Name(0))
  {
    es := [];
    for i := 0 to 11
      invariant Logins(ttl, es, u, i)
    {
      OneMoreLogin(ttl, es, u, i);
      es := es + [Issue(u, Name(i))];
    }
    var recent := Trim(Stored(ttl, es, u));
    forall k | 0 <= k < |recent| ensures recent[k] != Name(0) {
      assert recent[k] == Stored(ttl, es, u)[k] == Name(11 - 1 - k);
      assert |recent[k]| == 10 - k && |Name(0)| == 0;
    }
    RevokeAllExactly(ttl, es, u, u, Name(0));
  }

  // ----------------------------------------------------------------------- single use

  lemma {:induction false} ValidWasStored(ttl: nat, es: seq<Event>, u: UserId, j: Jti)
    requires FreshIds(ttl, es) && Valid(After(ttl, es), u, j)
    ensures j in Stored(ttl, es, u)
  {
    InvRun(ttl, es, u);
  }

  lemma DeadStep(st: State, e: Event, u: UserId, j: Jti)
    requires !Valid(st, u, j) && NewToken(st, e, u) != Some(j)
    ensures !Valid(Step(st, e), u, j)
  {
  }

  lemma {:induction false} FreshPrefix(ttl: nat, es: seq<Event>, i: nat)
    requires FreshIds(ttl, es) && i <= |es|
    ensures FreshIds(ttl, es[..i])
    decreases |es|
  {
    if i < |es| {
      FreshPrefix(ttl, es[..|es| - 1], i);
      assert es[..|es| - 1][..i] == es[..i];
    } else {
      assert es[..i] == es;
    }
  }

  /** A token that has been stored and is no longer valid, by rotation, logout, revoke-all
      or expiry, never becomes valid again. */
  lemma {:induction false} DeadStaysDead(ttl: nat, es: seq<Event>, i: nat, u: UserId, j: Jti)
    requires FreshIds(ttl, es) && i <= |es|
    requires j in Stored(ttl, es[..i], u) && !Valid(After(ttl, es[..i]), u, j)
    ensures j in Stored(ttl, es, u) && !Valid(After(ttl, es), u, j)
    decreases |es|
  {
    if i < |es| {
      var before := es[..|es| - 1];
      assert before[..i] == es[..i];
      DeadStaysDead(ttl, before, i, u, j);
      DeadStep(After(ttl, before), es[|es| - 1], u, j);
    } else {
      assert es[..i] == es;
    }
  }

  /** The refresh at position `i` of the run succeeds for this token. */
  predicate Exchanged(ttl: nat, es: seq<Event>, i: nat, u: UserId, j: Jti) {
    i < |es| && es[i].Refresh? && es[i].user == u && es[i].jti == j && Valid(After(ttl, es[..i]), u, j)
  }

  lemma RotationConsumes(ttl: nat, es: seq<Event>, i: nat, u: UserId, j: Jti)
    requires FreshIds(ttl, es) && Exchanged(ttl, es, i, u, j)
    ensures j in Stored(ttl, es[..i + 1], u) && !Valid(After(ttl, es[..i + 1]), u, j)
  {
    FreshPrefix(ttl, es, i + 1);
    FreshPrefix(ttl, es, i);
    ValidWasStored(ttl, es[..i], u, j);
    assert es[..i + 1][..i] == es[..i];
  }

  /** Over any run, each refresh token is exchanged at most once. */
  lemma ExchangedAtMostOnce(ttl: nat, es: seq<Event>, i: nat, k: nat, u: UserId, j: Jti)
    requires FreshIds(ttl, es) && Exchanged(ttl, es, i, u, j) && Exchanged(ttl, es, k, u, j)
    ensures i == k
  {
    NotExchangedLater(ttl, es, i, k, u, j);
    NotExchangedLater(ttl, es, k, i, u, j);
  }

  lemma NotExchangedLater(ttl: nat, es: seq<Event>, i: nat, k: nat, u: UserId, j: Jti)
    requires FreshIds(ttl, es) && Exchanged(ttl, es, i, u, j) && k < |es|
    ensures i < k ==> !Exchanged(ttl, es, k, u, j)
  {
    if i < k {
      RotationConsumes(ttl, es, i, u, j);
      FreshPrefix(ttl, es, k);
      assert es[..k][..i + 1] == es[..i + 1];
      DeadStaysDead(ttl, es[..k], i + 1, u, j);
    }
  }

  // --------------------------------------------------- the lifetime of a token, exactly

  /** Event i stores this token. */
  predicate StoredAt(ttl: nat, es: seq<Event>, i: nat, u: UserId, j: Jti) {
    i < |es| && NewToken(After(ttl, es[..i]), es[i], u) == Some(j)
  }

  /** Event k ends it: its own exchange or logout, or a revoke-all for its user, asked for or
      set off by an invalid token, while it is among the ten most recent. */
  predicate EndsAt(ttl: nat, es: seq<Event>, k: nat, u: UserId, j: Jti)
    requires k < |es|
  {
    EndedBy(After(ttl, es[..k]), Stored(ttl, es[..k], u), es[k], u, j)
  }

  predicate EndedBy(st: State, stored: seq<Jti>, e: Event, u: UserId, j: Jti) {
    match e
    case Logout(v, x) => v == u && x == j
    case LogoutAll(v) => v == u && Recent(stored, j)
    case Refresh(v, x, _) => v == u && if Valid(st, u, x) then x == j else Recent(stored, j)
    case _ => false
  }

  ghost predicate LiveSince(ttl: nat, es: seq<Event>, i: nat, u: UserId, j: Jti) {
    && StoredAt(ttl, es, i, u, j) && After(ttl, es).now < After(ttl, es[..i]).now + ttl
    && NotEnded(ttl, es, i, u, j)
  }

  ghost predicate NotEnded(ttl: nat, es: seq<Event>, i: nat, u: UserId, j: Jti) {
    forall k :: i < k < |es| ==> !EndsAt(ttl, es, k, u, j)
  }

  lemma {:induction false} TtlStays(ttl: nat, es: seq<Event>)
    ensures After(ttl, es).ttl == ttl
  {
    if es != [] {
      TtlStays(ttl, es[..|es| - 1]);
    }
  }

  lemma EndsAtPrefix(ttl: nat, es: seq<Event>, k: nat, u: UserId, j: Jti)
    requires k < |es| - 1
    ensures EndsAt(ttl, es[..|es| - 1], k, u, j) == EndsAt(ttl, es, k, u, j)
  {
    assert es[..|es| - 1][..k] == es[..k];
  }

  lemma NotEndedShorter(ttl: nat, es: seq<Event>, i: nat, u: UserId, j: Jti)
    requires i < |es| - 1 && NotEnded(ttl, es, i, u, j)
    ensures NotEnded(ttl, es[..|es| - 1], i, u, j) && !EndsAt(ttl, es, |es| - 1, u, j)
  {
    var before := es[..|es| - 1];
    forall k | i < k < |before| ensures !EndsAt(ttl, before, k, u, j) {
      EndsAtPrefix(ttl, es, k, u, j);
    }
  }

  lemma NotEndedLonger(ttl: nat, es: seq<Event>, i: nat, u: UserId, j: Jti)
    requires i < |es| - 1 && NotEnded(ttl, es[..|es| - 1], i, u, j) && !EndsAt(ttl, es, |es| - 1, u, j)
    ensures NotEnded(ttl, es, i, u, j)
  {
    forall k | i < k < |es| ensures !EndsAt(ttl, es, k, u, j) {
      if k < |es| - 1 {
        EndsAtPrefix(ttl, es, k, u, j);
      }
    }
  }

  lemma ClockRuns(st: State, e: Event)
    ensures st.now <= Step(st, e).now
  {
  }

  lemma LiveSincePrefix(ttl: nat, es: seq<Event>, i: nat, u: UserId, j: Jti)
    requires i < |es| - 1
    ensures LiveSince(ttl, es, i, u, j) <==>
            && LiveSince(ttl, es[..|es| - 1], i, u, j) && !EndsAt(ttl, es, |es| - 1, u, j)
            && After(ttl, es).now < After(ttl, es[..i]).now + ttl
  {
    var before := es[..|es| - 1];
    assert before[..i] == es[..i];
    if NotEnded(ttl, es, i, u, j) {
      NotEndedShorter(ttl, es, i, u, j);
    } else if NotEnded(ttl, before, i, u, j) && !EndsAt(ttl, es, |es| - 1, u, j) {
      NotEndedLonger(ttl, es, i, u, j);
    }
    ClockRuns(After(ttl, before), es[|es| - 1]);
  }

  /** One event ends a valid token exactly as EndedBy says, time apart. */
  lemma EndsStep(ttl: nat, before: seq<Event>, e: Event, u: UserId, j: Jti)
    requires FreshIds(ttl, before) && Valid(After(ttl, before), u, j)
    requires NewToken(After(ttl, before), e, u) != Some(j)
    ensures var st, st' := After(ttl, before), Step(After(ttl, before), e);
            && ((u, j) in st'.keys ==> st'.keys[(u, j)] == st.keys[(u, j)])
            && (Valid(st', u, j) <==>
                !EndedBy(st, Stored(ttl, before, u), e, u, j) && st'.now < st.keys[(u, j)])
  {
    var st := After(ttl, before);
    match e
    case Issue(_, _) =>
    case Refresh(v, x, _) => if !Valid(st, v, x) { RevokeAllExactly(ttl, before, v, u, j); }
    case Logout(_, _) =>
    case LogoutAll(v) => RevokeAllExactly(ttl, before, v, u, j);
    case Tick(_) =>
  }

  lemma NewIsLive(ttl: nat, es: seq<Event>, u: UserId, j: Jti)
    requires es != [] && NewToken(After(ttl, es[..|es| - 1]), es[|es| - 1], u) == Some(j)
    ensures (u, j) in After(ttl, es).keys && After(ttl, es).keys[(u, j)] == After(ttl, es[..|es| - 1]).now + ttl
    ensures LiveSince(ttl, es, |es| - 1, u, j) <==> Valid(After(ttl, es), u, j)
  {
    TtlStays(ttl, es[..|es| - 1]);
  }

  /** A live token has the expiry its storing gave it, and is valid. */
  lemma {:induction false} LiveIsValid(ttl: nat, es: seq<Event>, i: nat, u: UserId, j: Jti)
    requires FreshIds(ttl, es) && LiveSince(ttl, es, i, u, j)
    ensures Valid(After(ttl, es), u, j) && After(ttl, es).keys[(u, j)] == After(ttl, es[..i]).now + ttl
    decreases |es|
  {
    var n := |es| - 1;
    if i == n {
      NewIsLive(ttl, es, u, j);
    } else {
      LiveSincePrefix(ttl, es, i, u, j);
      assert es[..n][..i] == es[..i];
      LiveIsValid(ttl, es[..n], i, u, j);
      ValidWasStored(ttl, es[..n], u, j);
      EndsStep(ttl, es[..n], es[n], u, j);
    }
  }

  lemma {:induction false} ValidIsLive(ttl: nat, es: seq<Event>, u: UserId, j: Jti) returns (i: nat)
    requires FreshIds(ttl, es) && Valid(After(ttl, es), u, j)
    ensures LiveSince(ttl, es, i, u, j)
  {
    var n := |es| - 1;
    var st := After(ttl, es[..n]);
    if NewToken(st, es[n], u) == Some(j) {
      NewIsLive(ttl, es, u, j);
      i := n;
    } else {
      if !Valid(st, u, j) {
        DeadStep(st, es[n], u, j);
      }
      i := ValidIsLive(ttl, es[..n], u, j);
      LiveIsValid(ttl, es[..n], i, u, j);
      assert es[..n][..i] == es[..i];
      EndsStep(ttl, es[..n], es[n], u, j);
      LiveSincePrefix(ttl, es, i, u, j);
    }
  }

  /** A token is valid exactly from its storing until its time is up, it is exchanged or logged
      out, or everything is revoked while fewer than ten newer tokens were stored. */
  lemma ValidIffLive(ttl: nat, es: seq<Event>, u: UserId, j: Jti)
    requires FreshIds(ttl, es)
    ensures Valid(After(ttl, es), u, j) <==> exists i: nat :: LiveSince(ttl, es, i, u, j)
  {
    if Valid(After(ttl, es), u, j) {
      var i := ValidIsLive(ttl, es, u, j);
    }
    forall i: nat | LiveSince(ttl, es, i, u, j) ensures Valid(After(ttl, es), u, j) {
      LiveIsValid(ttl, es, i, u, j);
    }
  }
}
