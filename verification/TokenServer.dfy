/** The Redis commands of server-rust/src/db/redis_store.rs and the handlers of
    server-rust/src/routes/auth.rs that call them.  The handlers remember the requests they
    have served; the store is what TokenStore says after them, so no refresh token they accept
    was ever accepted before. */
module TokenServer {
  import opened Wrappers
  import opened TokenStore

  class RedisStore {
    var now: nat
    const ttl: nat
    var keys: map<(UserId, Jti), nat>
    var index: map<UserId, Index>

    function Model(): State
      reads this
    {
      State(now, ttl, keys, index)
    }

    constructor (ttl: nat)
      ensures Model() == Initial(ttl)
    {
      now, this.ttl, keys, index := 0, ttl, map[], map[];
    }

    method PassTime(seconds: nat)
      modifies this`now
      ensures Model() == Step(old(Model()), Tick(seconds)) && now == old(now) + seconds
    {
      now := now + seconds;
    }

    method LRange(u: UserId) returns (jtis: seq<Jti>)
      ensures jtis == Listed(Model(), u)
    {
      if u in index && now < index[u].expiry {
        return index[u].jtis;
      }
      return [];
    }

    method StoreRefreshToken(u: UserId, j: Jti)
      modifies this`keys, this`index
      ensures Model() == Store(old(Model()), u, j)
      ensures keys == old(keys)[(u, j) := now + ttl]
      ensures var list := [j] + if u in old(index) && now < old(index)[u].expiry then old(index)[u].jtis else [];
              index == old(index)[u := Index(if |list| > 10 then list[..10] else list, now + ttl)]
    {
      keys := keys[(u, j) := now + ttl];
      var list := LRange(u);
      list := [j] + list;
      if |list| > MAX_INDEX {
        list := list[..MAX_INDEX];
      }
      index := index[u := Index(list, now + ttl)];
    }

    method IsRefreshTokenValid(u: UserId, j: Jti) returns (valid: bool)
      ensures valid == Valid(Model(), u, j)
      ensures valid <==> (u, j) in keys && now < keys[(u, j)]
    {
      valid := (u, j) in keys && now < keys[(u, j)];
    }

    method RevokeRefreshToken(u: UserId, j: Jti)
      modifies this`keys
      ensures Model() == Revoke(old(Model()), u, j)
      ensures keys == old(keys) - {(u, j)}
    {
      keys := keys - {(u, j)};
    }

    /** One DEL per listed id, then one for the list. */
    method RevokeAllRefreshTokens(u: UserId)
      modifies this`keys, this`index
      ensures Model() == RevokeAll(old(Model()), u)
      ensures index == old(index) - {u}
      ensures forall k :: k in keys <==>
                k in old(keys) &&
                !(k.0 == u && u in old(index) && now < old(index)[u].expiry && k.1 in old(index)[u].jtis)
      ensures forall k :: k in keys ==> keys[k] == old(keys)[k]
    {
      var jtis := LRange(u);
      var i := 0;
      while i < |jtis|
        invariant 0 <= i <= |jtis|
        invariant keys == old(keys) - set k | k in jtis[..i] :: (u, k)
        modifies this`keys
      {
        keys := keys - {(u, jtis[i])};
        assert jtis[..i + 1] == jtis[..i] + [jtis[i]];
        i := i + 1;
      }
      assert jtis[..i] == jtis;
      index := index - {u};
    }
  }

  datatype Claims = Claims(sub: UserId, jti: Jti)

  datatype RefreshFailure = BadToken | SessionsRevoked

  /** A token that is valid now has not been exchanged before. */
  lemma NeverExchanged(ttl: nat, history: seq<Event>, u: UserId, j: Jti, i: nat)
    requires FreshIds(ttl, history) && TokenStore.Valid(After(ttl, history), u, j) && i < |history|
    ensures !Exchanged(ttl, history, i, u, j)
  {
    if Exchanged(ttl, history, i, u, j) {
      RotationConsumes(ttl, history, i, u, j);
      DeadStaysDead(ttl, history, i + 1, u, j);
    }
  }

  lemma OnlyOldSurvive(ttl: nat, history: seq<Event>, u: UserId)
    requires FreshIds(ttl, history)
    ensures forall k :: TokenStore.Valid(RevokeAll(After(ttl, history), u), u, k) ==> !Recent(Stored(ttl, history, u), k)
  {
    forall k ensures TokenStore.Valid(RevokeAll(After(ttl, history), u), u, k) ==> !Recent(Stored(ttl, history, u), k) {
      RevokeAllExactly(ttl, history, u, u, k);
    }
  }

  /** `claims` is what signature verification made of the presented token, None if it was
      refused; `successor` is the id drawn for the token about to be issued. */
  class AuthHandlers {
    const redis: RedisStore
    ghost var history: seq<Event>

    ghost predicate Valid()
      reads this, redis
    {
      FreshIds(redis.ttl, history) && redis.Model() == After(redis.ttl, history)
    }

    constructor (redis: RedisStore)
      requires redis.Model() == Initial(redis.ttl)
      ensures this.redis == redis && Valid() && history == []
    {
      this.redis, history := redis, [];
    }

    ghost method Record(before: State, e: Event)
      requires FreshIds(redis.ttl, history) && before == After(redis.ttl, history)
      requires IsFresh(before, e, redis.ttl, history) && redis.Model() == Step(before, e)
      modifies this`history
      ensures Valid() && history == old(history) + [e]
    {
      assert (history + [e])[..|history|] == history;
      history := history + [e];
    }

    method OnTick(seconds: nat)
      requires Valid()
      modifies this, redis
      ensures Valid() && history == old(history) + [Tick(seconds)]
    {
      ghost var before := redis.Model();
      redis.PassTime(seconds);
      Record(before, Tick(seconds));
    }

    /** A login or a registration. */
    method OnLogin(u: UserId, j: Jti)
      requires Valid() && j !in Stored(redis.ttl, history, u)
      modifies this, redis
      ensures Valid() && history == old(history) + [Issue(u, j)]
    {
      ghost var before := redis.Model();
      redis.StoreRefreshToken(u, j);
      Record(before, Issue(u, j));
    }

    /** A token that is accepted was never accepted before and never will be again; one that is
        not ends every session that is among the user's ten newest. */
    method OnRefresh(claims: Option<Claims>, successor: Jti) returns (r: Result<Jti, RefreshFailure>)
      requires Valid() && (claims.Some? ==> successor !in Stored(redis.ttl, history, claims.value.sub))
      modifies this, redis
      ensures Valid()
      ensures claims.None? ==> r == Err(BadToken) && history == old(history)
      ensures claims.Some? ==> history == old(history) + [Refresh(claims.value.sub, claims.value.jti, successor)]
      ensures claims.Some? ==>
                r == if TokenStore.Valid(old(redis.Model()), claims.value.sub, claims.value.jti) then Ok(successor) else Err(SessionsRevoked)
      ensures r.Ok? ==>
                forall i :: 0 <= i < |old(history)| ==>
                  !Exchanged(redis.ttl, old(history), i, claims.value.sub, claims.value.jti)
      ensures claims.Some? ==> !TokenStore.Valid(redis.Model(), claims.value.sub, claims.value.jti)
      ensures r == Err(SessionsRevoked) ==>
                forall k :: TokenStore.Valid(redis.Model(), claims.value.sub, k) ==>
                  !Recent(Stored(redis.ttl, old(history), claims.value.sub), k)
    {
      if claims.None? {
        return Err(BadToken);
      }
      var Claims(u, j) := claims.value;
      ghost var before := redis.Model();
      var valid := redis.IsRefreshTokenValid(u, j);
      if !valid {
        OnlyOldSurvive(redis.ttl, history, u);
        redis.RevokeAllRefreshTokens(u);
        r := Err(SessionsRevoked);
      } else {
        forall i | 0 <= i < |history| ensures !Exchanged(redis.ttl, history, i, u, j) {
          NeverExchanged(redis.ttl, history, u, j, i);
        }
        ValidWasStored(redis.ttl, history, u, j);
        redis.RevokeRefreshToken(u, j);
        redis.StoreRefreshToken(u, successor);
        r := Ok(successor);
      }
      Record(before, Refresh(u, j, successor));
    }

    /** The token is revoked under the id of the authenticated user, whoever it was issued to. */
    method OnLogout(u: UserId, logoutAll: bool, claims: Option<Claims>)
      requires Valid()
      modifies this, redis
      ensures Valid()
      ensures history == if logoutAll then old(history) + [LogoutAll(u)]
                         else if claims.Some? then old(history) + [Logout(u, claims.value.jti)]
                         else old(history)
      ensures logoutAll ==>
                forall k :: TokenStore.Valid(redis.Model(), u, k) ==> !Recent(Stored(redis.ttl, old(history), u), k)
      ensures !logoutAll && claims.Some? ==> !TokenStore.Valid(redis.Model(), u, claims.value.jti)
    {
      ghost var before := redis.Model();
      if logoutAll {
        OnlyOldSurvive(redis.ttl, history, u);
        redis.RevokeAllRefreshTokens(u);
        Record(before, LogoutAll(u));
      } else if claims.Some? {
        redis.RevokeRefreshToken(u, claims.value.jti);
        Record(before, Logout(u, claims.value.jti));
      }
    }
  }
}
