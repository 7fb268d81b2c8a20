/** The auth routes of server/src/routes/auth.js as they change one user document.  The
    document remembers the requests it has served; its list is what NodeTokens says after
    them, so it never holds more than five tokens and a rotation ends no other session. */
module NodeSessions {
  import opened Wrappers
  import opened NodeTokens

  datatype Reply = Tokens(refreshToken: Token) | Message(text: string)

  class UserDocument {
    var registered: bool
    var refreshTokens: seq<Token>
    ghost var history: seq<Event>

    ghost predicate Valid()
      reads this
    {
      Model() == After(history) && (!registered ==> refreshTokens == [])
    }

    function Model(): State
      reads this
    {
      if registered then Some(refreshTokens) else None
    }

    constructor ()
      ensures Valid() && history == [] && refreshTokens == []
    {
      registered, refreshTokens, history := false, [], [];
    }

    /** The request just served is added to the history: there are still at most five. */
    ghost method Record(before: State, e: Event)
      requires before == After(history) && Model() == Step(before, e) && (!registered ==> refreshTokens == [])
      modifies this`history
      ensures Valid() && history == old(history) + [e] && |refreshTokens| <= 5
    {
      assert (history + [e])[..|history|] == history;
      history := history + [e];
      AtMostFive(history);
    }

    method OnRegister(next: Token) returns (r: Result<Reply, nat>)
      requires Valid()
      modifies this
      ensures Valid() && history == old(history) + [Register(next)] && |refreshTokens| <= 5
      ensures r == if old(registered) then Err(409) else Ok(Tokens(next))
      ensures registered && refreshTokens == if old(registered) then old(refreshTokens) else [next]
    {
      ghost var before := Model();
      if registered {
        Record(before, Register(next));
        return Err(409);
      }
      registered, refreshTokens := true, [next];
      Record(before, Register(next));
      return Ok(Tokens(next));
    }

    /** A new token at the end, and the first one dropped when there are then more than five. */
    method OnLogin(next: Token) returns (r: Result<Reply, nat>)
      requires Valid()
      modifies this
      ensures Valid() && history == old(history) + [Login(next)] && |refreshTokens| <= 5
      ensures r == if old(registered) then Ok(Tokens(next)) else Err(401)
      ensures registered == old(registered) && (r.Err? ==> refreshTokens == old(refreshTokens))
      ensures r.Ok? && |old(refreshTokens)| == 5 ==> refreshTokens == old(refreshTokens)[1..] + [next]
      ensures r.Ok? && |old(refreshTokens)| < 5 ==> refreshTokens == old(refreshTokens) + [next]
    {
      ghost var before := Model();
      if registered {
        LoginEvictsAtMostTheOldest(history, next);
        assert (history + [Login(next)])[..|history|] == history;
      }
      if !registered {
        Record(before, Login(next));
        return Err(401);
      }
      refreshTokens := refreshTokens + [next];
      if |refreshTokens| > MAX_SESSIONS {
        refreshTokens := refreshTokens[1..];
      }
      Record(before, Login(next));
      return Ok(Tokens(next));
    }

    /** The filtered list with its successor, cut to its last five, which in use cuts nothing:
        all sessions but the presented one stay, in order.  Or else the list is emptied. */
    method OnRefresh(presented: Token, next: Token) returns (r: Result<Reply, nat>)
      requires Valid()
      modifies this
      ensures Valid() && history == old(history) + [Refresh(presented, next)] && |refreshTokens| <= 5
      ensures r == if presented in old(refreshTokens) then Ok(Tokens(next)) else Err(401)
      ensures registered == old(registered)
      ensures refreshTokens == if r.Ok? then Without(old(refreshTokens), presented) + [next] else []
    {
      ghost var before := Model();
      if !registered || presented !in refreshTokens {
        if registered {
          refreshTokens := [];
        }
        Record(before, Refresh(presented, next));
        return Err(401);
      }
      AtMostFive(history);
      WithoutLength(refreshTokens, presented);
      var kept := Without(refreshTokens, presented) + [next];
      refreshTokens := LastFive(kept);
      Record(before, Refresh(presented, next));
      return Ok(Tokens(next));
    }

    method OnLogout(presented: Token) returns (r: Reply)
      requires Valid()
      modifies this
      ensures Valid() && history == old(history) + [Logout(presented)] && |refreshTokens| <= 5
      ensures registered == old(registered) && refreshTokens == Without(old(refreshTokens), presented)
      ensures presented !in refreshTokens
      ensures forall t :: t in old(refreshTokens) && t != presented ==> t in refreshTokens
      ensures r == Message("Logged out successfully")
    {
      ghost var before := Model();
      WithoutMembers(refreshTokens, presented);
      if registered {
        refreshTokens := Without(refreshTokens, presented);
      }
      Record(before, Logout(presented));
      return Message("Logged out successfully");
    }
  }
}
