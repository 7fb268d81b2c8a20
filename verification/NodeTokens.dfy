/** The refreshTokens list of one user document in server/src/routes/auth.js: the at most
    five refresh tokens that are good, oldest first.  The tokens carry no id of their own, so
    two generated within one second are equal; nothing here assumes they differ unless it
    says so. */
module NodeTokens {
  import opened Wrappers

  type Token = string

  const MAX_SESSIONS := 5

  /** None until the user registers. */
  type State = Option<seq<Token>>

  /** The requests that got past their checks of passwords and signatures.  `next` is what
      generateTokens would return. */
  datatype Event =
    | Register(next: Token)
    | Login(next: Token)
    | Refresh(presented: Token, next: Token)
    | Logout(presented: Token)

  /** The list without any copy of a token. */
  function Without(tokens: seq<Token>, token: Token): seq<Token> {
    if tokens == [] then []
    else if tokens[0] != token then [tokens[0]] + Without(tokens[1..], token)
    else Without(tokens[1..], token)
  }

  /** At most the last five. */
  function LastFive(tokens: seq<Token>): seq<Token> {
    if |tokens| > MAX_SESSIONS then tokens[|tokens| - MAX_SESSIONS..] else tokens
  }

  function PushAndShift(tokens: seq<Token>, next: Token): seq<Token> {
    if |tokens| + 1 > MAX_SESSIONS then (tokens + [next])[1..] else tokens + [next]
  }

  function Rotate(tokens: seq<Token>, presented: Token, next: Token): seq<Token> {
    if presented in tokens then LastFive(Without(tokens, presented) + [next]) else []
  }

  function Step(st: State, e: Event): State {
    match e
    case Register(next) => if st.None? then Some([next]) else st
    case Login(next) => if st.None? then st else Some(PushAndShift(st.value, next))
    case Refresh(presented, next) => if st.None? then st else Some(Rotate(st.value, presented, next))
    case Logout(presented) => if st.None? then st else Some(Without(st.value, presented))
  }

  function After(es: seq<Event>): State {
    if es == [] then None else Step(After(es[..|es| - 1]), es[|es| - 1])
  }

  function Good(es: seq<Event>): seq<Token> {
    if After(es).None? then [] else After(es).value
  }

  // ------------------------------------------------------------------------- filtering

  lemma {:induction false} WithoutMembers(tokens: seq<Token>, token: Token)
    ensures forall t :: t in Without(tokens, token) <==> t in tokens && t != token
  {
    if tokens != [] {
      WithoutMembers(tokens[1..], token);
      assert tokens == [tokens[0]] + tokens[1..];
    }
  }

  lemma {:induction false} WithoutLength(tokens: seq<Token>, token: Token)
    ensures |Without(tokens, token)| + multiset(tokens)[token] == |tokens|
  {
    if tokens != [] {
      WithoutLength(tokens[1..], token);
      assert tokens == [tokens[0]] + tokens[1..];
    }
  }

  lemma WithoutCons(t: Token, more: seq<Token>, token: Token)
    ensures Without([t] + more, token) == (if t == token then [] else [t]) + Without(more, token)
  {
    assert ([t] + more)[1..] == more;
  }

  lemma Regroup(a: seq<Token>, b: seq<Token>, c: seq<Token>, d: seq<Token>)
    ensures (a + b) + c + d == a + (b + c + d)
  {
  }

  /** Filtering takes out every copy of the token and keeps the others in their order. */
  lemma {:induction false} WithoutIsFilter(before: seq<Token>, t: Token, after: seq<Token>, token: Token)
    ensures Without(before + [t] + after, token) ==
            Without(before, token) + (if t == token then [] else [t]) + Without(after, token)
  {
    if before == [] {
      assert before + [t] + after == [t] + after;
      WithoutCons(t, after, token);
    } else {
      var x, rest := before[0], before[1..];
      WithoutIsFilter(rest, t, after, token);
      WithoutCons(x, rest + [t] + after, token);
      WithoutCons(x, rest, token);
      assert before == [x] + rest;
      Regroup([x], rest, [t], after);
      Regroup(if x == token then [] else [x], Without(rest, token), if t == token then [] else [t], Without(after, token));
    }
  }

  // -------------------------------------------------------------------------- the bound

  /** Over any run, with any tokens, a user has at most five good refresh tokens. */
  lemma {:induction false} AtMostFive(es: seq<Event>)
    ensures |Good(es)| <= 5
  {
    if es != [] {
      AtMostFive(es[..|es| - 1]);
      var tokens := Good(es[..|es| - 1]);
      var e := es[|es| - 1];
      if e.Logout? {
        WithoutLength(tokens, e.presented);
      }
    }
  }

  /** In every reachable state the cut to five after a rotation removes nothing: the other sessions
      stay, in their order, ahead of the new token. */
  lemma RotationEvictsNobody(es: seq<Event>, presented: Token, next: Token)
    requires presented in Good(es)
    ensures Good(es + [Refresh(presented, next)]) == Without(Good(es), presented) + [next]
  {
    AtMostFive(es);
    WithoutLength(Good(es), presented);
    assert (es + [Refresh(presented, next)])[..|es|] == es;
  }

  /** So it keeps the number of sessions if and only if the token was listed once. */
  lemma RotationKeepsCountIff(es: seq<Event>, presented: Token, next: Token)
    requires presented in Good(es)
    ensures |Good(es + [Refresh(presented, next)])| == |Good(es)| <==> multiset(Good(es))[presented] == 1
  {
    RotationEvictsNobody(es, presented, next);
    WithoutLength(Good(es), presented);
  }

  /** A login ends at most one session, the one at the head, and only of a full list. */
  lemma LoginEvictsAtMostTheOldest(es: seq<Event>, next: Token)
    requires After(es).Some?
    ensures Good(es + [Login(next)]) ==
            (if |Good(es)| == 5 then Good(es)[1..] else Good(es)) + [next]
  {
    AtMostFive(es);
    assert (es + [Login(next)])[..|es|] == es;
    var tokens := Good(es);
    if |tokens| == MAX_SESSIONS {
      assert (tokens + [next])[1..] == tokens[1..] + [next];
    }
  }

  ghost predicate EndsOnly(before: seq<Token>, after: seq<Token>, gone: Token) {
    forall t :: t in before && t != gone ==> t in after
  }

  /** Presenting a well-signed token that is not listed ends every session, and no other
      request ends more than the sessions of one token. */
  lemma OnlyReuseEmptiesTheList(es: seq<Event>, e: Event)
    requires After(es).Some?
    ensures e.Refresh? && e.presented !in Good(es) ==> Good(es + [e]) == []
    ensures !(e.Refresh? && e.presented !in Good(es)) ==>
              exists gone :: EndsOnly(Good(es), Good(es + [e]), gone)
  {
    assert (es + [e])[..|es|] == es;
    var tokens, after := Good(es), Good(es + [e]);
    match e
    case Register(next) => assert EndsOnly(tokens, after, next);
    case Login(next) =>
      LoginEvictsAtMostTheOldest(es, next);
      assert EndsOnly(tokens, after, if tokens == [] then next else tokens[0]);
    case Refresh(presented, next) =>
      WithoutMembers(tokens, presented);
      if presented in tokens {
        RotationEvictsNobody(es, presented, next);
        assert EndsOnly(tokens, after, presented);
      }
    case Logout(presented) =>
      WithoutMembers(tokens, presented);
      assert EndsOnly(tokens, after, presented);
  }

  // ------------------------------------------------------------------------- single use

  /** The token that event i puts on the list. */
  function Added(es: seq<Event>, i: nat): Option<Token>
    requires i < |es|
  {
    match es[i]
    case Register(next) => if After(es[..i]).None? then Some(next) else None
    case Login(next) => if After(es[..i]).Some? then Some(next) else None
    case Refresh(presented, next) => if presented in Good(es[..i]) then Some(next) else None
    case Logout(_) => None
  }

  /** Every token put on the list is one that was never there before. */
  ghost predicate FreshTokens(es: seq<Event>) {
    forall i, k :: 0 <= i < k < |es| && Added(es, i).Some? ==> Added(es, i) != Added(es, k)
  }

  predicate Exchanged(es: seq<Event>, i: nat, t: Token) {
    i < |es| && es[i].Refresh? && es[i].presented == t && t in Good(es[..i])
  }

  lemma {:induction false} LastFiveMembers(tokens: seq<Token>, t: Token)
    ensures t in LastFive(tokens) ==> t in tokens
  {
    if t in LastFive(tokens) {
      var p :| 0 <= p < |LastFive(tokens)| && LastFive(tokens)[p] == t;
      assert t == tokens[if |tokens| > MAX_SESSIONS then p + |tokens| - MAX_SESSIONS else p];
    }
  }

  /** A step lists a token only by keeping it or by adding it. */
  lemma KeptOrAdded(es: seq<Event>, i: nat, t: Token)
    requires i < |es| && t in Good(es[..i + 1]) && t !in Good(es[..i])
    ensures Added(es, i) == Some(t)
  {
    assert es[..i + 1][..i] == es[..i];
    var tokens := Good(es[..i]);
    match es[i]
    case Register(_) =>
    case Login(_) =>
    case Refresh(presented, next) =>
      WithoutMembers(tokens, presented);
      LastFiveMembers(Without(tokens, presented) + [next], t);
    case Logout(presented) => WithoutMembers(tokens, presented);
  }

  lemma {:induction false} ListedBecauseAdded(es: seq<Event>, i: nat, k: nat, t: Token) returns (m: nat)
    requires i <= k <= |es| && t !in Good(es[..i]) && t in Good(es[..k])
    ensures i <= m < k && Added(es, m) == Some(t)
    decreases k
  {
    if t in Good(es[..k - 1]) {
      m := ListedBecauseAdded(es, i, k - 1, t);
    } else {
      KeptOrAdded(es, k - 1, t);
      m := k - 1;
    }
  }

  /** A rotation consumes the token presented unless the token generated is the same. */
  lemma RotationConsumesIff(es: seq<Event>, i: nat, t: Token)
    requires Exchanged(es, i, t)
    ensures t !in Good(es[..i + 1]) <==> es[i].next != t
  {
    assert es[..i + 1] == es[..i] + [es[i]];
    RotationEvictsNobody(es[..i], t, es[i].next);
    WithoutMembers(Good(es[..i]), t);
  }

  /** With no assumption on the tokens: one that is exchanged twice was put on the list again
      no earlier than its first exchange. */
  lemma ExchangedTwiceWasReissued(es: seq<Event>, i: nat, k: nat, t: Token)
    requires i < k && Exchanged(es, i, t) && Exchanged(es, k, t)
    ensures exists m :: i <= m < k && Added(es, m) == Some(t)
  {
    RotationConsumesIff(es, i, t);
    if es[i].next == t {
      assert Added(es, i) == Some(t);
    } else {
      var m := ListedBecauseAdded(es, i + 1, k, t);
    }
  }

  /** With fresh tokens: one that has left the list, in whatever way, never comes back. */
  lemma GoneForGood(es: seq<Event>, i: nat, j: nat, k: nat, t: Token)
    requires FreshTokens(es) && i <= j <= k <= |es|
    requires t in Good(es[..i]) && t !in Good(es[..j])
    ensures t !in Good(es[..k])
  {
    if t in Good(es[..k]) {
      var first := ListedBecauseAdded(es, 0, i, t);
      var again := ListedBecauseAdded(es, j, k, t);
      assert false;
    }
  }

  lemma ExchangedAtMostOnce(es: seq<Event>, i: nat, k: nat, t: Token)
    requires FreshTokens(es) && Exchanged(es, i, t) && Exchanged(es, k, t)
    ensures i == k
  {
    if i != k {
      var early, late := if i < k then i else k, if i < k then k else i;
      ExchangedTwiceWasReissued(es, early, late, t);
      var m :| early <= m < late && Added(es, m) == Some(t);
      var first := ListedBecauseAdded(es, 0, early, t);
      assert false;
    }
  }

  /** Without fresh tokens, as when a rotation falls into the second of the login, the same
      token is exchanged any number of times. */
  lemma SameSecondReuse(t: Token)
    ensures Exchanged([Register(t), Refresh(t, t), Refresh(t, t)], 1, t)
    ensures Exchanged([Register(t), Refresh(t, t), Refresh(t, t)], 2, t)
  {
    var es := [Register(t), Refresh(t, t), Refresh(t, t)];
    assert es[..1] == [Register(t)] && [Register(t)][..0] == [];
    assert After([Register(t)]) == Step(After([]), Register(t));
    assert Good(es[..1]) == [t];
    assert es[..2] == es[..1] + [Refresh(t, t)];
    RotationEvictsNobody(es[..1], t, t);
    WithoutMembers([t], t);
    assert Exchanged(es, 1, t) && Exchanged(es, 2, t);
  }
}
