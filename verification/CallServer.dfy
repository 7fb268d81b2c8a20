/** The call handlers of server/src/signaling/signalingServer.js as they run: each method
    changes the server's tables and socket fields one assignment at a time.  A server
    remembers the events it has handled; its tables are what CallModel says after them,
    and its live calls form a forest. */
module CallServer {
  import opened Wrappers
  import opened CallModel
  import opened CallForest

  ghost predicate Keeps(calls: map<string, Call>, calls': map<string, Call>) {
    forall id :: id in calls ==> id in calls' && calls'[id] == calls[id]
  }

  lemma CallingKeepsCalls(history: seq<Event>, e: Event)
    requires IsRun(history) && Legal(After(history), e) && e.PlaceCall?
    ensures Keeps(After(history).calls, Step(After(history), e).calls)
  {
    if Accepted(After(history), e) {
      LiveCallsFormForest(history);
      CallsAfterAccept(After(history), e);
    }
  }

  /** What only a party may do: every call that goes is the one this socket holds. */
  ghost predicate EndsOnlyOwn(before: State, ws: SocketId, calls: map<string, Call>) {
    forall id :: id in before.calls && id !in calls ==>
      ws in before.sockets && Holds(before.sockets[ws], id) &&
      before.sockets[ws].user.value in {before.calls[id].caller, before.calls[id].callee}
  }

  lemma EndsOwn(history: seq<Event>, e: Event)
    requires IsRun(history) && Legal(After(history), e) && (e.Decline? || e.HangUp? || e.Close?)
    ensures EndsOnlyOwn(After(history), e.ws, Step(After(history), e).calls)
  {
    LiveCallsFormForest(history);
    forall id | id in After(history).calls && id !in Step(After(history), e).calls
      ensures Holds(After(history).sockets[e.ws], id)
    {
      OwnerEndsCall(After(history), e, id);
    }
  }

  /** What sending to a socket adds to what has been sent: nothing unless it is open. */
  function Delivered(sockets: map<SocketId, Socket>, ws: SocketId, m: Message): seq<(SocketId, Message)> {
    if ws in sockets && sockets[ws].open then [(ws, m)] else []
  }

  function ToUser(sockets: map<SocketId, Socket>, online: map<UserId, SocketId>, u: UserId, m: Message):
      seq<(SocketId, Message)> {
    if u in online then Delivered(sockets, online[u], m) else []
  }

  /** The caller may ring: it is authenticated, calls somebody else who is online, and that user
      is a party of no live call. */
  predicate Rings(st: State, ws: SocketId, to: UserId, offer: string) {
    && ws in st.sockets && st.sockets[ws].user.Some? && to != "" && offer != "" && Some(to) != st.sockets[ws].user
    && to in st.online && forall id :: id in st.calls ==> st.calls[id].caller != to && st.calls[id].callee != to
  }

  /** The live calls but for the one that a socket held. */
  function CallsWithout(calls: map<string, Call>, held: Option<string>): map<string, Call> {
    map id | id in calls && Some(id) != held :: calls[id]
  }

  function OtherParty(call: Call, u: UserId): UserId {
    if call.caller == u then call.callee else call.caller
  }

  /** A socket of this user has not answered the ping of the last tick. */
  predicate MissedPong(sockets: map<SocketId, Socket>, u: UserId) {
    exists ws :: ws in sockets && !sockets[ws].alive && sockets[ws].user == Some(u)
  }

  /** What a caller who may not ring is told. */
  function Refusal(st: State, ws: SocketId, to: UserId, offer: string): Message
    requires ws in st.sockets
  {
    if st.sockets[ws].user.None? then Error("Not authenticated")
    else if to == "" || offer == "" then Error("Missing to/offer")
    else if to == st.sockets[ws].user.value then Error("Cannot call yourself")
    else if to !in st.online then UserOffline(to)
    else UserBusy(to)
  }

  /** A call is set up: one more record, its id on the sockets of both parties and on no other,
      and the callee, and nobody else, is told. */
  ghost predicate Ringing(st: State, st': State, ws: SocketId, to: UserId, offer: string, id: string)
    requires Rings(st, ws, to, offer)
  {
    var me, target := st.sockets[ws].user.value, st.online[to];
    && st'.calls == st.calls[id := Call(me, to)]
    && st'.online == st.online && st'.sockets.Keys == st.sockets.Keys
    && (forall x :: x in st'.sockets ==>
          st'.sockets[x] == if x == ws || x == target then st.sockets[x].(currentCall := Some(id)) else st.sockets[x])
    && st'.sent == st.sent + Delivered(st.sockets, target, CallIncoming(me, offer, id))
  }

  lemma RingsIff(st: State, ws: SocketId, to: UserId, offer: string)
    ensures Rings(st, ws, to, offer) <==>
            && ws in st.sockets && st.sockets[ws].user.Some? && to != "" && offer != ""
            && Some(to) != st.sockets[ws].user && to in st.online && !Busy(st.calls, to)
  {
  }

  lemma CallIdIs(me: UserId, to: UserId, now: nat)
    ensures CallId(me, to, now) == me + "-" + to + "-" + Decimal(now)
  {
  }

  /** One tick: sockets that answered the last ping are pinged again and stay open, the others
      are ended, and just their users are no longer online. */
  ghost predicate Beaten(st: State, st': State) {
    && st'.sockets.Keys == st.sockets.Keys
    && (forall ws :: ws in st.sockets ==>
          st'.sockets[ws] == if st.sockets[ws].alive then st.sockets[ws].(alive := false) else st.sockets[ws].(open := false))
    && (forall u :: u in st'.online <==> u in st.online && !MissedPong(st.sockets, u))
    && (forall u :: u in st'.online ==> st'.online[u] == st.online[u])
  }

  class SignalingServer {
    var sockets: map<SocketId, Socket>
    var online: map<UserId, SocketId>
    var calls: map<string, Call>
    var sent: seq<(SocketId, Message)>
    ghost var history: seq<Event>

    ghost predicate Valid()
      reads this
    {
      IsRun(history) && Model() == After(history)
    }

    function Model(): State
      reads this
    {
      State(sockets, online, calls, sent)
    }

    constructor ()
      ensures Valid() && history == [] && Forest(calls)
    {
      sockets, online, calls, sent, history := map[], map[], map[], [], [];
      new;
      EmptyForest();
    }

    /** The event just handled is added to the history: the live calls are still a forest. */
    ghost method Record(before: State, e: Event)
      requires IsRun(history) && before == After(history) && Legal(before, e) && Model() == Step(before, e)
      modifies this`history
      ensures Valid() && history == old(history) + [e] && Forest(calls)
    {
      assert (history + [e])[..|history|] == history;
      history := history + [e];
      LiveCallsFormForest(history);
    }

    method SendTo(ws: SocketId, m: Message)
      modifies this`sent
      ensures Model() == Send(old(Model()), ws, m)
      ensures sent == old(sent) + Delivered(sockets, ws, m)
    {
      if ws in sockets && sockets[ws].open {
        sent := sent + [(ws, m)];
      }
    }

    method TerminateSocket(ws: SocketId)
      modifies this`sockets
      ensures Model() == Terminate(old(Model()), ws)
    {
      if ws in sockets {
        sockets := sockets[ws := sockets[ws].(open := false)];
      }
    }

    method OnConnection(ws: SocketId)
      requires Valid() && Legal(Model(), Connect(ws))
      modifies this
      ensures Valid() && Forest(calls) && history == old(history) + [Connect(ws)]
      ensures sockets == old(sockets)[ws := Socket(None, None, true, true)]
      ensures online == old(online) && calls == old(calls) && sent == old(sent)
    {
      ghost var before := Model();
      sockets := sockets[ws := Socket(None, None, true, true)];
      Record(before, Connect(ws));
    }

    /** An older session of the user is told and terminated. */
    method ReplaceSession(ws: SocketId, user: UserId)
      modifies this`sent, this`sockets
      ensures user !in online || online[user] == ws ==> sent == old(sent) && sockets == old(sockets)
      ensures user in online && online[user] != ws ==>
                && Model() == Terminate(Send(old(Model()), online[user], SessionReplaced), online[user])
                && sent == old(sent) + Delivered(old(sockets), online[user], SessionReplaced)
                && sockets.Keys == old(sockets).Keys
                && forall x :: x in sockets ==>
                     sockets[x] == if x == online[user] then old(sockets)[x].(open := false) else old(sockets)[x]
    {
      if user in online && online[user] != ws {
        SendTo(online[user], SessionReplaced);
        TerminateSocket(online[user]);
      }
    }

    /** The auth message after validateWsToken has answered. */
    method OnAuth(ws: SocketId, user: UserId)
      requires Valid() && Legal(Model(), Auth(ws, user))
      modifies this
      ensures Valid() && Forest(calls) && history == old(history) + [Auth(ws, user)]
      ensures calls == old(calls) && online == old(online)[user := ws]
      ensures sockets.Keys == old(sockets).Keys
      ensures forall x :: x in sockets ==>
                sockets[x] == if x == ws then old(sockets)[ws].(user := Some(user))
                              else if user in old(online) && x == old(online)[user] then old(sockets)[x].(open := false)
                              else old(sockets)[x]
      ensures user in old(online) && old(online)[user] != ws ==>
                sent == old(sent) + Delivered(old(sockets), old(online)[user], SessionReplaced) +
                        Delivered(old(sockets), ws, AuthSuccess(user))
      ensures user !in old(online) || old(online)[user] == ws ==>
                sent == old(sent) + Delivered(old(sockets), ws, AuthSuccess(user))
    {
      ghost var before := Model();
      sockets := sockets[ws := sockets[ws].(user := Some(user))];
      ReplaceSession(ws, user);
      online := online[user := ws];
      SendTo(ws, AuthSuccess(user));
      Record(before, Auth(ws, user));
    }

    method OnAuthFailed(ws: SocketId)
      requires Valid() && Legal(Model(), AuthFailed(ws))
      modifies this
      ensures Valid() && Forest(calls) && history == old(history) + [AuthFailed(ws)]
      ensures sockets == old(sockets)[ws := old(sockets)[ws].(open := false)]
      ensures online == old(online) && calls == old(calls)
      ensures sent == old(sent) + Delivered(old(sockets), ws, AuthError)
    {
      ghost var before := Model();
      SendTo(ws, AuthError);
      TerminateSocket(ws);
      Record(before, AuthFailed(ws));
    }

    method OnCall(ws: SocketId, to: UserId, offer: string, now: nat)
      requires Valid() && Legal(Model(), PlaceCall(ws, to, offer, now))
      modifies this
      ensures Valid() && Forest(calls) && history == old(history) + [PlaceCall(ws, to, offer, now)]
      ensures Keeps(old(calls), calls) && online == old(online)
      ensures !Rings(old(Model()), ws, to, offer) ==>
                && calls == old(calls) && sockets == old(sockets)
                && sent == old(sent) + Delivered(old(sockets), ws, Refusal(old(Model()), ws, to, offer))
      ensures Rings(old(Model()), ws, to, offer) ==>
                Ringing(old(Model()), Model(), ws, to, offer,
                        old(sockets)[ws].user.value + "-" + to + "-" + Decimal(now))
    {
      ghost var before := Model();
      CallingKeepsCalls(history, PlaceCall(ws, to, offer, now));
      RingsIff(before, ws, to, offer);
      if sockets[ws].user.None? {
        SendTo(ws, Error("Not authenticated"));
      } else if to == "" || offer == "" {
        SendTo(ws, Error("Missing to/offer"));
      } else if to == sockets[ws].user.value {
        SendTo(ws, Error("Cannot call yourself"));
      } else if to !in online {
        SendTo(ws, UserOffline(to));
      } else {
        var busyCheck := exists id :: id in calls && (calls[id].caller == to || calls[id].callee == to);
        if busyCheck {
          SendTo(ws, UserBusy(to));
        } else {
          CallIdIs(sockets[ws].user.value, to, now);
          SetUpCall(ws, to, offer, now);
        }
      }
      Record(before, PlaceCall(ws, to, offer, now));
    }

    /** The accepting end of the call handler. */
    method SetUpCall(ws: SocketId, to: UserId, offer: string, now: nat)
      requires Rings(Model(), ws, to, offer)
      modifies this`calls, this`sockets, this`sent
      ensures Ringing(old(Model()), Model(), ws, to, offer, CallId(old(sockets)[ws].user.value, to, now))
      ensures var me := old(sockets)[ws].user.value;
              Model() == Connected(old(Model()), ws, me, to, offer, CallId(me, to, now))
    {
      var me, target := sockets[ws].user.value, online[to];
      var callId := CallId(me, to, now);
      calls := calls[callId := Call(me, to)];
      sockets := sockets[ws := sockets[ws].(currentCall := Some(callId))];
      if target in sockets {
        sockets := sockets[target := sockets[target].(currentCall := Some(callId))];
      }
      SendTo(target, CallIncoming(me, offer, callId));
    }

    method OnAnswer(ws: SocketId, to: UserId, answer: string)
      requires Valid() && Legal(Model(), Answer(ws, to, answer))
      modifies this
      ensures Valid() && Forest(calls) && history == old(history) + [Answer(ws, to, answer)]
      ensures calls == old(calls) && sockets == old(sockets) && online == old(online)
      ensures sent == old(sent) +
                if sockets[ws].user.None? then Delivered(sockets, ws, Error("Not authenticated"))
                else if to == "" || answer == "" then Delivered(sockets, ws, Error("Missing to/answer"))
                else ToUser(sockets, online, to, CallAnswered(answer))
    {
      ghost var before := Model();
      if sockets[ws].user.None? {
        SendTo(ws, Error("Not authenticated"));
      } else if to == "" || answer == "" {
        SendTo(ws, Error("Missing to/answer"));
      } else if to in online {
        SendTo(online[to], CallAnswered(answer));
      }
      Record(before, Answer(ws, to, answer));
    }

    method OnIce(ws: SocketId, to: UserId, candidate: string)
      requires Valid() && Legal(Model(), Candidate(ws, to, candidate))
      modifies this
      ensures Valid() && Forest(calls) && history == old(history) + [Candidate(ws, to, candidate)]
      ensures calls == old(calls) && sockets == old(sockets) && online == old(online)
      ensures sent == old(sent) +
                match sockets[ws].user
                case None => Delivered(sockets, ws, Error("Not authenticated"))
                case Some(me) => if to == "" || candidate == "" then [] else ToUser(sockets, online, to, Ice(candidate, me))
    {
      ghost var before := Model();
      if sockets[ws].user.None? {
        SendTo(ws, Error("Not authenticated"));
      } else if to != "" && candidate != "" && to in online {
        SendTo(online[to], Ice(candidate, sockets[ws].user.value));
      }
      Record(before, Candidate(ws, to, candidate));
    }

    method OnDecline(ws: SocketId, to: UserId, reason: string)
      requires Valid() && Legal(Model(), Decline(ws, to, reason))
      modifies this
      ensures Valid() && Forest(calls) && history == old(history) + [Decline(ws, to, reason)]
      ensures EndsOnlyOwn(old(Model()), ws, calls) && online == old(online)
      ensures old(sockets)[ws].user.None? ==>
                && calls == old(calls) && sockets == old(sockets)
                && sent == old(sent) + Delivered(old(sockets), ws, Error("Not authenticated"))
      ensures old(sockets)[ws].user.Some? ==>
                && sockets == old(sockets)[ws := old(sockets)[ws].(currentCall := None)]
                && calls == CallsWithout(old(calls), old(sockets)[ws].currentCall)
                && sent == old(sent) + ToUser(old(sockets), old(online), to, CallDeclined(if reason == "" then "busy" else reason))
    {
      ghost var before := Model();
      EndsOwn(history, Decline(ws, to, reason));
      if sockets[ws].user.None? {
        SendTo(ws, Error("Not authenticated"));
        Record(before, Decline(ws, to, reason));
        return;
      }
      if to in online {
        SendTo(online[to], CallDeclined(if reason == "" then "busy" else reason));
      }
      EndOwnCall(ws);
      Record(before, Decline(ws, to, reason));
    }

    /** The clean-up that decline and hangup share. */
    method EndOwnCall(ws: SocketId)
      requires ws in sockets
      modifies this`sockets, this`calls
      ensures Model() == DropCurrent(old(Model()), ws)
      ensures sockets == old(sockets)[ws := old(sockets)[ws].(currentCall := None)]
      ensures calls == CallsWithout(old(calls), old(sockets)[ws].currentCall)
    {
      if sockets[ws].currentCall.Some? {
        calls := calls - {sockets[ws].currentCall.value};
        sockets := sockets[ws := sockets[ws].(currentCall := None)];
      }
    }

    /** The registered socket of the other user is told, and lets go of its call. */
    method ReleaseTarget(to: UserId)
      modifies this`sent, this`sockets
      ensures Model() == ReleasePeer(old(Model()), to)
      ensures sent == old(sent) + ToUser(old(sockets), online, to, Hangup) && sockets.Keys == old(sockets).Keys
      ensures forall x :: x in sockets ==>
                sockets[x] == if to in online && x == online[to] then old(sockets)[x].(currentCall := None)
                              else old(sockets)[x]
    {
      if to in online && online[to] in sockets {
        var target := online[to];
        SendTo(target, Hangup);
        sockets := sockets[target := sockets[target].(currentCall := None)];
      }
    }

    method OnHangup(ws: SocketId, to: UserId)
      requires Valid() && Legal(Model(), HangUp(ws, to))
      modifies this
      ensures Valid() && Forest(calls) && history == old(history) + [HangUp(ws, to)]
      ensures EndsOnlyOwn(old(Model()), ws, calls) && online == old(online)
      ensures old(sockets)[ws].user.None? ==>
                && calls == old(calls) && sockets == old(sockets)
                && sent == old(sent) + Delivered(old(sockets), ws, Error("Not authenticated"))
      ensures old(sockets)[ws].user.Some? ==>
                && sockets.Keys == old(sockets).Keys
                && (forall x :: x in sockets ==>
                      sockets[x] == if x == ws || (to in old(online) && x == old(online)[to])
                                    then old(sockets)[x].(currentCall := None) else old(sockets)[x])
                && calls == CallsWithout(old(calls),
                     if to in old(online) && old(online)[to] == ws then None else old(sockets)[ws].currentCall)
                && sent == old(sent) + ToUser(old(sockets), old(online), to, Hangup)
    {
      ghost var before := Model();
      EndsOwn(history, HangUp(ws, to));
      if sockets[ws].user.None? {
        SendTo(ws, Error("Not authenticated"));
        Record(before, HangUp(ws, to));
        return;
      }
      ReleaseTarget(to);
      EndOwnCall(ws);
      Record(before, HangUp(ws, to));
    }

    method OnPong(ws: SocketId)
      requires Valid() && Legal(Model(), Pong(ws))
      modifies this
      ensures Valid() && Forest(calls) && history == old(history) + [Pong(ws)]
      ensures sockets == old(sockets)[ws := old(sockets)[ws].(alive := true)]
      ensures online == old(online) && calls == old(calls) && sent == old(sent)
    {
      ghost var before := Model();
      sockets := sockets[ws := sockets[ws].(alive := true)];
      Record(before, Pong(ws));
    }

    /** The record of a call goes, if it is still there, and the other party is told. */
    method EndHeldCall(userId: UserId, callId: string)
      modifies this`sent, this`calls
      ensures callId !in old(calls) ==> sent == old(sent) && calls == old(calls)
      ensures callId in old(calls) ==>
                var peer := OtherParty(old(calls)[callId], userId);
                && Model() == SendToUser(old(Model()), peer, PeerDisconnected).(calls := old(calls) - {callId})
                && sent == old(sent) + ToUser(sockets, online, peer, PeerDisconnected)
      ensures calls == CallsWithout(old(calls), Some(callId))
    {
      if callId in calls {
        var call := calls[callId];
        var peerId := if call.caller == userId then call.callee else call.caller;
        if peerId in online {
          SendTo(online[peerId], PeerDisconnected);
        }
        calls := calls - {callId};
      }
    }

    method OnClose(ws: SocketId)
      requires Valid() && Legal(Model(), Close(ws))
      modifies this
      ensures Valid() && Forest(calls) && history == old(history) + [Close(ws)]
      ensures EndsOnlyOwn(old(Model()), ws, calls)
      ensures sockets == old(sockets) - {ws}
      ensures old(sockets)[ws].user.None? ==> online == old(online) && calls == old(calls) && sent == old(sent)
      ensures old(sockets)[ws].user.Some? ==>
                var me, held := old(sockets)[ws].user.value, old(sockets)[ws].currentCall;
                && online == old(online) - {me} && calls == CallsWithout(old(calls), held)
                && sent == old(sent) +
                     if held.None? || held.value !in old(calls) then []
                     else ToUser(sockets, online, OtherParty(old(calls)[held.value], me), PeerDisconnected)
    {
      ghost var before := Model();
      EndsOwn(history, Close(ws));
      var sock := sockets[ws];
      sockets := sockets - {ws};
      if sock.user.Some? {
        online := online - {sock.user.value};
        if sock.currentCall.Some? {
          EndHeldCall(sock.user.value, sock.currentCall.value);
        }
      }
      Record(before, Close(ws));
    }

    method ReapSocket(ws: SocketId)
      requires ws in sockets
      modifies this`sockets, this`online
      ensures Model() == ReapOne(old(Model()), ws)
    {
      if !sockets[ws].alive {
        if sockets[ws].user.Some? {
          online := online - {sockets[ws].user.value};
        }
        TerminateSocket(ws);
      } else {
        sockets := sockets[ws := sockets[ws].(alive := false)];
      }
    }

    /** The heartbeat interval visits the sockets one by one, in whatever order. */
    method OnHeartbeatInterval()
      requires Valid()
      modifies this
      ensures Valid() && Forest(calls) && history == old(history) + [Reap] && calls == old(calls)
      ensures sent == old(sent) && Beaten(old(Model()), Model())
    {
      ghost var before := Model();
      var todo := sockets.Keys;
      ghost var visited: set<SocketId> := {};
      ReapNone(before);
      while todo != {}
        invariant history == old(history)
        invariant todo !! visited && todo + visited == before.sockets.Keys
        invariant Model() == ReapThese(before, visited)
        decreases |todo|
      {
        var ws :| ws in todo;
        ReapOneMore(before, visited, ws);
        ReapSocket(ws);
        todo := todo - {ws};
        visited := visited + {ws};
      }
      assert visited == before.sockets.Keys;
      ReapAll(before);
      ReapIsBeat(before);
      Record(before, Reap);
    }
  }

  // ------------------------------------------------- the interval, part way through

  ghost function DeadAmong(st: State, visited: set<SocketId>): set<UserId> {
    set ws | ws in visited && ws in st.sockets && !st.sockets[ws].alive && st.sockets[ws].user.Some?
      :: st.sockets[ws].user.value
  }

  /** The state once the sockets in `visited` have been looked at. */
  ghost function ReapThese(st: State, visited: set<SocketId>): State {
    st.(sockets := map ws | ws in st.sockets ::
          if ws !in visited then st.sockets[ws]
          else if st.sockets[ws].alive then st.sockets[ws].(alive := false)
          else st.sockets[ws].(open := false),
        online := st.online - DeadAmong(st, visited))
  }

  ghost function ReapOne(st: State, ws: SocketId): State
    requires ws in st.sockets
  {
    var sock := st.sockets[ws];
    if sock.alive then SetSocket(st, ws, sock.(alive := false))
    else Terminate(if sock.user.Some? then st.(online := st.online - {sock.user.value}) else st, ws)
  }

  lemma ReapNone(st: State)
    ensures ReapThese(st, {}) == st
  {
    assert DeadAmong(st, {}) == {};
  }

  lemma ReapOneMore(st: State, visited: set<SocketId>, ws: SocketId)
    requires ws in st.sockets && ws !in visited
    ensures ReapThese(st, visited + {ws}) == ReapOne(ReapThese(st, visited), ws)
  {
    var sock := st.sockets[ws];
    if !sock.alive && sock.user.Some? {
      assert DeadAmong(st, visited + {ws}) == DeadAmong(st, visited) + {sock.user.value};
    } else {
      assert DeadAmong(st, visited + {ws}) == DeadAmong(st, visited);
    }
    assert ReapThese(st, visited + {ws}).sockets == ReapOne(ReapThese(st, visited), ws).sockets;
  }

  lemma ReapIsBeat(st: State)
    ensures Beaten(st, HandleReap(st))
  {
    assert forall u :: u in DeadUsers(st) <==> MissedPong(st.sockets, u);
  }

  lemma ReapAll(st: State)
    ensures ReapThese(st, st.sockets.Keys) == HandleReap(st)
  {
    assert DeadAmong(st, st.sockets.Keys) == DeadUsers(st);
  }
}
