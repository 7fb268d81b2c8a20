/** IceCandidateQueue of lib/services/rfc_webrtc.dart: remote candidates are buffered until
    the remote description is set and then handed over one by one, each awaited, while
    later candidates go straight through. */
module IceQueue {

  type Candidate = string

  /** A call of the peer connection's addCandidate, by the flush loop or directly. */
  datatype Handover = Handover(candidate: Candidate, flushed: bool)

  /** `flushing` holds, for every call of onRemoteDescriptionSet, the candidates its loop has
      yet to hand over. */
  datatype State = State(
    remoteSet: bool,
    buffered: seq<Candidate>,
    flushing: seq<seq<Candidate>>,
    handed: seq<Handover>)

  const Initial := State(false, [], [], [])

  /** The pieces between two awaits.  Resumed(i, threw): the await of flush loop i came back,
      normally or with the exception that _addSafe swallows. */
  datatype Event =
    | Add(candidate: Candidate)
    | RemoteDescriptionSet
    | Resumed(loop: nat, threw: bool)
    | Dispose

  function HandNext(st: State, i: nat): State
    requires i < |st.flushing|
  {
    if st.flushing[i] == [] then st
    else st.(handed := st.handed + [Handover(st.flushing[i][0], true)],
             flushing := st.flushing[i := st.flushing[i][1..]])
  }

  function Step(st: State, e: Event): State {
    match e
    case Add(c) =>
      if !st.remoteSet then st.(buffered := st.buffered + [c])
      else st.(handed := st.handed + [Handover(c, false)])
    case RemoteDescriptionSet =>
      HandNext(st.(remoteSet := true, buffered := [], flushing := st.flushing + [st.buffered]), |st.flushing|)
    case Resumed(i, threw) => if i < |st.flushing| then HandNext(st, i) else st
    case Dispose => st.(buffered := [])
  }

  function After(es: seq<Event>): State {
    if es == [] then Initial else Step(After(es[..|es| - 1]), es[|es| - 1])
  }

  // -------------------------------------------- what should happen, from the events alone

  predicate WasSet(es: seq<Event>) {
    es != [] && (es[|es| - 1].RemoteDescriptionSet? || WasSet(es[..|es| - 1]))
  }

  /** The candidates that arrived before, and after, the remote description. */
  function Early(es: seq<Event>): seq<Candidate> {
    if es == [] then []
    else
      var before, e := es[..|es| - 1], es[|es| - 1];
      if e.Add? && !WasSet(before) then Early(before) + [e.candidate] else Early(before)
  }

  function Late(es: seq<Event>): seq<Candidate> {
    if es == [] then []
    else
      var before, e := es[..|es| - 1], es[|es| - 1];
      if e.Add? && WasSet(before) then Late(before) + [e.candidate] else Late(before)
  }

  /** What the last dispose before the remote description threw away. */
  function Dropped(es: seq<Event>): seq<Candidate> {
    if es == [] then []
    else
      var before, e := es[..|es| - 1], es[|es| - 1];
      if e.Dispose? && !WasSet(before) then Early(before) else Dropped(before)
  }

  function Given(es: seq<Event>): seq<Candidate> {
    if es == [] then []
    else
      var before, e := es[..|es| - 1], es[|es| - 1];
      if e.Add? then Given(before) + [e.candidate] else Given(before)
  }

  function Handed(hs: seq<Handover>, flushed: bool): seq<Candidate> {
    if hs == [] then []
    else
      var before, h := hs[..|hs| - 1], hs[|hs| - 1];
      if h.flushed == flushed then Handed(before, flushed) + [h.candidate] else Handed(before, flushed)
  }

  // ------------------------------------------------------------------- the invariant

  /** Only the first flush loop can have anything to do. */
  function Pending(st: State): seq<Candidate> {
    if st.flushing == [] then [] else st.flushing[0]
  }

  ghost predicate Inv(st: State, es: seq<Event>) {
    && st.remoteSet == WasSet(es)
    && (!st.remoteSet ==> st.handed == [] && st.flushing == [])
    && (st.remoteSet ==> st.buffered == [] && st.flushing != [])
    && OnlyFirst(st)
    && Dropped(es) + (Handed(st.handed, true) + (Pending(st) + st.buffered)) == Early(es)
    && Handed(st.handed, false) == Late(es)
  }

  lemma HandedSnoc(hs: seq<Handover>, h: Handover, flushed: bool)
    ensures Handed(hs + [h], flushed)
         == if h.flushed == flushed then Handed(hs, flushed) + [h.candidate] else Handed(hs, flushed)
  {
    assert (hs + [h])[..|hs|] == hs;
  }

  lemma MoveFront(done: seq<Candidate>, todo: seq<Candidate>)
    requires todo != []
    ensures (done + [todo[0]]) + todo[1..] == done + todo
  {
    assert [todo[0]] + todo[1..] == todo;
  }

  ghost predicate OnlyFirst(st: State) {
    forall k :: 1 <= k < |st.flushing| ==> st.flushing[k] == []
  }

  lemma HandNextKeepsRest(st: State, i: nat)
    requires i < |st.flushing| && OnlyFirst(st)
    ensures |HandNext(st, i).flushing| == |st.flushing| && OnlyFirst(HandNext(st, i))
    ensures HandNext(st, i).remoteSet == st.remoteSet && HandNext(st, i).buffered == st.buffered
  {
  }

  lemma HandNextKeeps(st: State, i: nat)
    requires i < |st.flushing| && OnlyFirst(st)
    ensures var st' := HandNext(st, i);
            Handed(st'.handed, true) + Pending(st') == Handed(st.handed, true) + Pending(st) &&
            Handed(st'.handed, false) == Handed(st.handed, false)
  {
    if st.flushing[i] != [] {
      var todo := st.flushing[0];
      HandedSnoc(st.handed, Handover(todo[0], true), true);
      HandedSnoc(st.handed, Handover(todo[0], true), false);
      MoveFront(Handed(st.handed, true), todo);
    }
  }

  lemma Balance(dropped: seq<Candidate>, h: seq<Candidate>, p: seq<Candidate>, h': seq<Candidate>, p': seq<Candidate>)
    requires h' + p' == h + p
    ensures dropped + (h' + (p' + [])) == dropped + (h + p)
  {
    assert p' + [] == p';
  }

  lemma InvHand(st: State, st': State, es: seq<Event>, es': seq<Event>)
    requires Inv(st, es) && st.remoteSet && st'.remoteSet && WasSet(es')
    requires st'.buffered == [] && st'.flushing != [] && OnlyFirst(st')
    requires Handed(st'.handed, true) + Pending(st') == Handed(st.handed, true) + Pending(st)
    requires Handed(st'.handed, false) == Late(es')
    requires Dropped(es') == Dropped(es) && Early(es') == Early(es)
    ensures Inv(st', es')
  {
    Balance(Dropped(es), Handed(st.handed, true), Pending(st), Handed(st'.handed, true), Pending(st'));
    assert Pending(st) + [] == Pending(st);
  }

  /** A new flush loop takes over the whole buffer. */
  function WithLoop(st: State): State {
    st.(remoteSet := true, buffered := [], flushing := st.flushing + [st.buffered])
  }

  lemma PendingWithLoop(st: State, es: seq<Event>)
    requires Inv(st, es)
    ensures Pending(WithLoop(st)) == Pending(st) + st.buffered && OnlyFirst(WithLoop(st))
  {
    if st.remoteSet {
      assert Pending(st) + [] == Pending(st);
    } else {
      assert [] + st.buffered == st.buffered;
    }
  }

  lemma EventsWithSet(es: seq<Event>)
    ensures var es' := es + [RemoteDescriptionSet];
            WasSet(es') && Dropped(es') == Dropped(es) && Early(es') == Early(es) && Late(es') == Late(es)
  {
    assert (es + [RemoteDescriptionSet])[..|es|] == es;
  }

  lemma {:induction false} InvSet(st: State, es: seq<Event>)
    requires Inv(st, es)
    ensures Inv(Step(st, RemoteDescriptionSet), es + [RemoteDescriptionSet])
  {
    var mid, i := WithLoop(st), |st.flushing|;
    var st' := HandNext(mid, i);
    EventsWithSet(es);
    PendingWithLoop(st, es);
    HandNextKeeps(mid, i);
    HandNextKeepsRest(mid, i);
    Balance(Dropped(es), Handed(st.handed, true), Pending(st) + st.buffered, Handed(st'.handed, true), Pending(st'));
  }

  lemma {:induction false} InvAdd(st: State, es: seq<Event>, c: Candidate)
    requires Inv(st, es)
    ensures Inv(Step(st, Add(c)), es + [Add(c)])
  {
    assert (es + [Add(c)])[..|es|] == es;
    HandedSnoc(st.handed, Handover(c, false), false);
    HandedSnoc(st.handed, Handover(c, false), true);
    if st.remoteSet {
      InvHand(st, Step(st, Add(c)), es, es + [Add(c)]);
    } else {
      assert Dropped(es) + ([] + ([] + (st.buffered + [c]))) == Dropped(es) + ([] + ([] + st.buffered)) + [c];
    }
  }

  lemma {:induction false} InvStep(st: State, es: seq<Event>, e: Event)
    requires Inv(st, es)
    ensures Inv(Step(st, e), es + [e])
  {
    assert (es + [e])[..|es|] == es;
    match e
    case Add(c) => InvAdd(st, es, c);
    case RemoteDescriptionSet => InvSet(st, es);
    case Resumed(i, threw) =>
      if i < |st.flushing| {
        HandNextKeeps(st, i);
        HandNextKeepsRest(st, i);
        InvHand(st, Step(st, e), es, es + [e]);
      }
    case Dispose =>
      assert Early(es) + ([] + ([] + [])) == Early(es);
  }

  lemma {:induction false} InvRun(es: seq<Event>)
    ensures Inv(After(es), es)
  {
    if es != [] {
      InvRun(es[..|es| - 1]);
      InvStep(After(es[..|es| - 1]), es[..|es| - 1], es[|es| - 1]);
      assert es[..|es| - 1] + [es[|es| - 1]] == es;
    }
  }

  // ------------------------------------------------------------------------ the claims

  /** The remote description is set and every flush loop has run to its end. */
  predicate Completed(st: State) {
    st.remoteSet && forall i :: 0 <= i < |st.flushing| ==> st.flushing[i] == []
  }

  lemma NothingBeforeRemoteDescription(es: seq<Event>)
    ensures !WasSet(es) ==> After(es).handed == []
    ensures WasSet(es) ==> After(es).buffered == []
  {
    InvRun(es);
  }

  /** At any time the flushed candidates are the early ones that were not disposed of, in
      arrival order, as far as the loop has got; the direct ones are the late ones. */
  lemma HandedInArrivalOrder(es: seq<Event>)
    ensures Dropped(es) + Handed(After(es).handed, true) <= Early(es)
    ensures Handed(After(es).handed, false) == Late(es)
  {
    InvRun(es);
    var st := After(es);
    assert Dropped(es) + (Handed(st.handed, true) + (Pending(st) + st.buffered))
        == Dropped(es) + Handed(st.handed, true) + (Pending(st) + st.buffered);
  }

  function Candidates(hs: seq<Handover>): (r: seq<Candidate>)
    ensures |r| == |hs|
  {
    seq(|hs|, i requires 0 <= i < |hs| => hs[i].candidate)
  }

  lemma {:induction false} HandedSplits(hs: seq<Handover>)
    ensures multiset(Candidates(hs)) == multiset(Handed(hs, true)) + multiset(Handed(hs, false))
  {
    if hs == [] {
      assert Candidates(hs) == [];
    } else {
      var before, h := hs[..|hs| - 1], hs[|hs| - 1];
      HandedSplits(before);
      assert Candidates(hs) == Candidates(before) + [h.candidate];
    }
  }

  lemma {:induction false} GivenSplits(es: seq<Event>)
    ensures multiset(Given(es)) == multiset(Early(es)) + multiset(Late(es))
  {
    if es != [] {
      GivenSplits(es[..|es| - 1]);
    }
  }

  lemma CompletedFlush(es: seq<Event>)
    requires Completed(After(es))
    ensures Dropped(es) + Handed(After(es).handed, true) == Early(es)
  {
    InvRun(es);
    var done := Handed(After(es).handed, true);
    assert done + ([] + []) == done;
  }

  /** In a completed run every candidate ever given has been handed over exactly once if and
      only if no dispose came between an early candidate and the remote description. */
  lemma ExactlyOnceIffNothingDropped(es: seq<Event>)
    requires Completed(After(es))
    ensures multiset(Candidates(After(es).handed)) == multiset(Given(es)) <==> Dropped(es) == []
  {
    CompletedFlush(es);
    InvRun(es);
    HandedSplits(After(es).handed);
    GivenSplits(es);
    var done := Handed(After(es).handed, true);
    assert multiset(Dropped(es) + done) == multiset(Dropped(es)) + multiset(done);
    if Dropped(es) != [] {
      assert Dropped(es)[0] in multiset(Dropped(es));
    }
  }

  lemma {:induction false} NoDisposeDropsNothing(es: seq<Event>)
    requires forall i :: 0 <= i < |es| ==> !es[i].Dispose?
    ensures Dropped(es) == []
  {
    if es != [] {
      NoDisposeDropsNothing(es[..|es| - 1]);
    }
  }

  // ------------------------------------------------------------------ the loop advances

  /** How often the await of the first flush loop has come back, or thrown. */
  function Resumptions(es: seq<Event>): nat {
    if es == [] then 0
    else
      var before, e := es[..|es| - 1], es[|es| - 1];
      Resumptions(before) + if WasSet(before) && e.Resumed? && e.loop == 0 then 1 else 0
  }

  /** How many of `n` candidates are left after one at the start and one at each return. */
  function LeftOf(n: int, resumptions: nat): int {
    if n <= resumptions + 1 then 0 else n - 1 - resumptions
  }

  lemma {:induction false} NotResumedBefore(es: seq<Event>)
    requires !WasSet(es)
    ensures Resumptions(es) == 0
  {
    if es != [] {
      NotResumedBefore(es[..|es| - 1]);
    }
  }

  lemma LengthsAddUp(d: seq<Candidate>, h: seq<Candidate>, p: seq<Candidate>, b: seq<Candidate>, all: seq<Candidate>)
    requires d + (h + (p + b)) == all
    ensures |d| + |h| + |p| + |b| == |all|
  {
  }

  lemma PendingAfterStep(st: State, es: seq<Event>, e: Event)
    requires Inv(st, es) && WasSet(es)
    ensures |Pending(Step(st, e))| ==
            if e.Resumed? && e.loop == 0 && Pending(st) != [] then |Pending(st)| - 1 else |Pending(st)|
  {
  }

  lemma PendingAfterSet(st: State, es: seq<Event>)
    requires Inv(st, es) && !WasSet(es)
    ensures |Pending(Step(st, RemoteDescriptionSet))| == if st.buffered == [] then 0 else |st.buffered| - 1
  {
  }

  lemma {:induction false} PendingIs(es: seq<Event>)
    requires WasSet(es)
    ensures |Pending(After(es))| == LeftOf(|Early(es)| - |Dropped(es)|, Resumptions(es))
  {
    var before, e := es[..|es| - 1], es[|es| - 1];
    var st := After(before);
    InvRun(before);
    if WasSet(before) {
      PendingIs(before);
      PendingAfterStep(st, before, e);
    } else {
      NotResumedBefore(before);
      PendingAfterSet(st, before);
      LengthsAddUp(Dropped(before), [], [], st.buffered, Early(before));
    }
  }

  /** Every return of an await advances the flush, whatever it threw: one candidate has been
      handed over at the start and one at each return, until none is left. */
  lemma FlushAdvances(es: seq<Event>)
    requires WasSet(es)
    ensures var kept := |Early(es)| - |Dropped(es)|;
            |Handed(After(es).handed, true)| == if kept <= 1 + Resumptions(es) then kept else 1 + Resumptions(es)
  {
    InvRun(es);
    PendingIs(es);
    var st := After(es);
    LengthsAddUp(Dropped(es), Handed(st.handed, true), Pending(st), [], Early(es));
  }

  /** So a run has completed if and only if the remote description was set and the await of its
      loop has come back once for each early candidate that was kept, but one. */
  lemma CompletedIff(es: seq<Event>)
    ensures Completed(After(es)) <==> WasSet(es) && Resumptions(es) + 1 >= |Early(es)| - |Dropped(es)|
  {
    InvRun(es);
    var st := After(es);
    if WasSet(es) {
      PendingIs(es);
      assert Completed(st) <==> Pending(st) == [];
    }
  }

  // ------------------------------------------------------------------------- the class

  /** What callers may rely on: nothing is handed over too early, nothing is left in the buffer
      afterwards, and what has been handed over came in order. */
  ghost predicate Promise(st: State, es: seq<Event>) {
    && (!WasSet(es) ==> st.handed == [])
    && (WasSet(es) ==> st.buffered == [])
    && Dropped(es) + Handed(st.handed, true) <= Early(es)
    && Handed(st.handed, false) == Late(es)
  }

  class IceCandidateQueue {
    var remoteDescriptionSet: bool
    var buffered: seq<Candidate>
    var flushing: seq<seq<Candidate>>
    var handed: seq<Handover>
    ghost var history: seq<Event>

    ghost predicate Valid()
      reads this
    {
      Model() == After(history)
    }

    function Model(): State
      reads this
    {
      State(remoteDescriptionSet, buffered, flushing, handed)
    }

    constructor ()
      ensures Valid() && history == []
    {
      remoteDescriptionSet, buffered, flushing, handed, history := false, [], [], [], [];
    }

    /** The piece just run is added to the history: the promise holds on. */
    ghost method Record(before: State, e: Event)
      requires before == After(history) && Model() == Step(before, e)
      modifies this`history
      ensures Valid() && history == old(history) + [e] && Promise(Model(), history)
    {
      assert (history + [e])[..|history|] == history;
      history := history + [e];
      NothingBeforeRemoteDescription(history);
      HandedInArrivalOrder(history);
    }

    /** onRemoteDescriptionSet up to its first await. */
    method OnRemoteDescriptionSet()
      requires Valid()
      modifies this
      ensures Valid() && history == old(history) + [RemoteDescriptionSet] && Promise(Model(), history)
      ensures remoteDescriptionSet && buffered == []
      ensures if old(buffered) == [] then handed == old(handed) && flushing == old(flushing) + [[]]
              else handed == old(handed) + [Handover(old(buffered)[0], true)] &&
                   flushing == old(flushing) + [old(buffered)[1..]]
    {
      ghost var before := Model();
      remoteDescriptionSet := true;
      var pending := buffered;
      buffered := [];
      flushing := flushing + [pending];
      FlushOne(|flushing| - 1);
      Record(before, RemoteDescriptionSet);
    }

    /** One turn of the flush loop: call _addSafe and suspend. */
    method FlushOne(i: nat)
      requires i < |flushing|
      modifies this`flushing, this`handed
      ensures Model() == HandNext(old(Model()), i)
      ensures if old(flushing)[i] == [] then handed == old(handed) && flushing == old(flushing)
              else handed == old(handed) + [Handover(old(flushing)[i][0], true)] &&
                   flushing == old(flushing)[i := old(flushing)[i][1..]]
    {
      if flushing[i] != [] {
        handed := handed + [Handover(flushing[i][0], true)];
        flushing := flushing[i := flushing[i][1..]];
      }
    }

    /** The await of flush loop i came back, or threw and was swallowed: in both cases the loop
        goes on to its next candidate. */
    method OnResumed(i: nat, threw: bool)
      requires Valid() && i < |flushing|
      modifies this
      ensures Valid() && history == old(history) + [Resumed(i, threw)] && Promise(Model(), history)
      ensures if old(flushing)[i] == [] then handed == old(handed) && flushing == old(flushing)
              else handed == old(handed) + [Handover(old(flushing)[i][0], true)] &&
                   flushing == old(flushing)[i := old(flushing)[i][1..]]
      ensures remoteDescriptionSet == old(remoteDescriptionSet) && buffered == old(buffered)
    {
      ghost var before := Model();
      FlushOne(i);
      Record(before, Resumed(i, threw));
    }

    method AddCandidate(candidate: Candidate)
      requires Valid()
      modifies this
      ensures Valid() && history == old(history) + [Add(candidate)] && Promise(Model(), history)
      ensures if old(remoteDescriptionSet) then buffered == old(buffered) && handed == old(handed) + [Handover(candidate, false)]
              else buffered == old(buffered) + [candidate] && handed == old(handed)
      ensures remoteDescriptionSet == old(remoteDescriptionSet) && flushing == old(flushing)
    {
      ghost var before := Model();
      if !remoteDescriptionSet {
        buffered := buffered + [candidate];
      } else {
        handed := handed + [Handover(candidate, false)];
      }
      Record(before, Add(candidate));
    }

    method DisposeQueue()
      requires Valid()
      modifies this
      ensures Valid() && history == old(history) + [Dispose] && Promise(Model(), history)
      ensures buffered == [] && handed == old(handed) && flushing == old(flushing)
      ensures remoteDescriptionSet == old(remoteDescriptionSet)
    {
      ghost var before := Model();
      buffered := [];
      Record(before, Dispose);
    }
  }
}
