/**
 * When overlapping Ingests leave the groups that were published last in agreement with the stored checksum, and runs
 * of Ingests that do not overlap.
 */
module IngestAgreement {
  import opened Ordering
  import opened Wrappers
  import opened FileIngesting
  import opened IngestProtocol

  /** The groups published last are of a read with the stored checksum. */
  ghost predicate Agrees(s: State, sum: Checksummer) {
    s.dispatched != [] && sum(s.dispatched[|s.dispatched| - 1].z.bytes) == s.st.checksum
  }

  /** The calls that have written their checksum and are about to publish their groups. */
  ghost function Pending(s: State): set<Tid> {
    set t | t in s.ops && s.ops[t].Dispatching?
  }

  function Advances(order: seq<Tid>): seq<Action> {
    seq(|order|, i requires 0 <= i < |order| => Advance(order[i]))
  }

  /** An order in which all of them may go on to publish. */
  ghost predicate Finishes(s: State, order: seq<Tid>) {
    NoDup(order) && Elems(order) == Pending(s)
  }

  lemma {:induction false} AfterSome(s: State, sum: Checksummer, order: seq<Tid>)
    requires NoDup(order) && Elems(order) <= Pending(s)
    ensures var s' := Run(s, sum, Advances(order));
      && s'.st == s.st && Pending(s') == Pending(s) - Elems(order)
      && (forall t :: t in Pending(s') ==> s'.ops[t] == s.ops[t])
      && |s'.dispatched| == |s.dispatched| + |order|
      && (order != [] ==>
            order[|order| - 1] in Pending(s) && s'.dispatched[|s'.dispatched| - 1].z == s.ops[order[|order| - 1]].z)
  {
    if order != [] {
      var last := |order| - 1;
      var front, t := order[..last], order[last];
      assert Elems(order) == Elems(front) + {t};
      assert t in Elems(order);
      AfterSome(s, sum, front);
      assert Advances(order)[..last] == Advances(front);
      var s1 := Run(s, sum, Advances(front));
      assert t !in Elems(front) && t in Pending(s1);
      AfterOne(s1, sum, t);
      assert Run(s, sum, Advances(order)) == Step(s1, sum, Advance(t));
      assert Pending(s) - Elems(order) == Pending(s1) - {t};
    }
  }

  lemma AfterOne(s: State, sum: Checksummer, t: Tid)
    requires t in Pending(s)
    ensures var s' := Step(s, sum, Advance(t));
      && s'.st == s.st && s'.writes == s.writes && Pending(s') == Pending(s) - {t}
      && (forall u :: u in Pending(s') ==> s'.ops[u] == s.ops[u])
      && |s'.dispatched| == |s.dispatched| + 1 && s'.dispatched[|s.dispatched|].z == s.ops[t].z
  {
  }

  /** Any of the pending calls may be the last. */
  lemma OrderEndingWith(s: State, t: Tid) returns (order: seq<Tid>)
    requires t in Pending(s)
    ensures Finishes(s, order) && order != [] && order[|order| - 1] == t
  {
    var others := Listed(Pending(s) - {t});
    order := others + [t];
    assert Elems(order) == Elems(others) + {t};
    assert forall i :: 0 <= i < |others| ==> others[i] in Elems(others);
  }

  lemma {:induction false} Listed(s: set<Tid>) returns (order: seq<Tid>)
    ensures NoDup(order) && Elems(order) == s
  {
    order := [];
    if s != {} {
      var t :| t in s;
      var others := Listed(s - {t});
      order := others + [t];
      assert Elems(order) == Elems(others) + {t};
      assert forall i :: 0 <= i < |others| ==> others[i] in Elems(others);
    }
  }

  lemma NoElems<T>(xs: seq<T>)
    ensures Elems(xs) == {} <==> xs == []
  {
    if xs != [] {
      assert xs[0] in Elems(xs);
    }
  }

  /** In whatever order the pending calls publish. */
  ghost predicate AgreesAnyhow(s: State, sum: Checksummer) {
    forall order: seq<Tid> :: Finishes(s, order) ==> Agrees(Run(s, sum, Advances(order)), sum)
  }

  ghost predicate PendingAreCurrent(s: State, sum: Checksummer) {
    forall t :: t in Pending(s) ==> sum(s.ops[t].z.bytes) == s.st.checksum
  }

  /** Of the pending calls any may publish last, so all of them must have the stored checksum. */
  lemma AgreesAnyhowIff(s: State, sum: Checksummer)
    requires Pending(s) != {}
    ensures AgreesAnyhow(s, sum) <==> PendingAreCurrent(s, sum)
  {
    if AgreesAnyhow(s, sum) {
      forall t | t in Pending(s) ensures sum(s.ops[t].z.bytes) == s.st.checksum {
        var order := OrderEndingWith(s, t);
        AfterSome(s, sum, order);
      }
    }
    if PendingAreCurrent(s, sum) {
      forall order: seq<Tid> | Finishes(s, order) ensures Agrees(Run(s, sum, Advances(order)), sum) {
        AfterSome(s, sum, order);
        NoElems(order);
      }
    }
  }

  // ---- whole runs

  ghost function Before(sum: Checksummer, actions: seq<Action>, n: nat): State
    requires n <= |actions|
  {
    Run(INITIAL, sum, actions[..n])
  }

  ghost predicate Writes(s: State, sum: Checksummer, a: Action) { |Step(s, sum, a).writes| > |s.writes| }

  /** Whatever the moment at which no further call goes on, groups and checksum come to agree. */
  ghost predicate AlwaysAgrees(sum: Checksummer, actions: seq<Action>) {
    forall n :: 0 <= n <= |actions| && Before(sum, actions, n).writes != [] ==>
        AgreesAnyhow(Before(sum, actions, n), sum)
  }

  /** No checksum is written while a call with another one has still to publish. */
  ghost predicate WritesFindNoOther(sum: Checksummer, actions: seq<Action>) {
    forall n :: 0 <= n < |actions| && Writes(Before(sum, actions, n), sum, actions[n]) ==>
      OthersAgree(Before(sum, actions, n), sum, Step(Before(sum, actions, n), sum, actions[n]).st.checksum)
  }

  ghost predicate OthersAgree(s: State, sum: Checksummer, value: nat) {
    forall t :: t in Pending(s) ==> sum(s.ops[t].z.bytes) == value
  }

  ghost predicate InStep(s: State, sum: Checksummer) {
    && PendingAreCurrent(s, sum)
    && (Pending(s) == {} && s.writes != [] ==> Agrees(s, sum))
  }

  lemma InStepAgrees(s: State, sum: Checksummer)
    requires InStep(s, sum) && s.writes != []
    ensures AgreesAnyhow(s, sum)
  {
    if Pending(s) == {} {
      forall order: seq<Tid> | Finishes(s, order) ensures Agrees(Run(s, sum, Advances(order)), sum) {
        NoElems(order);
      }
    } else {
      AgreesAnyhowIff(s, sum);
    }
  }

  /** A step that writes makes one more call pending. */
  lemma WriteMakesPending(s: State, sum: Checksummer, a: Action)
    requires Inv(s, sum) && Writes(s, sum, a)
    ensures var s' := Step(s, sum, a);
      && a.Advance? && a.t !in Pending(s) && Pending(s') == Pending(s) + {a.t}
      && sum(s'.ops[a.t].z.bytes) == s'.st.checksum
      && forall t :: t in Pending(s) ==> s'.ops[t] == s.ops[t]
  {
  }

  /** Any other step leaves the checksum alone, and at most publishes for one pending call. */
  lemma OtherStep(s: State, sum: Checksummer, a: Action)
    requires !Writes(s, sum, a) && !(a.Advance? && a.t in Pending(s))
    ensures var s' := Step(s, sum, a);
      && s'.st.checksum == s.st.checksum && s'.writes == s.writes && s'.dispatched == s.dispatched
      && Pending(s') == Pending(s) && forall t :: t in Pending(s) ==> s'.ops[t] == s.ops[t]
  {
  }

  lemma StaysInStep(s: State, sum: Checksummer, a: Action)
    requires Inv(s, sum) && InStep(s, sum)
    requires Writes(s, sum, a) ==> OthersAgree(s, sum, Step(s, sum, a).st.checksum)
    ensures InStep(Step(s, sum, a), sum)
  {
    if Writes(s, sum, a) {
      WriteMakesPending(s, sum, a);
    } else if a.Advance? && a.t in Pending(s) {
      AfterOne(s, sum, a.t);
    } else {
      OtherStep(s, sum, a);
    }
  }

  lemma BeforeNext(sum: Checksummer, actions: seq<Action>, n: nat)
    requires n < |actions|
    ensures Before(sum, actions, n + 1) == Step(Before(sum, actions, n), sum, actions[n])
  {
    assert actions[..n + 1][..n] == actions[..n];
  }

  lemma {:induction false} InStepUpTo(sum: Checksummer, actions: seq<Action>, n: nat)
    requires n <= |actions| && WritesFindNoOther(sum, actions)
    ensures InStep(Before(sum, actions, n), sum)
  {
    if n > 0 {
      InStepUpTo(sum, actions, n - 1);
      RunKeepsInv(sum, actions[..n - 1]);
      BeforeNext(sum, actions, n - 1);
      StaysInStep(Before(sum, actions, n - 1), sum, actions[n - 1]);
    }
  }

  /** A run is safe from publishing stale groups last exactly if no checksum is written over one still to be
      published. */
  lemma AlwaysAgreesIff(sum: Checksummer, actions: seq<Action>)
    ensures AlwaysAgrees(sum, actions) <==> WritesFindNoOther(sum, actions)
  {
    if WritesFindNoOther(sum, actions) {
      forall n | 0 <= n <= |actions| && Before(sum, actions, n).writes != []
          ensures AgreesAnyhow(Before(sum, actions, n), sum) {
        InStepUpTo(sum, actions, n);
        InStepAgrees(Before(sum, actions, n), sum);
      }
    }
    if AlwaysAgrees(sum, actions) {
      forall n | 0 <= n < |actions| && Writes(Before(sum, actions, n), sum, actions[n])
        ensures OthersAgree(Before(sum, actions, n), sum, Step(Before(sum, actions, n), sum, actions[n]).st.checksum)
      {
        var s := Before(sum, actions, n);
        RunKeepsInv(sum, actions[..n]);
        BeforeNext(sum, actions, n);
        WriteMakesPending(s, sum, actions[n]);
        assert AgreesAnyhow(Before(sum, actions, n + 1), sum);
        AgreesAnyhowIff(Before(sum, actions, n + 1), sum);
      }
    }
  }

  /** In particular: if no write lands while another call is about to publish, then whenever none is, both agree. */
  lemma SeparateWritesAgree(sum: Checksummer, actions: seq<Action>)
    requires forall n :: 0 <= n < |actions| && Writes(Before(sum, actions, n), sum, actions[n]) ==>
      Pending(Before(sum, actions, n)) == {}
    ensures var s := Run(INITIAL, sum, actions); Pending(s) == {} && s.writes != [] ==> Agrees(s, sum)
  {
    assert WritesFindNoOther(sum, actions);
    InStepUpTo(sum, actions, |actions|);
    assert actions[..|actions|] == actions;
  }

  // ---- reads that are lost

  /** A call that found its read changed, but whose compare-and-swap would now find a third checksum. */
  ghost predicate AtRisk(s: State, sum: Checksummer, t: Tid) {
    OpOf(s, t).Changed? && s.st.checksum != OpOf(s, t).loaded && s.st.checksum != sum(OpOf(s, t).z.bytes)
  }

  /** Its read is dropped. */
  ghost predicate Loses(s: State, sum: Checksummer, a: Action) { a.Advance? && AtRisk(s, sum, a.t) }

  ghost predicate NoneAtRisk(s: State, sum: Checksummer) { forall t :: t in s.ops ==> !AtRisk(s, sum, t) }

  ghost predicate NeverAtRisk(sum: Checksummer, actions: seq<Action>) {
    forall n :: 0 <= n <= |actions| ==> NoneAtRisk(Before(sum, actions, n), sum)
  }

  /** What is written is what the calls about to swap loaded, or are to write; whoever joins them finds what it
      loaded. */
  ghost predicate PutsNoneAtRisk(s: State, sum: Checksummer, a: Action) {
    && (Writes(s, sum, a) ==>
          forall t :: t in s.ops && t != a.t && s.ops[t].Changed? ==>
            Step(s, sum, a).st.checksum in {s.ops[t].loaded, sum(s.ops[t].z.bytes)})
    && (a.Advance? && OpOf(s, a.t).NotFirst? && s.st.checksum != sum(OpOf(s, a.t).z.bytes) ==>
          s.st.checksum == OpOf(s, a.t).loaded)
  }

  lemma WritersAdvance(s: State, sum: Checksummer, a: Action)
    requires Writes(s, sum, a)
    ensures a.Advance? && a.t in s.ops && Step(s, sum, a).ops[a.t].Dispatching?
    ensures forall t :: t in s.ops && t != a.t ==> Step(s, sum, a).ops[t] == s.ops[t]
    ensures Step(s, sum, a).ops.Keys == s.ops.Keys
  {
  }

  lemma RiskStep(s: State, sum: Checksummer, a: Action)
    requires NoneAtRisk(s, sum)
    ensures NoneAtRisk(Step(s, sum, a), sum) <==> PutsNoneAtRisk(s, sum, a)
  {
    var s' := Step(s, sum, a);
    if Writes(s, sum, a) {
      WritersAdvance(s, sum, a);
      assert forall t :: t in s.ops && t != a.t ==> OpOf(s', t) == s.ops[t];
    } else {
      assert s'.st.checksum == s.st.checksum;
      assert forall t :: t in s.ops && t != a.t ==> t in s'.ops && OpOf(s', t) == OpOf(s, t);
      assert OpOf(s', a.t).Changed? && !OpOf(s, a.t).Changed? ==> a.Advance? && OpOf(s, a.t).NotFirst?;
    }
  }

  lemma {:induction false} NoneAtRiskUpTo(sum: Checksummer, actions: seq<Action>, n: nat)
    requires n <= |actions|
    requires forall m :: 0 <= m < |actions| ==> PutsNoneAtRisk(Before(sum, actions, m), sum, actions[m])
    ensures NoneAtRisk(Before(sum, actions, n), sum)
  {
    if n > 0 {
      NoneAtRiskUpTo(sum, actions, n - 1);
      BeforeNext(sum, actions, n - 1);
      RiskStep(Before(sum, actions, n - 1), sum, actions[n - 1]);
    }
  }

  /** There is at no time a call that would lose its read exactly if no step puts one at risk. */
  lemma NeverAtRiskIff(sum: Checksummer, actions: seq<Action>)
    ensures NeverAtRisk(sum, actions) <==>
      forall n :: 0 <= n < |actions| ==> PutsNoneAtRisk(Before(sum, actions, n), sum, actions[n])
  {
    if NeverAtRisk(sum, actions) {
      forall n | 0 <= n < |actions| ensures PutsNoneAtRisk(Before(sum, actions, n), sum, actions[n]) {
        assert NoneAtRisk(Before(sum, actions, n), sum) && NoneAtRisk(Before(sum, actions, n + 1), sum);
        BeforeNext(sum, actions, n);
        RiskStep(Before(sum, actions, n), sum, actions[n]);
      }
    }
    if forall n :: 0 <= n < |actions| ==> PutsNoneAtRisk(Before(sum, actions, n), sum, actions[n]) {
      forall n | 0 <= n <= |actions| ensures NoneAtRisk(Before(sum, actions, n), sum) {
        NoneAtRiskUpTo(sum, actions, n);
      }
    }
  }

  predicate Underway(op: Op) { op.Loaded? || op.Succeeded? || op.NotFirst? || op.Changed? }

  /** Whoever writes a checksum is the only call that has loaded one and not come to a decision. */
  ghost predicate WritesFindNoneUnderway(sum: Checksummer, actions: seq<Action>) {
    forall n :: 0 <= n < |actions| && Writes(Before(sum, actions, n), sum, actions[n]) ==>
      OnlyUnderway(Before(sum, actions, n), actions[n])
  }

  ghost predicate OnlyUnderway(s: State, a: Action) {
    forall t :: t in s.ops && Underway(s.ops[t]) ==> a.Advance? && t == a.t
  }

  ghost predicate Fresh(s: State) {
    forall t :: t in s.ops && Underway(s.ops[t]) ==> s.ops[t].loaded == s.st.checksum
  }

  lemma StaysFresh(s: State, sum: Checksummer, a: Action)
    requires Fresh(s) && (Writes(s, sum, a) ==> OnlyUnderway(s, a))
    ensures Fresh(Step(s, sum, a)) && !Loses(s, sum, a)
  {
    if a.Advance? && a.t in s.ops && Underway(s.ops[a.t]) {
      assert s.ops[a.t].loaded == s.st.checksum;
    }
  }

  lemma {:induction false} FreshUpTo(sum: Checksummer, actions: seq<Action>, n: nat)
    requires n <= |actions| && WritesFindNoneUnderway(sum, actions)
    ensures Fresh(Before(sum, actions, n))
  {
    if n > 0 {
      FreshUpTo(sum, actions, n - 1);
      BeforeNext(sum, actions, n - 1);
      StaysFresh(Before(sum, actions, n - 1), sum, actions[n - 1]);
    }
  }

  /** No changed read is lost in a run in which no checksum is written while another call is underway. */
  lemma NoneLost(sum: Checksummer, actions: seq<Action>)
    requires WritesFindNoneUnderway(sum, actions)
    ensures forall n :: 0 <= n < |actions| ==> !Loses(Before(sum, actions, n), sum, actions[n])
  {
    forall n | 0 <= n < |actions| ensures !Loses(Before(sum, actions, n), sum, actions[n]) {
      FreshUpTo(sum, actions, n);
      StaysFresh(Before(sum, actions, n), sum, actions[n]);
    }
  }

  /** Otherwise the newer of two reads may be, until the files are read again. */
  lemma NewerReadIsLost(s: State, sum: Checksummer, t: Tid, u: Tid, z: ZoneRead, newer: ZoneRead)
    requires t != u && OpOf(s, t).Idle? && OpOf(s, u).Idle? && s.st.first
    requires s.st.checksum != sum(z.bytes) && sum(z.bytes) != sum(newer.bytes)
    ensures exists actions :: var s' := Run(s, sum, actions);
      && OpOf(s', t).Idle? && OpOf(s', u).Idle?
      && s'.completed == s.completed + [z, newer] && s'.st.checksum == sum(z.bytes)
      && s'.dispatched == s.dispatched + [Dispatch(z, |s.writes|)]
  {
    var a, b := Advance(t), Advance(u);
    BothRead(s, sum, t, u, z, newer);
    var begun := [Call(t), Call(u), Read(t, Some(z)), Read(u, Some(newer)), a, a];
    var s1 := Run(s, sum, begun);
    NewerLoses(s1, sum, t, u, z, newer);
    RunConcat(s, sum, begun, [a, b, b, b, a, a]);
  }

  lemma BothRead(s: State, sum: Checksummer, t: Tid, u: Tid, z: ZoneRead, newer: ZoneRead)
    requires t != u && OpOf(s, t).Idle? && OpOf(s, u).Idle? && s.st.first && s.st.checksum != sum(z.bytes)
    ensures
      var s' := Run(s, sum, [Call(t), Call(u), Read(t, Some(z)), Read(u, Some(newer)), Advance(t), Advance(t)]);
      && OpOf(s', t) == Changed(s.st.checksum, z) && OpOf(s', u) == Succeeded(s.st.checksum, newer)
      && s'.st == s.st && s'.writes == s.writes && s'.dispatched == s.dispatched
      && s'.completed == s.completed + [z, newer]
  {
    SixSteps(s, sum, Call(t), Call(u), Read(t, Some(z)), Read(u, Some(newer)), Advance(t), Advance(t));
  }

  lemma NewerLoses(s: State, sum: Checksummer, t: Tid, u: Tid, z: ZoneRead, newer: ZoneRead)
    requires t != u && s.st.first && OpOf(s, t) == Changed(s.st.checksum, z) &&
        OpOf(s, u) == Succeeded(s.st.checksum, newer)
    requires s.st.checksum != sum(z.bytes) && sum(z.bytes) != sum(newer.bytes)
    ensures
      var s' := Run(s, sum, [Advance(t), Advance(u), Advance(u), Advance(u), Advance(t), Advance(t)]);
      && OpOf(s', t).Idle? && OpOf(s', u).Idle? && s'.st.checksum == sum(z.bytes)
      && s'.completed == s.completed && s'.dispatched == s.dispatched + [Dispatch(z, |s.writes|)]
  {
    SixSteps(s, sum, Advance(t), Advance(u), Advance(u), Advance(u), Advance(t), Advance(t));
  }

  // ---- runs of calls that do not overlap

  datatype WholeCall = WholeCall(t: Tid, result: Option<ZoneRead>)

  function OneByOne(calls: seq<WholeCall>): seq<Action> {
    if calls == [] then []
    else OneByOne(calls[..|calls| - 1]) + Alone(calls[|calls| - 1].t, calls[|calls| - 1].result)
  }

  function Results(calls: seq<WholeCall>): seq<Option<ZoneRead>> {
    seq(|calls|, i requires 0 <= i < |calls| => calls[i].result)
  }

  ghost function LastDispatched(s: State): Option<ZoneRead> {
    if s.dispatched == [] then None else Some(s.dispatched[|s.dispatched| - 1].z)
  }

  /** Such a run comes to what the sequential account says, however many goroutines make the calls. */
  lemma {:induction false} OneByOneIsRunAll(sum: Checksummer, calls: seq<WholeCall>)
    ensures var s := Run(INITIAL, sum, OneByOne(calls));
      && s.st == RunAll(sum, Results(calls)).st && LastDispatched(s) == RunAll(sum, Results(calls)).located
      && forall t :: OpOf(s, t).Idle?
  {
    if calls != [] {
      var last := |calls| - 1;
      var front, call := calls[..last], calls[last];
      OneByOneIsRunAll(sum, front);
      var s := Run(INITIAL, sum, OneByOne(front));
      RunConcat(INITIAL, sum, OneByOne(front), Alone(call.t, call.result));
      AloneIsIngestOnce(s, sum, call.t, call.result);
      assert Results(calls)[..last] == Results(front);
    }
  }
}
