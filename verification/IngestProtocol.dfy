/**
 * FileIngester.Ingest as a protocol: any number of calls that overlap, each taking one step
 * at a time, a step being one operation on the atomics `first` and `checksum`, the reading of
 * all files, or the dispatch of the event.
 */
module IngestProtocol {
  import opened Ordering
  import opened Wrappers
  import opened FileIngesting

  type Tid = nat

  /** Where a call stands; `write` is the position of its own write in the log. */
  datatype Op =
    | Idle
    | Loaded(loaded: nat)                       // oldChecksum has been loaded
    | Succeeded(loaded: nat, z: ZoneRead)       // all files have been read
    | Initial(z: ZoneRead)                    // CAS(first) succeeded: build, then store
    | NotFirst(loaded: nat, z: ZoneRead)        // CAS(first) failed: about to load the checksum again
    | Changed(loaded: nat, z: ZoneRead)         // it differs from the new one: about to CAS
    | Dispatching(z: ZoneRead, write: nat)    // the groups are built

  /** A write to `checksum`: the unconditional one of the first Ingest, or a successful CAS. */
  datatype Write = Store(value: nat) | Swap(found: nat, value: nat)

  datatype Dispatch = Dispatch(z: ZoneRead, write: nat)

  datatype State = State(
    st: IngestState,
    ops: map<Tid, Op>,
    completed: seq<ZoneRead>,    // every complete read so far
    writes: seq<Write>,          // every write to checksum so far
    dispatched: seq<Dispatch>)   // every publication of groups so far

  const INITIAL := State(IngestState(false, 0), map[], [], [], [])

  datatype Action =
    | Call(t: Tid)
    | Read(t: Tid, result: Option<ZoneRead>)
    | Advance(t: Tid)

  function OpOf(s: State, t: Tid): Op { if t in s.ops then s.ops[t] else Idle }

  function Moved(s: State, t: Tid, op: Op): State { s.(ops := s.ops[t := op]) }

  /** A step that is not possible does nothing. */
  function Step(s: State, sum: Checksummer, a: Action): State {
    match a
    case Call(t) => if OpOf(s, t).Idle? then Moved(s, t, Loaded(s.st.checksum)) else s
    case Read(t, result) =>
      if !OpOf(s, t).Loaded? then s
      else (match result
            case None => Moved(s, t, Idle)
            case Some(z) => Moved(s, t, Succeeded(OpOf(s, t).loaded, z)).(completed := s.completed + [z]))
    case Advance(t) =>
      match OpOf(s, t)
      case Idle => s
      case Loaded(_) => s
      case Succeeded(loaded, z) =>
        if !s.st.first then Moved(s, t, Initial(z)).(st := s.st.(first := true))
        else Moved(s, t, NotFirst(loaded, z))
      case Initial(z) => Written(s, t, z, Store(sum(z.bytes)))
      case NotFirst(loaded, z) =>
        if s.st.checksum != sum(z.bytes) then Moved(s, t, Changed(loaded, z)) else Moved(s, t, Idle)
      case Changed(loaded, z) =>
        if s.st.checksum == loaded then Written(s, t, z, Swap(loaded, sum(z.bytes))) else Moved(s, t, Idle)
      case Dispatching(z, write) => Moved(s, t, Idle).(dispatched := s.dispatched + [Dispatch(z, write)])
  }

  function Written(s: State, t: Tid, z: ZoneRead, w: Write): State {
    Moved(s, t, Dispatching(z, |s.writes|)).(st := s.st.(checksum := w.value), writes := s.writes + [w])
  }

  /** Any interleaving of any Ingests. */
  function Run(s: State, sum: Checksummer, actions: seq<Action>): State {
    if actions == [] then s
    else Step(Run(s, sum, actions[..|actions| - 1]), sum, actions[|actions| - 1])
  }

  // ---- what every interleaving keeps

  function ValueAfter(writes: seq<Write>, n: nat): nat
    requires n <= |writes|
  {
    if n == 0 then 0 else writes[n - 1].value
  }

  /** Every successful CAS found the value that was written last. */
  ghost predicate Chained(writes: seq<Write>) {
    forall i :: 0 <= i < |writes| && writes[i].Swap? ==> writes[i].found == ValueAfter(writes, i)
  }

  ghost predicate OpOk(sum: Checksummer, completed: seq<ZoneRead>, writes: seq<Write>, op: Op) {
    match op
    case Idle => true
    case Loaded(_) => true
    case Succeeded(_, z) => z in completed
    case Initial(z) => z in completed
    case NotFirst(_, z) => z in completed
    case Changed(_, z) => z in completed
    case Dispatching(z, write) => z in completed && write < |writes| && writes[write].value == sum(z.bytes)
  }

  /** The Ingest that won the CAS on first: at most one has not stored yet, or has. */
  ghost predicate OneInitial(s: State) {
    && (forall t, u :: t in s.ops && u in s.ops && s.ops[t].Initial? && s.ops[u].Initial? ==> t == u)
    && (forall i, j :: 0 <= i < j < |s.writes| && s.writes[i].Store? ==> !s.writes[j].Store?)
    && (forall t :: t in s.ops && s.ops[t].Initial? ==>
          s.st.first && forall i :: 0 <= i < |s.writes| ==> !s.writes[i].Store?)
    && (forall t :: t in s.ops && (s.ops[t].NotFirst? || s.ops[t].Changed?) ==> s.st.first)
    && (!s.st.first ==> s.writes == [])
  }

  /** No write is dispatched twice. */
  ghost predicate OwnWrites(s: State) {
    && (forall i, j :: 0 <= i < j < |s.dispatched| ==> s.dispatched[i].write != s.dispatched[j].write)
    && (forall t, u :: t in s.ops && u in s.ops && t != u && s.ops[t].Dispatching? && s.ops[u].Dispatching? ==>
          s.ops[t].write != s.ops[u].write)
    && (forall i, t :: 0 <= i < |s.dispatched| && t in s.ops && s.ops[t].Dispatching? ==>
          s.dispatched[i].write != s.ops[t].write)
  }

  ghost predicate Logged(s: State, sum: Checksummer) {
    && s.st.checksum == ValueAfter(s.writes, |s.writes|) && Chained(s.writes)
    && (forall i :: 0 <= i < |s.writes| ==> exists z :: z in s.completed && s.writes[i].value == sum(z.bytes))
    && (forall t :: t in s.ops ==> OpOk(sum, s.completed, s.writes, s.ops[t]))
    && (forall i :: 0 <= i < |s.dispatched| ==>
          s.dispatched[i].write < |s.writes| && s.writes[s.dispatched[i].write].value == sum(s.dispatched[i].z.bytes))
  }

  ghost predicate Inv(s: State, sum: Checksummer) { OneInitial(s) && OwnWrites(s) && Logged(s, sum) }

  /** Only the local variables of one call have changed. */
  lemma LocalStep(s: State, sum: Checksummer, t: Tid, op: Op)
    requires Inv(s, sum) && !op.Initial? && !op.Dispatching? && OpOk(sum, s.completed, s.writes, op)
    requires op.NotFirst? || op.Changed? ==> s.st.first
    ensures Inv(Moved(s, t, op), sum)
  {
  }

  lemma ReadStep(s: State, sum: Checksummer, t: Tid, z: ZoneRead)
    requires Inv(s, sum) && OpOf(s, t).Loaded?
    ensures Inv(Step(s, sum, Read(t, Some(z))), sum)
  {
    var more := s.(completed := s.completed + [z]);
    forall i | 0 <= i < |s.writes| ensures exists y :: y in more.completed && s.writes[i].value == sum(y.bytes) {
      var y :| y in s.completed && s.writes[i].value == sum(y.bytes);
      assert y in more.completed;
    }
    assert Inv(more, sum);
    LocalStep(more, sum, t, Succeeded(OpOf(s, t).loaded, z));
  }

  lemma InitialStep(s: State, sum: Checksummer, t: Tid)
    requires Inv(s, sum) && OpOf(s, t).Succeeded? && !s.st.first
    ensures Inv(Step(s, sum, Advance(t)), sum)
  {
    assert forall u :: u in s.ops ==> !s.ops[u].Initial?;
  }

  lemma WriteStep(s: State, sum: Checksummer, t: Tid, z: ZoneRead, w: Write)
    requires Inv(s, sum) && z in s.completed && w.value == sum(z.bytes)
    requires
      match OpOf(s, t)
      case Initial(_) => w.Store?
      case Changed(_, _) => w == Swap(s.st.checksum, w.value)
      case _ => false
    requires s.st.first
    ensures Inv(Written(s, t, z, w), sum)
  {
    var s', n := Written(s, t, z, w), |s.writes|;
    assert forall i :: 0 <= i < n ==> s'.writes[i] == s.writes[i];
    assert OneInitial(s');
    WriteLogged(s, sum, t, z, w);
    assert forall u :: u in s.ops && s.ops[u].Dispatching? ==> s.ops[u].write < n;
    assert OwnWrites(s');
  }

  lemma WriteLogged(s: State, sum: Checksummer, t: Tid, z: ZoneRead, w: Write)
    requires Logged(s, sum) && z in s.completed && w.value == sum(z.bytes)
    requires w.Swap? ==> w.found == s.st.checksum
    ensures Logged(Written(s, t, z, w), sum)
  {
    var s', n := Written(s, t, z, w), |s.writes|;
    assert forall i :: 0 <= i < n ==> s'.writes[i] == s.writes[i];
    forall i | 0 <= i <= n ensures exists y :: y in s.completed && s'.writes[i].value == sum(y.bytes) {
      if i == n { assert s'.writes[n].value == sum(z.bytes); }
    }
  }

  lemma DispatchStep(s: State, sum: Checksummer, t: Tid)
    requires Inv(s, sum) && OpOf(s, t).Dispatching?
    ensures Inv(Step(s, sum, Advance(t)), sum)
  {
  }

  lemma StepKeepsInv(s: State, sum: Checksummer, a: Action)
    requires Inv(s, sum)
    ensures Inv(Step(s, sum, a), sum)
  {
    match a
    case Call(t) => if OpOf(s, t).Idle? { LocalStep(s, sum, t, Loaded(s.st.checksum)); }
    case Read(t, result) =>
      if OpOf(s, t).Loaded? {
        if result.Some? { ReadStep(s, sum, t, result.value); } else { LocalStep(s, sum, t, Idle); }
      }
    case Advance(t) =>
      match OpOf(s, t) {
        case Idle =>
        case Loaded(_) =>
        case Succeeded(loaded, z) =>
          if s.st.first { LocalStep(s, sum, t, NotFirst(loaded, z)); } else { InitialStep(s, sum, t); }
        case Initial(z) => WriteStep(s, sum, t, z, Store(sum(z.bytes)));
        case NotFirst(loaded, z) =>
          LocalStep(s, sum, t, if s.st.checksum != sum(z.bytes) then Changed(loaded, z) else Idle);
        case Changed(loaded, z) =>
          if s.st.checksum == loaded {
            WriteStep(s, sum, t, z, Swap(loaded, sum(z.bytes)));
          } else {
            LocalStep(s, sum, t, Idle);
          }
        case Dispatching(_, _) => DispatchStep(s, sum, t);
      }
  }

  lemma {:induction false} RunKeepsInv(sum: Checksummer, actions: seq<Action>)
    ensures Inv(Run(INITIAL, sum, actions), sum)
  {
    if actions != [] {
      RunKeepsInv(sum, actions[..|actions| - 1]);
      StepKeepsInv(Run(INITIAL, sum, actions[..|actions| - 1]), sum, actions[|actions| - 1]);
    }
  }

  /** At most one Ingest ever takes the initial branch, whether or not it has stored its checksum yet. */
  lemma AtMostOneInitial(sum: Checksummer, actions: seq<Action>)
    ensures var s := Run(INITIAL, sum, actions);
      && (forall t, u :: t in s.ops && u in s.ops && s.ops[t].Initial? && s.ops[u].Initial? ==> t == u)
      && (forall i, j :: 0 <= i < |s.writes| && 0 <= j < |s.writes| && s.writes[i].Store? && s.writes[j].Store? ==>
          i == j)
      && (forall t, i :: t in s.ops && s.ops[t].Initial? && 0 <= i < |s.writes| ==> !s.writes[i].Store?)
  {
    RunKeepsInv(sum, actions);
  }

  /** The stored checksum is the starting zero or that of a complete read. */
  lemma ChecksumOfARead(sum: Checksummer, actions: seq<Action>)
    ensures var s := Run(INITIAL, sum, actions);
      (s.writes == [] && s.st.checksum == 0) || exists z :: z in s.completed && s.st.checksum == sum(z.bytes)
  {
    RunKeepsInv(sum, actions);
    var s := Run(INITIAL, sum, actions);
    if s.writes != [] {
      var z :| z in s.completed && s.writes[|s.writes| - 1].value == sum(z.bytes);
    }
  }

  lemma SwapsAreSeparated(writes: seq<Write>, m: nat, n: nat, x: nat, y: nat)
    requires Chained(writes) && m < n < |writes| && writes[m] == writes[n] == Swap(x, y) && x != y
    ensures exists k :: m < k < n && writes[k].value == x
  {
    assert writes[n - 1].value == x;
  }

  /**
   * Among Ingests that loaded the checksum x and computed y, two publish only if the stored
   * value has become x again in between.
   */
  lemma OnePublicationPerChange(sum: Checksummer, actions: seq<Action>, i: nat, j: nat, x: nat, y: nat)
    requires var s := Run(INITIAL, sum, actions);
      i < j < |s.dispatched| && s.dispatched[i].write < |s.writes| && s.dispatched[j].write < |s.writes|
    requires var s := Run(INITIAL, sum, actions);
      s.writes[s.dispatched[i].write] == s.writes[s.dispatched[j].write] == Swap(x, y) && x != y
    ensures var s := Run(INITIAL, sum, actions);
      var m, n := s.dispatched[i].write, s.dispatched[j].write;
      exists k :: (m < k < n || n < k < m) && s.writes[k].value == x
  {
    RunKeepsInv(sum, actions);
    var s := Run(INITIAL, sum, actions);
    var m, n := s.dispatched[i].write, s.dispatched[j].write;
    assert m != n by { assert OwnWrites(s); }
    SwapsAreSeparated(s.writes, if m < n then m else n, if m < n then n else m, x, y);
  }

  // ---- calls that do not overlap, and calls that do

  function Alone(t: Tid, result: Option<ZoneRead>): seq<Action> {
    [Call(t), Read(t, result), Advance(t), Advance(t), Advance(t), Advance(t)]
  }

  lemma {:induction false} RunOneMore(s: State, sum: Checksummer, actions: seq<Action>, a: Action)
    ensures Run(s, sum, actions + [a]) == Step(Run(s, sum, actions), sum, a)
  {
    assert (actions + [a])[..|actions|] == actions;
  }

  lemma RunFirst(s: State, sum: Checksummer, a: Action, actions: seq<Action>)
    ensures Run(s, sum, [a] + actions) == Run(Step(s, sum, a), sum, actions)
    decreases actions
  {
    if actions == [] {
      assert [a] + actions == [] + [a];
      RunOneMore(s, sum, [], a);
    } else {
      var last := |actions| - 1;
      assert [a] + actions == ([a] + actions[..last]) + [actions[last]];
      RunOneMore(s, sum, [a] + actions[..last], actions[last]);
      RunFirst(s, sum, a, actions[..last]);
    }
  }

  /** A call that nothing overlaps does what the sequential account says. */
  lemma AloneIsIngestOnce(s: State, sum: Checksummer, t: Tid, result: Option<ZoneRead>)
    requires OpOf(s, t).Idle?
    ensures var s' := Run(s, sum, Alone(t, result));
      && OpOf(s', t).Idle? && s'.st == IngestOnce(s.st, sum, result)
      && s'.dispatched == s.dispatched +
           if Publishes(s.st, sum, result) then [Dispatch(result.value, |s.writes|)] else []
    ensures forall u :: u != t ==> OpOf(Run(s, sum, Alone(t, result)), u) == OpOf(s, u)
  {
    var a := Advance(t);
    var s2 := Step(Step(s, sum, Call(t)), sum, Read(t, result));
    SixSteps(s, sum, Call(t), Read(t, result), a, a, a, a);
    var s3 := Step(s2, sum, a);
    var s4 := Step(s3, sum, a);
    var s5 := Step(s4, sum, a);
    if result.Some? {
      assert OpOf(s2, t) == Succeeded(s.st.checksum, result.value);
      if !s.st.first {
        assert OpOf(s3, t) == Initial(result.value);
        assert OpOf(s4, t) == Dispatching(result.value, |s.writes|);
      } else {
        assert OpOf(s3, t) == NotFirst(s.st.checksum, result.value);
      }
    }
  }

  lemma SixSteps(s: State, sum: Checksummer, a: Action, b: Action, c: Action, d: Action, e: Action, f: Action)
    ensures Run(s, sum, [a, b, c, d, e, f]) ==
            Step(Step(Step(Step(Step(Step(s, sum, a), sum, b), sum, c), sum, d), sum, e), sum, f)
  {
    assert [a, b, c, d, e, f][..5] == [a, b, c, d, e];
    assert [a, b, c, d, e][..4] == [a, b, c, d];
    assert [a, b, c, d][..3] == [a, b, c];
    assert [a, b, c][..2] == [a, b];
    assert [a, b][..1] == [a];
    assert [a][..0] == [];
    assert Run(s, sum, [a]) == Step(s, sum, a);
    assert Run(s, sum, [a, b]) == Step(Step(s, sum, a), sum, b);
    assert Run(s, sum, [a, b, c]) == Step(Step(Step(s, sum, a), sum, b), sum, c);
    assert Run(s, sum, [a, b, c, d]) == Step(Step(Step(Step(s, sum, a), sum, b), sum, c), sum, d);
  }

  lemma {:induction false} RunConcat(s: State, sum: Checksummer, first: seq<Action>, second: seq<Action>)
    ensures Run(s, sum, first + second) == Run(Run(s, sum, first), sum, second)
    decreases second
  {
    if second == [] {
      assert first + second == first;
    } else {
      var last := |second| - 1;
      assert first + second == (first + second[..last]) + [second[last]];
      RunOneMore(s, sum, first + second[..last], second[last]);
      RunConcat(s, sum, first, second[..last]);
    }
  }

  /** One call has swapped the checksum but not dispatched yet when another starts. */
  lemma PausedAfterSwap(s: State, sum: Checksummer, t: Tid, u: Tid, z: ZoneRead)
    requires t != u && OpOf(s, t).Idle? && OpOf(s, u).Idle? && s.st.first && s.st.checksum != sum(z.bytes)
    ensures var s1 := Run(s, sum, [Call(t), Read(t, Some(z)), Advance(t), Advance(t), Advance(t), Call(u)]);
      && OpOf(s1, t) == Dispatching(z, |s.writes|) && s1.st.checksum == sum(z.bytes) && s1.st.first
      && OpOf(s1, u) == Loaded(sum(z.bytes))
  {
    SixSteps(s, sum, Call(t), Read(t, Some(z)), Advance(t), Advance(t), Advance(t), Call(u));
  }

  /** The second call then runs to its end before the first dispatches. */
  lemma Overtake(s: State, sum: Checksummer, t: Tid, u: Tid, z: ZoneRead, write: nat, newer: ZoneRead)
    requires t != u && OpOf(s, t) == Dispatching(z, write) && OpOf(s, u) == Loaded(sum(z.bytes))
    requires s.st.checksum == sum(z.bytes) && s.st.first && sum(z.bytes) != sum(newer.bytes)
    ensures var s' := Run(s, sum, [Read(u, Some(newer)), Advance(u), Advance(u), Advance(u), Advance(u), Advance(t)]);
      && OpOf(s', t).Idle? && OpOf(s', u).Idle? && s'.st.first && s'.st.checksum == sum(newer.bytes)
      && s'.dispatched != [] && s'.dispatched[|s'.dispatched| - 1].z == z
  {
    SixSteps(s, sum, Read(u, Some(newer)), Advance(u), Advance(u), Advance(u), Advance(u), Advance(t));
  }

  /**
   * Overlapping calls may publish in another order than they swapped: the checksum is then
   * that of the newer read, but the groups published last are those of the older one, and
   * reading the newer files again publishes nothing.
   */
  lemma OverlapMayPublishStale(s: State, sum: Checksummer, t: Tid, u: Tid, z: ZoneRead, newer: ZoneRead)
    requires t != u && OpOf(s, t).Idle? && OpOf(s, u).Idle? && s.st.first
    requires s.st.checksum != sum(z.bytes) && sum(z.bytes) != sum(newer.bytes)
    ensures exists actions :: var s' := Run(s, sum, actions);
      && OpOf(s', t).Idle? && OpOf(s', u).Idle?
      && s'.st.checksum == sum(newer.bytes) && !Publishes(s'.st, sum, Some(newer))
      && s'.dispatched != [] && s'.dispatched[|s'.dispatched| - 1].z == z
  {
    var a, b := Advance(t), Advance(u);
    var pause := [Call(t), Read(t, Some(z)), a, a, a, Call(u)];
    PausedAfterSwap(s, sum, t, u, z);
    var s1 := Run(s, sum, pause);
    Overtake(s1, sum, t, u, z, |s.writes|, newer);
    RunConcat(s, sum, pause, [Read(u, Some(newer)), b, b, b, b, a]);
  }
}
