/**
 * service/locator.go as a protocol: any number of goroutines in Update, Find and Groups, each
 * taking one step at a time, a step being a lock operation or the access of a single field.
 */
module LocatorProtocol {
  import opened Ordering
  import opened Wrappers
  import opened Zone
  import opened Groups
  import opened Locating

  type Tid = nat

  datatype Fields = Fields(groups: Option<Groups>, ringsByName: map<Text, Ring>, allRings: seq<Ring>)

  /** sync.RWMutex: any number of readers or one writer. */
  datatype RWMutex = RWMutex(readers: set<Tid>, writer: Option<Tid>)

  /** Where a goroutine stands. `start` is how many updates had been published when it was called. */
  datatype Op =
    | Idle
    // Update: the rings are built before the lock is taken, then the fields are written in turn
    | UpdateBuilt(gps: Groups, byName: map<Text, Ring>, rings: seq<Ring>)
    | UpdateWriting(gps: Groups, byName: map<Text, Ring>, rings: seq<Ring>, written: nat)
    // Find and FindString
    | FindCalled(key: Text, names: seq<Text>, start: nat)
    | FindNamed(key: Text, names: seq<Text>, start: nat, next: nat, results: seq<Option<Endpoint>>)
    | FindAllLocked(key: Text, start: nat)
    | FindAll(key: Text, start: nat, ranged: seq<Ring>, next: nat, results: seq<Option<Endpoint>>)
    // Groups
    | GroupsCalled(start: nat)
    | GroupsLocked(start: nat)
    | GroupsRead(start: nat, read: Option<Groups>)

  /** A completed read, with the numbers of updates published at its call and at its return. */
  datatype Completed =
    | FindReturned(key: Text, names: seq<Text>, results: seq<Option<Endpoint>>, start: nat, end: nat)
    | GroupsReturned(read: Option<Groups>, start: nat, end: nat)

  datatype State = State(
    fields: Fields,
    lock: RWMutex,
    ops: map<Tid, Op>,
    history: seq<Groups>,   // every Groups published so far, in order
    completed: seq<Completed>)

  const INITIAL := State(Fields(None, map[], []), RWMutex({}, None), map[], [], [])

  datatype Action =
    | CallUpdate(t: Tid, gps: Groups)
    | CallFind(t: Tid, key: Text, names: seq<Text>)
    | CallGroups(t: Tid)
    | Advance(t: Tid)

  function OpOf(s: State, t: Tid): Op { if t in s.ops then s.ops[t] else Idle }

  function Moved(s: State, t: Tid, op: Op): State { s.(ops := s.ops[t := op]) }

  function RLock(s: State, t: Tid): State { s.(lock := s.lock.(readers := s.lock.readers + {t})) }

  function RUnlock(s: State, t: Tid): State { s.(lock := s.lock.(readers := s.lock.readers - {t})) }

  function Return(s: State, t: Tid, r: Completed): State {
    Moved(RUnlock(s, t), t, Idle).(completed := s.completed + [r])
  }

  /** One step of a goroutine inside a call; a step that has to wait for the lock does nothing. */
  function Proceed(s: State, hash: Hash, t: Tid): State {
    match OpOf(s, t)
    case Idle => s
    case UpdateBuilt(gps, byName, rings) =>
      if s.lock.writer.None? && s.lock.readers == {} then
        Moved(s, t, UpdateWriting(gps, byName, rings, 0)).(lock := s.lock.(writer := Some(t)))
      else s
    case UpdateWriting(gps, byName, rings, written) =>
      if written == 0 then Moved(s, t, UpdateWriting(gps, byName, rings, 1)).(fields := s.fields.(groups := Some(gps)))
      else if written == 1 then
        Moved(s, t, UpdateWriting(gps, byName, rings, 2)).(fields := s.fields.(ringsByName := byName))
      else if written == 2 then
        Moved(s, t, UpdateWriting(gps, byName, rings, 3)).(fields := s.fields.(allRings := rings))
      else Moved(s, t, Idle).(lock := s.lock.(writer := None), history := s.history + [gps])
    case FindCalled(key, names, start) =>
      if s.lock.writer.Some? then s
      else if |names| > 0 then Moved(RLock(s, t), t, FindNamed(key, names, start, 0, []))
      else Moved(RLock(s, t), t, FindAllLocked(key, start))
    case FindNamed(key, names, start, next, results) =>
      if next < |names| then
        var found := if names[next] in s.fields.ringsByName
                     then [Nearest(hash, s.fields.ringsByName[names[next]], key)] else [];
        Moved(s, t, FindNamed(key, names, start, next + 1, results + found))
      else Return(s, t, FindReturned(key, names, results, start, |s.history|))
    case FindAllLocked(key, start) => Moved(s, t, FindAll(key, start, s.fields.allRings, 0, []))
    case FindAll(key, start, ranged, next, results) =>
      if next < |ranged| then
        Moved(s, t, FindAll(key, start, ranged, next + 1, results + [Nearest(hash, ranged[next], key)]))
      else Return(s, t, FindReturned(key, [], results, start, |s.history|))
    case GroupsCalled(start) =>
      if s.lock.writer.Some? then s else Moved(RLock(s, t), t, GroupsLocked(start))
    case GroupsLocked(start) => Moved(s, t, GroupsRead(start, s.fields.groups))
    case GroupsRead(start, read) => Return(s, t, GroupsReturned(read, start, |s.history|))
  }

  /** A goroutine only makes a call when it is not inside one, and only publishes finished groups. */
  ghost predicate Enabled(s: State, a: Action) {
    match a
    case CallUpdate(t, gps) => OpOf(s, t).Idle? && Indexed(gps)
    case CallFind(t, _, _) => OpOf(s, t).Idle?
    case CallGroups(t) => OpOf(s, t).Idle?
    case Advance(_) => true
  }

  ghost function Step(s: State, hash: Hash, a: Action): State {
    if !Enabled(s, a) then s
    else
      match a
      case CallUpdate(t, gps) => Moved(s, t, UpdateBuilt(gps, RingsByName(gps.all), AllRings(gps.all)))
      case CallFind(t, key, names) => Moved(s, t, FindCalled(key, names, |s.history|))
      case CallGroups(t) => Moved(s, t, GroupsCalled(|s.history|))
      case Advance(t) => Proceed(s, hash, t)
  }

  /** Any interleaving of any calls. */
  ghost function Run(s: State, hash: Hash, actions: seq<Action>): State {
    if actions == [] then s
    else Step(Run(s, hash, actions[..|actions| - 1]), hash, actions[|actions| - 1])
  }

  // ---- what every interleaving keeps

  /** What was current after `v` updates had been published. */
  function Published(history: seq<Groups>, v: nat): Option<Groups>
    requires v <= |history|
  {
    if v == 0 then None else Some(history[v - 1])
  }

  function GroupsAt(history: seq<Groups>, v: nat): Groups
    requires v <= |history|
  {
    if v == 0 then NO_GROUPS else history[v - 1]
  }

  function FieldsFor(history: seq<Groups>): Fields {
    var v := |history|;
    Fields(Published(history, v), RingsByName(GroupsAt(history, v).all), AllRings(GroupsAt(history, v).all))
  }

  predicate Reading(op: Op) {
    op.FindNamed? || op.FindAllLocked? || op.FindAll? || op.GroupsLocked? || op.GroupsRead?
  }

  ghost predicate AllIndexed(history: seq<Groups>) { forall i :: 0 <= i < |history| ==> Indexed(history[i]) }

  /** The fields in the middle of an update. */
  function Halfway(before: Fields, op: Op): Fields
    requires op.UpdateWriting?
  {
    Fields(if op.written >= 1 then Some(op.gps) else before.groups,
           if op.written >= 2 then op.byName else before.ringsByName,
           if op.written >= 3 then op.rings else before.allRings)
  }

  /** The fields always belong to one update, but for those that the holder of the lock has written. */
  ghost predicate Consistent(s: State) {
    match s.lock.writer
    case None => s.fields == FieldsFor(s.history)
    case Some(w) => OpOf(s, w).UpdateWriting? && s.fields == Halfway(FieldsFor(s.history), OpOf(s, w))
  }

  ghost predicate Locked(s: State) {
    && (s.lock.writer.Some? ==> s.lock.readers == {})
    && (forall t :: t in s.lock.readers <==> t in s.ops && Reading(s.ops[t]))
    && (forall t :: s.lock.writer == Some(t) <==> t in s.ops && s.ops[t].UpdateWriting?)
  }

  /** What a goroutine has in its local variables. */
  ghost predicate OpOk(hash: Hash, history: seq<Groups>, op: Op)
    requires AllIndexed(history)
  {
    var current := GroupsAt(history, |history|);
    match op
    case Idle => true
    case UpdateBuilt(gps, byName, rings) => Indexed(gps) && byName == RingsByName(gps.all) && rings == AllRings(gps.all)
    case UpdateWriting(gps, byName, rings, written) =>
      Indexed(gps) && byName == RingsByName(gps.all) && rings == AllRings(gps.all) && written <= 3
    case FindCalled(_, _, start) => start <= |history|
    case FindNamed(key, names, start, next, results) =>
      && start <= |history| && names != [] && next <= |names|
      && results == AnswerFor(hash, current, key, names[..next])
    case FindAllLocked(_, start) => start <= |history|
    case FindAll(key, start, ranged, next, results) =>
      && start <= |history| && ranged == AllRings(current.all) && next <= |ranged|
      && results == Answer(hash, current, key, [])[..next]
    case GroupsCalled(start) => start <= |history|
    case GroupsLocked(start) => start <= |history|
    case GroupsRead(start, read) => start <= |history| && read == Published(history, |history|)
  }

  /** A read gave the whole answer of one update that was current between its call and its return. */
  ghost predicate Linearized(hash: Hash, history: seq<Groups>, r: Completed)
    requires AllIndexed(history)
  {
    && r.end <= |history|
    && exists v :: r.start <= v <= r.end &&
         match r
         case FindReturned(key, names, results, _, _) => results == Answer(hash, GroupsAt(history, v), key, names)
         case GroupsReturned(read, _, _) => read == Published(history, v)
  }

  ghost predicate Inv(hash: Hash, s: State) {
    && AllIndexed(s.history) && Locked(s) && Consistent(s)
    && (forall t :: t in s.ops ==> OpOk(hash, s.history, s.ops[t]))
    && (forall r :: r in s.completed ==> Linearized(hash, s.history, r))
  }

  /** A goroutine that changes nothing but its own local variables and its place in the lock. */
  lemma OneMoves(hash: Hash, s: State, t: Tid, s': State)
    requires Inv(hash, s)
    requires s'.ops == s.ops[t := OpOf(s', t)] && t in s'.ops
    requires s'.history == s.history && s'.completed == s.completed && s'.lock.writer == s.lock.writer
    requires s'.fields == s.fields && !OpOf(s, t).UpdateWriting? && !OpOf(s', t).UpdateWriting?
    requires OpOk(hash, s.history, OpOf(s', t))
    requires s'.lock.readers == if Reading(OpOf(s', t)) then s.lock.readers + {t} else s.lock.readers - {t}
    requires Reading(OpOf(s', t)) ==> s.lock.writer.None?
    ensures Inv(hash, s')
  {
    if s.lock.writer.Some? {
      assert s.lock.writer.value in s.ops;
    }
  }

  /** One more ring has been asked, or there is none of that name. */
  lemma NamedNext(hash: Hash, history: seq<Groups>, op: Op, next: Op)
    requires AllIndexed(history) && op.FindNamed? && op.next < |op.names| && OpOk(hash, history, op)
    requires var byName, name := FieldsFor(history).ringsByName, op.names[op.next];
      next == FindNamed(op.key, op.names, op.start, op.next + 1,
                        op.results + if name in byName then [Nearest(hash, byName[name], op.key)] else [])
    ensures OpOk(hash, history, next)
  {
    assert op.names[..op.next + 1][..op.next] == op.names[..op.next];
    RingsAreIndexed(GroupsAt(history, |history|), op.names[op.next]);
  }

  lemma NamedStep(hash: Hash, s: State, t: Tid)
    requires Inv(hash, s) && OpOf(s, t).FindNamed?
    ensures Inv(hash, Proceed(s, hash, t))
  {
    assert t in s.lock.readers && s.lock.writer.None?;
    var op := OpOf(s, t);
    if op.next < |op.names| {
      assert s.fields == FieldsFor(s.history);
      NamedNext(hash, s.history, op, OpOf(Proceed(s, hash, t), t));
      OneMoves(hash, s, t, Proceed(s, hash, t));
    } else {
      assert op.names[..op.next] == op.names;
      Returns(hash, s, t, FindReturned(op.key, op.names, op.results, op.start, |s.history|));
    }
  }

  lemma AllStep(hash: Hash, s: State, t: Tid)
    requires Inv(hash, s) && OpOf(s, t).FindAll?
    ensures Inv(hash, Proceed(s, hash, t))
  {
    assert t in s.lock.readers && s.lock.writer.None?;
    var op := OpOf(s, t);
    if op.next < |op.ranged| {
      OneMoves(hash, s, t, Proceed(s, hash, t));
    } else {
      Returns(hash, s, t, FindReturned(op.key, [], op.results, op.start, |s.history|));
    }
  }

  lemma ReadStep(hash: Hash, s: State, t: Tid)
    requires Inv(hash, s) && Reading(OpOf(s, t))
    ensures Inv(hash, Proceed(s, hash, t))
  {
    assert t in s.lock.readers && s.lock.writer.None?;
    match OpOf(s, t)
    case FindNamed(_, _, _, _, _) => NamedStep(hash, s, t);
    case FindAll(_, _, _, _, _) => AllStep(hash, s, t);
    case FindAllLocked(_, _) => OneMoves(hash, s, t, Proceed(s, hash, t));
    case GroupsLocked(_) => OneMoves(hash, s, t, Proceed(s, hash, t));
    case GroupsRead(start, read) => Returns(hash, s, t, GroupsReturned(read, start, |s.history|));
  }

  lemma Returns(hash: Hash, s: State, t: Tid, r: Completed)
    requires Inv(hash, s) && Reading(OpOf(s, t)) && Linearized(hash, s.history, r)
    ensures Inv(hash, Return(s, t, r))
  {
    var s' := Return(s, t, r);
    OneMoves(hash, s, t, s'.(completed := s.completed));
    forall q | q in s'.completed ensures Linearized(hash, s'.history, q) {
      assert q in s.completed || q == r;
    }
  }

  lemma UpdateStep(hash: Hash, s: State, t: Tid)
    requires Inv(hash, s) && (OpOf(s, t).UpdateBuilt? || OpOf(s, t).UpdateWriting?)
    ensures Inv(hash, Proceed(s, hash, t))
  {
    if OpOf(s, t).UpdateWriting? {
      assert s.lock.writer == Some(t);
      if OpOf(s, t).written == 3 {
        Publish(hash, s, t);
      }
    }
  }

  /** Unlock: the update becomes the current one; nobody was reading. */
  lemma Publish(hash: Hash, s: State, t: Tid)
    requires Inv(hash, s) && s.lock.writer == Some(t) && OpOf(s, t).UpdateWriting? && OpOf(s, t).written == 3
    ensures Inv(hash, Proceed(s, hash, t))
  {
    var s' := Proceed(s, hash, t);
    var more := s.history + [OpOf(s, t).gps];
    forall r | r in s.completed ensures Linearized(hash, more, r) {
      StaysLinearized(hash, s.history, OpOf(s, t).gps, r);
    }
    forall u | u in s'.ops ensures OpOk(hash, more, s'.ops[u]) {
      if u != t {
        assert u !in s.lock.readers;
      }
    }
  }

  lemma StaysLinearized(hash: Hash, history: seq<Groups>, gps: Groups, r: Completed)
    requires AllIndexed(history) && Indexed(gps) && Linearized(hash, history, r)
    ensures Linearized(hash, history + [gps], r)
  {
    var more := history + [gps];
    var v :| r.start <= v <= r.end &&
      match r
      case FindReturned(key, names, results, _, _) => results == Answer(hash, GroupsAt(history, v), key, names)
      case GroupsReturned(read, _, _) => read == Published(history, v);
    assert GroupsAt(more, v) == GroupsAt(history, v) && Published(more, v) == Published(history, v);
  }

  lemma StepKeepsInv(hash: Hash, s: State, a: Action)
    requires Inv(hash, s)
    ensures Inv(hash, Step(s, hash, a))
  {
    var s' := Step(s, hash, a);
    if Enabled(s, a) {
      if a.Advance? {
        var op := OpOf(s, a.t);
        if Reading(op) {
          ReadStep(hash, s, a.t);
        } else if op.UpdateBuilt? || op.UpdateWriting? {
          UpdateStep(hash, s, a.t);
        } else if s' != s {
          OneMoves(hash, s, a.t, s');
        }
      } else {
        OneMoves(hash, s, a.t, s');
      }
    }
  }

  lemma {:induction false} KeepsInv(hash: Hash, s: State, actions: seq<Action>)
    requires Inv(hash, s)
    ensures Inv(hash, Run(s, hash, actions))
  {
    if actions != [] {
      KeepsInv(hash, s, actions[..|actions| - 1]);
      StepKeepsInv(hash, Run(s, hash, actions[..|actions| - 1]), actions[|actions| - 1]);
    }
  }

  lemma RunKeepsInv(hash: Hash, actions: seq<Action>)
    ensures Inv(hash, Run(INITIAL, hash, actions))
  {
    KeepsInv(hash, INITIAL, actions);
  }

  /** In every interleaving, every Find and every Groups is answered by one whole, current update. */
  lemma ReadsAreLinearizable(hash: Hash, actions: seq<Action>)
    ensures AllIndexed(Run(INITIAL, hash, actions).history)
    ensures forall r :: r in Run(INITIAL, hash, actions).completed ==>
      Linearized(hash, Run(INITIAL, hash, actions).history, r)
  {
    RunKeepsInv(hash, actions);
  }

  // ---- calls that return

  lemma {:induction false} RunConcat(s: State, hash: Hash, first: seq<Action>, second: seq<Action>)
    ensures Run(s, hash, first + second) == Run(Run(s, hash, first), hash, second)
    decreases second
  {
    if second == [] {
      assert first + second == first;
    } else {
      var last := |second| - 1;
      assert (first + second)[..|first| + last] == first + second[..last];
      RunConcat(s, hash, first, second[..last]);
    }
  }

  lemma RunLast(s: State, hash: Hash, actions: seq<Action>, a: Action)
    ensures Run(s, hash, actions + [a]) == Step(Run(s, hash, actions), hash, a)
  {
    assert (actions + [a])[..|actions|] == actions;
  }

  /** What has been published and what has been answered stays so. */
  lemma {:induction false} NothingIsTakenBack(s: State, hash: Hash, actions: seq<Action>)
    ensures s.history <= Run(s, hash, actions).history && s.completed <= Run(s, hash, actions).completed
  {
    if actions != [] {
      NothingIsTakenBack(s, hash, actions[..|actions| - 1]);
    }
  }

  ghost predicate Updating(op: Op, gps: Groups) { (op.UpdateBuilt? || op.UpdateWriting?) && op.gps == gps }

  /** A step publishes nothing, or the groups of an Update that then returns. */
  lemma UpdatingStep(s: State, hash: Hash, a: Action, t: Tid)
    ensures
      var s' := Step(s, hash, a);
      && (s'.history == s.history || (a.Advance? && OpOf(s, a.t).UpdateWriting?
          && s'.history == s.history + [OpOf(s, a.t).gps] && OpOf(s', a.t).Idle?))
      && (forall gps :: Updating(OpOf(s, t), gps) && !Updating(OpOf(s', t), gps) ==> s'.history == s.history + [gps])
      && (forall gps :: Updating(OpOf(s', t), gps) ==> Updating(OpOf(s, t), gps) || a == CallUpdate(t, gps))
  {
  }

  lemma {:induction false} UpdatingOrPublished(
    s: State, hash: Hash, t: Tid, gps: Groups, published: nat, actions: seq<Action>)
    requires Updating(OpOf(s, t), gps) && published == |s.history|
    ensures var s' := Run(s, hash, actions);
      |s'.history| >= published && (Updating(OpOf(s', t), gps) || gps in s'.history[published..])
  {
    if actions != [] {
      var front := actions[..|actions| - 1];
      UpdatingOrPublished(s, hash, t, gps, published, front);
      var before, s' := Run(s, hash, front), Run(s, hash, actions);
      UpdatingStep(before, hash, actions[|front|], t);
      assert s'.history[published..] == before.history[published..] + s'.history[|before.history|..];
    }
  }

  /** Whatever happens beside it: an Update that has returned has published its groups since it was called. */
  lemma UpdateIsPublished(hash: Hash, first: seq<Action>, t: Tid, gps: Groups, rest: seq<Action>)
    requires OpOf(Run(INITIAL, hash, first), t).Idle? && Indexed(gps)
    requires OpOf(Run(INITIAL, hash, first + [CallUpdate(t, gps)] + rest), t).Idle?
    ensures
      var before, s' := Run(INITIAL, hash, first), Run(INITIAL, hash, first + [CallUpdate(t, gps)] + rest);
      before.history <= s'.history && gps in s'.history[|before.history|..]
  {
    var before := Run(INITIAL, hash, first);
    RunLast(INITIAL, hash, first, CallUpdate(t, gps));
    RunConcat(INITIAL, hash, first + [CallUpdate(t, gps)], rest);
    var called := Step(before, hash, CallUpdate(t, gps));
    UpdatingOrPublished(called, hash, t, gps, |before.history|, rest);
    NothingIsTakenBack(called, hash, rest);
  }

  /** Nothing else is ever published. */
  lemma {:induction false} OnlyUpdatesArePublished(hash: Hash, actions: seq<Action>)
    ensures forall gps :: gps in Run(INITIAL, hash, actions).history ==> Called(actions, gps)
    ensures forall t, gps :: Updating(OpOf(Run(INITIAL, hash, actions), t), gps) ==> Called(actions, gps)
  {
    if actions != [] {
      var front, a := actions[..|actions| - 1], actions[|actions| - 1];
      OnlyUpdatesArePublished(hash, front);
      var before, s := Run(INITIAL, hash, front), Run(INITIAL, hash, actions);
      forall gps | Called(front, gps) ensures Called(actions, gps) {
        var t :| CallUpdate(t, gps) in front;
      }
      forall t, gps | Updating(OpOf(s, t), gps) ensures Called(actions, gps) {
        UpdatingStep(before, hash, a, t);
        assert a in actions;
      }
      UpdatingStep(before, hash, a, 0);
      if a.Advance? && OpOf(before, a.t).UpdateWriting? {
        assert Updating(OpOf(before, a.t), OpOf(before, a.t).gps);
      }
    }
  }

  ghost predicate Called(actions: seq<Action>, gps: Groups) { exists t :: CallUpdate(t, gps) in actions }

  ghost predicate Finding(op: Op, key: Text, names: seq<Text>, start: nat) {
    match op
    case FindCalled(k, n, b) => k == key && n == names && b == start
    case FindNamed(k, n, b, _, _) => k == key && n == names && b == start && names != []
    case FindAllLocked(k, b) => k == key && names == [] && b == start
    case FindAll(k, b, _, _, _) => k == key && names == [] && b == start
    case _ => false
  }

  ghost predicate Found(completed: seq<Completed>, key: Text, names: seq<Text>, start: nat) {
    exists i :: 0 <= i < |completed| && IsFound(completed[i], key, names, start)
  }

  ghost predicate IsFound(r: Completed, key: Text, names: seq<Text>, start: nat) {
    r.FindReturned? && r.key == key && r.names == names && r.start == start
  }

  lemma FoundWithMore(completed: seq<Completed>, r: Completed, key: Text, names: seq<Text>, start: nat)
    ensures Found(completed, key, names, start) ==> Found(completed + [r], key, names, start)
    ensures IsFound(r, key, names, start) ==> Found(completed + [r], key, names, start)
  {
    if i :| 0 <= i < |completed| && IsFound(completed[i], key, names, start) {
      assert IsFound((completed + [r])[i], key, names, start);
    }
    assert (completed + [r])[|completed|] == r;
  }

  /** A step answers nothing, or a Find that then returns goes on as it was called. */
  lemma FindingStep(s: State, hash: Hash, a: Action, t: Tid, key: Text, names: seq<Text>, start: nat)
    requires Finding(OpOf(s, t), key, names, start)
    ensures
      var s' := Step(s, hash, a);
      && s.completed <= s'.completed && |s'.completed| <= |s.completed| + 1
      && (Finding(OpOf(s', t), key, names, start) ||
          (|s'.completed| == |s.completed| + 1 && IsFound(s'.completed[|s.completed|], key, names, start)))
  {
  }

  lemma {:induction false} FindingOrFound(
    s: State, hash: Hash, t: Tid, key: Text, names: seq<Text>, start: nat, answered: nat, actions: seq<Action>)
    requires Finding(OpOf(s, t), key, names, start) && answered == |s.completed|
    ensures var s' := Run(s, hash, actions);
      && |s'.completed| >= answered
      && (Finding(OpOf(s', t), key, names, start) || Found(s'.completed[answered..], key, names, start))
  {
    if actions != [] {
      var front := actions[..|actions| - 1];
      FindingOrFound(s, hash, t, key, names, start, answered, front);
      var before, s' := Run(s, hash, front), Run(s, hash, actions);
      FoundOrFinding(before, s', hash, actions[|front|], t, key, names, start, answered);
    }
  }

  lemma FoundOrFinding(
    s: State, s': State, hash: Hash, a: Action, t: Tid, key: Text, names: seq<Text>, start: nat, answered: nat)
    requires s' == Step(s, hash, a) && |s.completed| >= answered
    requires Finding(OpOf(s, t), key, names, start) || Found(s.completed[answered..], key, names, start)
    ensures |s'.completed| >= answered
    ensures Finding(OpOf(s', t), key, names, start) || Found(s'.completed[answered..], key, names, start)
  {
    var since := s.completed[answered..];
    CompletedStep(s, hash, a);
    if s'.completed != s.completed {
      var r := s'.completed[|s.completed|];
      assert s'.completed[answered..] == since + [r];
      FoundWithMore(since, r, key, names, start);
    }
    if Finding(OpOf(s, t), key, names, start) {
      FindingStep(s, hash, a, t, key, names, start);
    }
  }

  lemma CompletedStep(s: State, hash: Hash, a: Action)
    ensures var s' := Step(s, hash, a); s.completed <= s'.completed && |s'.completed| <= |s.completed| + 1
  {
  }

  /**
   * Whatever happens beside it: a Find that has returned has got the whole answer of one update that was current
   * between its call and now; so it never misses an Update that had returned before.
   */
  lemma FindIsAnswered(hash: Hash, first: seq<Action>, t: Tid, key: Text, names: seq<Text>, rest: seq<Action>)
    requires OpOf(Run(INITIAL, hash, first), t).Idle?
    requires OpOf(Run(INITIAL, hash, first + [CallFind(t, key, names)] + rest), t).Idle?
    ensures
      var before, s' := Run(INITIAL, hash, first), Run(INITIAL, hash, first + [CallFind(t, key, names)] + rest);
      && before.history <= s'.history && before.completed <= s'.completed && AllIndexed(s'.history)
      && exists i, v ::
        && |before.completed| <= i < |s'.completed| && |before.history| <= v <= |s'.history|
        && s'.completed[i].FindReturned? && s'.completed[i].key == key && s'.completed[i].names == names
        && s'.completed[i].results == Answer(hash, GroupsAt(s'.history, v), key, names)
  {
    var before := Run(INITIAL, hash, first);
    var actions := first + [CallFind(t, key, names)] + rest;
    RunLast(INITIAL, hash, first, CallFind(t, key, names));
    RunConcat(INITIAL, hash, first + [CallFind(t, key, names)], rest);
    var called, s' := Step(before, hash, CallFind(t, key, names)), Run(INITIAL, hash, actions);
    FindingOrFound(called, hash, t, key, names, |before.history|, |before.completed|, rest);
    NothingIsTakenBack(called, hash, rest);
    ReadsAreLinearizable(hash, actions);
    var since := s'.completed[|before.completed|..];
    var i :| 0 <= i < |since| && IsFound(since[i], key, names, |before.history|);
    assert s'.completed[|before.completed| + i] == since[i] && since[i] in s'.completed;
    assert Linearized(hash, s'.history, since[i]);
  }

  /** The same for Groups. */
  lemma GroupsIsAnswered(hash: Hash, first: seq<Action>, t: Tid, rest: seq<Action>)
    requires OpOf(Run(INITIAL, hash, first), t).Idle?
    requires OpOf(Run(INITIAL, hash, first + [CallGroups(t)] + rest), t).Idle?
    ensures
      var before, s' := Run(INITIAL, hash, first), Run(INITIAL, hash, first + [CallGroups(t)] + rest);
      && before.history <= s'.history && before.completed <= s'.completed && AllIndexed(s'.history)
      && exists i, v ::
        && |before.completed| <= i < |s'.completed| && |before.history| <= v <= |s'.history|
        && s'.completed[i].GroupsReturned? && s'.completed[i].read == Published(s'.history, v)
  {
    var before := Run(INITIAL, hash, first);
    var actions := first + [CallGroups(t)] + rest;
    RunLast(INITIAL, hash, first, CallGroups(t));
    RunConcat(INITIAL, hash, first + [CallGroups(t)], rest);
    var called, s' := Step(before, hash, CallGroups(t)), Run(INITIAL, hash, actions);
    ReadingOrRead(called, hash, t, |before.history|, |before.completed|, rest);
    NothingIsTakenBack(called, hash, rest);
    ReadsAreLinearizable(hash, actions);
    var i :| |before.completed| <= i < |s'.completed| && IsRead(s'.completed[i], |before.history|);
    assert s'.completed[i] in s'.completed;
    assert Linearized(hash, s'.history, s'.completed[i]);
  }

  ghost predicate ReadingGroups(op: Op, start: nat) {
    (op.GroupsCalled? || op.GroupsLocked? || op.GroupsRead?) && op.start == start
  }

  ghost predicate IsRead(r: Completed, start: nat) { r.GroupsReturned? && r.start == start }

  lemma GroupsStep(s: State, hash: Hash, a: Action, t: Tid, start: nat)
    requires ReadingGroups(OpOf(s, t), start)
    ensures
      var s' := Step(s, hash, a);
      && (ReadingGroups(OpOf(s', t), start) ||
          (|s'.completed| == |s.completed| + 1 && IsRead(s'.completed[|s.completed|], start)))
  {
  }

  lemma {:induction false} ReadingOrRead(
    s: State, hash: Hash, t: Tid, start: nat, answered: nat, actions: seq<Action>)
    requires ReadingGroups(OpOf(s, t), start) && answered == |s.completed|
    ensures var s' := Run(s, hash, actions);
      && |s'.completed| >= answered
      && (ReadingGroups(OpOf(s', t), start) ||
          exists i :: answered <= i < |s'.completed| && IsRead(s'.completed[i], start))
  {
    if actions != [] {
      var front, a := actions[..|actions| - 1], actions[|actions| - 1];
      ReadingOrRead(s, hash, t, start, answered, front);
      var before, s' := Run(s, hash, front), Run(s, hash, actions);
      CompletedStep(before, hash, a);
      if ReadingGroups(OpOf(before, t), start) {
        GroupsStep(before, hash, a, t, start);
      } else {
        var i :| answered <= i < |before.completed| && IsRead(before.completed[i], start);
        assert IsRead(s'.completed[i], start);
      }
    }
  }

  // ---- calls that nothing overlaps

  function Advances(t: Tid, n: nat): seq<Action> { seq(n, _ => Advance(t)) }

  lemma AdvancesNext(s: State, hash: Hash, t: Tid, n: nat)
    ensures Run(s, hash, Advances(t, n + 1)) == Proceed(Run(s, hash, Advances(t, n)), hash, t)
  {
    assert Advances(t, n + 1) == Advances(t, n) + [Advance(t)];
    RunLast(s, hash, Advances(t, n), Advance(t));
  }

  lemma CallThenAdvances(s: State, hash: Hash, call: Action, t: Tid, n: nat)
    ensures Run(s, hash, [call] + Advances(t, n)) == Run(Step(s, hash, call), hash, Advances(t, n))
  {
    RunConcat(s, hash, [call], Advances(t, n));
    assert [call][..0] == [];
    assert Run(s, hash, [call]) == Step(s, hash, call);
  }

  /** A state but for where one goroutine stands, which may be among the readers. */
  ghost function Where(s: State, t: Tid, op: Op, reading: bool): State {
    State(s.fields, if reading then RWMutex(s.lock.readers + {t}, s.lock.writer) else s.lock, s.ops[t := op],
          s.history, s.completed)
  }

  lemma Moves(s: State, t: Tid, op: Op, next: Op, reading: bool)
    ensures Moved(Where(s, t, op, reading), t, next) == Where(s, t, next, reading)
    ensures Moved(RLock(Where(s, t, op, false), t), t, next) == Where(s, t, next, true)
  {
    assert s.ops[t := op][t := next] == s.ops[t := next];
  }

  lemma MovesOut(s: State, t: Tid, op: Op, r: Completed)
    requires t !in s.lock.readers
    ensures Return(Where(s, t, op, true), t, r) == Where(s, t, Idle, false).(completed := s.completed + [r])
  {
    assert s.ops[t := op][t := Idle] == s.ops[t := Idle];
    assert s.lock.readers + {t} - {t} == s.lock.readers;
  }

  lemma FirstAdvance(s: State, hash: Hash, t: Tid, n: nat)
    ensures Run(s, hash, Advances(t, 1 + n)) == Run(Proceed(s, hash, t), hash, Advances(t, n))
  {
    assert Advances(t, 1 + n) == [Advance(t)] + Advances(t, n);
    CallThenAdvances(s, hash, Advance(t), t, n);
  }

  lemma NoAdvance(s: State, hash: Hash, t: Tid)
    ensures Run(s, hash, Advances(t, 0)) == s
  {
  }

  /** An Update that finds the lock free and is not interrupted publishes its groups, and nothing else changes. */
  lemma WholeUpdate(s: State, hash: Hash, t: Tid, gps: Groups)
    requires OpOf(s, t).Idle? && s.lock == RWMutex({}, None) && Indexed(gps)
    ensures Run(s, hash, [CallUpdate(t, gps)] + Advances(t, 5)) ==
      State(Fields(Some(gps), RingsByName(gps.all), AllRings(gps.all)), RWMutex({}, None), s.ops[t := Idle],
            s.history + [gps], s.completed)
  {
    var byName, rings, before := RingsByName(gps.all), AllRings(gps.all), s.fields;
    CallThenAdvances(s, hash, CallUpdate(t, gps), t, 5);
    var s0 := Step(s, hash, CallUpdate(t, gps));
    var s1 := Writing(s, t, gps, 0, before);
    var s2 := Writing(s, t, gps, 1, before.(groups := Some(gps)));
    var s3 := Writing(s, t, gps, 2, Fields(Some(gps), byName, before.allRings));
    var s4 := Writing(s, t, gps, 3, Fields(Some(gps), byName, rings));
    WritingNext(s, hash, t, gps);
    FirstAdvance(s0, hash, t, 4);
    FirstAdvance(s1, hash, t, 3);
    FirstAdvance(s2, hash, t, 2);
    FirstAdvance(s3, hash, t, 1);
    FirstAdvance(s4, hash, t, 0);
    NoAdvance(Proceed(s4, hash, t), hash, t);
  }

  /** In the middle of an Update of that goroutine. */
  ghost function Writing(s: State, t: Tid, gps: Groups, written: nat, fields: Fields): State {
    var op := UpdateWriting(gps, RingsByName(gps.all), AllRings(gps.all), written);
    State(fields, RWMutex({}, Some(t)), s.ops[t := op], s.history, s.completed)
  }

  lemma WritingNext(s: State, hash: Hash, t: Tid, gps: Groups)
    requires OpOf(s, t).Idle? && s.lock == RWMutex({}, None) && Indexed(gps)
    ensures
      var byName, rings, before := RingsByName(gps.all), AllRings(gps.all), s.fields;
      && Proceed(Step(s, hash, CallUpdate(t, gps)), hash, t) == Writing(s, t, gps, 0, before)
      && Proceed(Writing(s, t, gps, 0, before), hash, t) == Writing(s, t, gps, 1, before.(groups := Some(gps)))
      && Proceed(Writing(s, t, gps, 1, before.(groups := Some(gps))), hash, t) ==
           Writing(s, t, gps, 2, Fields(Some(gps), byName, before.allRings))
      && Proceed(Writing(s, t, gps, 2, Fields(Some(gps), byName, before.allRings)), hash, t) ==
           Writing(s, t, gps, 3, Fields(Some(gps), byName, rings))
      && Proceed(Writing(s, t, gps, 3, Fields(Some(gps), byName, rings)), hash, t) ==
           State(Fields(Some(gps), byName, rings), RWMutex({}, None), s.ops[t := Idle], s.history + [gps], s.completed)
  {
    var byName, rings := RingsByName(gps.all), AllRings(gps.all);
    Overwritten(s.ops, t, UpdateBuilt(gps, byName, rings), UpdateWriting(gps, byName, rings, 0));
    Overwritten(s.ops, t, UpdateWriting(gps, byName, rings, 0), UpdateWriting(gps, byName, rings, 1));
    Overwritten(s.ops, t, UpdateWriting(gps, byName, rings, 1), UpdateWriting(gps, byName, rings, 2));
    Overwritten(s.ops, t, UpdateWriting(gps, byName, rings, 2), UpdateWriting(gps, byName, rings, 3));
    Overwritten(s.ops, t, UpdateWriting(gps, byName, rings, 3), Idle);
  }

  lemma Overwritten(ops: map<Tid, Op>, t: Tid, op: Op, next: Op)
    ensures ops[t := op][t := next] == ops[t := next]
  {
  }

  /** A goroutine outside any call and a lock that no writer holds: the fields are those of the last update. */
  ghost predicate Readable(hash: Hash, s: State, t: Tid) {
    Inv(hash, s) && OpOf(s, t).Idle? && s.lock.writer.None?
  }

  lemma ReadableFields(hash: Hash, s: State, t: Tid)
    requires Readable(hash, s, t)
    ensures AllIndexed(s.history) && s.fields == FieldsFor(s.history) && t !in s.lock.readers
  {
  }

  lemma GroupsSteps(s: State, hash: Hash, t: Tid)
    requires OpOf(s, t).Idle? && s.lock.writer.None? && t !in s.lock.readers
    ensures
      var n, read := |s.history|, s.fields.groups;
      && Step(s, hash, CallGroups(t)) == Where(s, t, GroupsCalled(n), false)
      && Proceed(Where(s, t, GroupsCalled(n), false), hash, t) == Where(s, t, GroupsLocked(n), true)
      && Proceed(Where(s, t, GroupsLocked(n), true), hash, t) == Where(s, t, GroupsRead(n, read), true)
      && Proceed(Where(s, t, GroupsRead(n, read), true), hash, t) ==
           Where(s, t, Idle, false).(completed := s.completed + [GroupsReturned(read, n, n)])
  {
    var n, read := |s.history|, s.fields.groups;
    Moves(s, t, GroupsCalled(n), GroupsLocked(n), false);
    Moves(s, t, GroupsLocked(n), GroupsRead(n, read), true);
    MovesOut(s, t, GroupsRead(n, read), GroupsReturned(read, n, n));
  }

  lemma ThreeAdvances(s0: State, s1: State, s2: State, s3: State, hash: Hash, t: Tid)
    requires Proceed(s0, hash, t) == s1 && Proceed(s1, hash, t) == s2 && Proceed(s2, hash, t) == s3
    ensures Run(s0, hash, Advances(t, 3)) == s3
  {
    FirstAdvance(s0, hash, t, 2);
    FirstAdvance(s1, hash, t, 1);
    FirstAdvance(s2, hash, t, 0);
    NoAdvance(s3, hash, t);
  }

  /** Groups reads what is current, if nothing is being written. */
  lemma WholeGroups(s: State, hash: Hash, t: Tid)
    requires Readable(hash, s, t)
    ensures Run(s, hash, [CallGroups(t)] + Advances(t, 3)) ==
      s.(ops := s.ops[t := Idle],
         completed := s.completed + [GroupsReturned(Published(s.history, |s.history|), |s.history|, |s.history|)])
  {
    var n, read := |s.history|, s.fields.groups;
    ReadableFields(hash, s, t);
    GroupsSteps(s, hash, t);
    CallThenAdvances(s, hash, CallGroups(t), t, 3);
    var s3 := Where(s, t, Idle, false).(completed := s.completed + [GroupsReturned(read, n, n)]);
    ThreeAdvances(Where(s, t, GroupsCalled(n), false), Where(s, t, GroupsLocked(n), true),
                  Where(s, t, GroupsRead(n, read), true), s3, hash, t);
  }

  lemma {:induction false} NamedAdvances(s: State, hash: Hash, t: Tid, key: Text, names: seq<Text>, n: nat)
    requires AllIndexed(s.history) && s.fields == FieldsFor(s.history) && names != [] && n <= |names|
    ensures
      var start, current := |s.history|, GroupsAt(s.history, |s.history|);
      Run(Where(s, t, FindNamed(key, names, start, 0, []), true), hash, Advances(t, n)) ==
        Where(s, t, FindNamed(key, names, start, n, AnswerFor(hash, current, key, names[..n])), true)
  {
    var start, current := |s.history|, GroupsAt(s.history, |s.history|);
    var s0 := Where(s, t, FindNamed(key, names, start, 0, []), true);
    if n == 0 {
      NoAdvance(s0, hash, t);
      assert AnswerFor(hash, current, key, names[..0]) == [];
    } else {
      NamedAdvances(s, hash, t, key, names, n - 1);
      AdvancesNext(s0, hash, t, n - 1);
      var op := FindNamed(key, names, start, n - 1, AnswerFor(hash, current, key, names[..n - 1]));
      var next := OpOf(Proceed(Where(s, t, op, true), hash, t), t);
      Moves(s, t, op, next, true);
      NamedNext(hash, s.history, op, next);
    }
  }

  lemma AllNext(
    s: State, hash: Hash, t: Tid, key: Text, start: nat, rings: seq<Ring>, n: nat, results: seq<Option<Endpoint>>)
    requires n < |rings|
    ensures Proceed(Where(s, t, FindAll(key, start, rings, n, results), true), hash, t) ==
      Where(s, t, FindAll(key, start, rings, n + 1, results + [Nearest(hash, rings[n], key)]), true)
  {
    Moves(s, t, FindAll(key, start, rings, n, results),
          FindAll(key, start, rings, n + 1, results + [Nearest(hash, rings[n], key)]), true);
  }

  lemma AnswerByRings(hash: Hash, gps: Groups, key: Text, n: nat)
    requires Indexed(gps) && n < |AllRings(gps.all)|
    ensures var answer := Answer(hash, gps, key, []);
      |answer| == |AllRings(gps.all)| && answer[..n + 1] == answer[..n] + [Nearest(hash, AllRings(gps.all)[n], key)]
  {
  }

  /** Find begins: with the read lock, and with the rings it is to range over if no group is named. */
  lemma FindBegins(s: State, hash: Hash, t: Tid, key: Text, names: seq<Text>)
    requires OpOf(s, t).Idle? && s.lock.writer.None?
    ensures
      var start, rings := |s.history|, s.fields.allRings;
      && Step(s, hash, CallFind(t, key, names)) == Where(s, t, FindCalled(key, names, start), false)
      && Proceed(Where(s, t, FindCalled(key, names, start), false), hash, t) ==
           Where(s, t, if names == [] then FindAllLocked(key, start) else FindNamed(key, names, start, 0, []), true)
      && Proceed(Where(s, t, FindAllLocked(key, start), true), hash, t) ==
           Where(s, t, FindAll(key, start, rings, 0, []), true)
  {
    var start, rings := |s.history|, s.fields.allRings;
    Moves(s, t, FindCalled(key, names, start), FindNamed(key, names, start, 0, []), false);
    Moves(s, t, FindCalled(key, names, start), FindAllLocked(key, start), false);
    Moves(s, t, FindAllLocked(key, start), FindAll(key, start, rings, 0, []), true);
  }

  lemma FindEnds(s: State, hash: Hash, t: Tid, op: Op, names: seq<Text>)
    requires t !in s.lock.readers
    requires (op.FindNamed? && op.names == names && op.next == |names|) ||
             (op.FindAll? && names == [] && op.next == |op.ranged|)
    ensures Proceed(Where(s, t, op, true), hash, t) ==
      s.(ops := s.ops[t := Idle],
         completed := s.completed + [FindReturned(op.key, names, op.results, op.start, |s.history|)])
  {
    MovesOut(s, t, op, FindReturned(op.key, names, op.results, op.start, |s.history|));
  }

  lemma {:induction false} AllAdvances(s: State, hash: Hash, t: Tid, key: Text, n: nat)
    requires AllIndexed(s.history) && s.fields == FieldsFor(s.history) && n <= |s.fields.allRings|
    ensures
      var start, answer := |s.history|, Answer(hash, GroupsAt(s.history, |s.history|), key, []);
      && |answer| == |s.fields.allRings|
      && Run(Where(s, t, FindAll(key, start, s.fields.allRings, 0, []), true), hash, Advances(t, n)) ==
           Where(s, t, FindAll(key, start, s.fields.allRings, n, answer[..n]), true)
  {
    var start, rings := |s.history|, s.fields.allRings;
    var answer := Answer(hash, GroupsAt(s.history, |s.history|), key, []);
    var s0 := Where(s, t, FindAll(key, start, rings, 0, []), true);
    if n == 0 {
      NoAdvance(s0, hash, t);
      assert answer[..0] == [];
    } else {
      AllAdvances(s, hash, t, key, n - 1);
      AdvancesNext(s0, hash, t, n - 1);
      AnswerByRings(hash, GroupsAt(s.history, start), key, n - 1);
      AllNext(s, hash, t, key, start, rings, n - 1, answer[..n - 1]);
    }
  }

  /** A Find that nothing overlaps returns the answer of what is current. */
  lemma WholeFind(s: State, hash: Hash, t: Tid, key: Text, names: seq<Text>)
    requires Readable(hash, s, t)
    ensures
      var steps := if names == [] then 3 + |s.fields.allRings| else 2 + |names|;
      var answer := Answer(hash, GroupsAt(s.history, |s.history|), key, names);
      Run(s, hash, [CallFind(t, key, names)] + Advances(t, steps)) ==
        s.(ops := s.ops[t := Idle],
           completed := s.completed + [FindReturned(key, names, answer, |s.history|, |s.history|)])
  {
    if names == [] {
      WholeFindAll(s, hash, t, key);
    } else {
      WholeFindNamed(s, hash, t, key, names);
    }
  }

  lemma WholeFindNamed(s: State, hash: Hash, t: Tid, key: Text, names: seq<Text>)
    requires Readable(hash, s, t) && names != []
    ensures
      var answer := AnswerFor(hash, GroupsAt(s.history, |s.history|), key, names);
      Run(s, hash, [CallFind(t, key, names)] + Advances(t, 2 + |names|)) ==
        s.(ops := s.ops[t := Idle],
           completed := s.completed + [FindReturned(key, names, answer, |s.history|, |s.history|)])
  {
    var start, n, current := |s.history|, |names|, GroupsAt(s.history, |s.history|);
    ReadableFields(hash, s, t);
    CallThenAdvances(s, hash, CallFind(t, key, names), t, 2 + n);
    FindBegins(s, hash, t, key, names);
    FirstAdvance(Where(s, t, FindCalled(key, names, start), false), hash, t, 1 + n);
    NamedAdvances(s, hash, t, key, names, n);
    AdvancesNext(Where(s, t, FindNamed(key, names, start, 0, []), true), hash, t, n);
    assert names[..n] == names;
    FindEnds(s, hash, t, FindNamed(key, names, start, n, AnswerFor(hash, current, key, names)), names);
  }

  lemma WholeFindAll(s: State, hash: Hash, t: Tid, key: Text)
    requires Readable(hash, s, t)
    ensures
      var answer := Answer(hash, GroupsAt(s.history, |s.history|), key, []);
      Run(s, hash, [CallFind(t, key, [])] + Advances(t, 3 + |s.fields.allRings|)) ==
        s.(ops := s.ops[t := Idle],
           completed := s.completed + [FindReturned(key, [], answer, |s.history|, |s.history|)])
  {
    var start, rings, n := |s.history|, s.fields.allRings, |s.fields.allRings|;
    ReadableFields(hash, s, t);
    CallThenAdvances(s, hash, CallFind(t, key, []), t, 3 + n);
    FindBegins(s, hash, t, key, []);
    FirstAdvance(Where(s, t, FindCalled(key, [], start), false), hash, t, 2 + n);
    FirstAdvance(Where(s, t, FindAllLocked(key, start), true), hash, t, 1 + n);
    AllAdvances(s, hash, t, key, n);
    AdvancesNext(Where(s, t, FindAll(key, start, rings, 0, []), true), hash, t, n);
    var answer := Answer(hash, GroupsAt(s.history, start), key, []);
    assert answer[..n] == answer;
    FindEnds(s, hash, t, FindAll(key, start, rings, n, answer), []);
  }
}
