/**
 * service/ingester.go: Start and Stop calls from any number of goroutines, and the background
 * goroutines that they start and cancel.
 */
module IngestChecking {
  import opened Wrappers

  type Tid = nat
  type Ctx = nat

  /** A background goroutine: waiting in select, inside Ingest, or gone. */
  datatype Phase = Selecting | Ingesting | Exited

  datatype Goroutine = Goroutine(ctx: Ctx, phase: Phase)

  /** `cancelFunc` cancels the context it was made with; contexts are numbered in the order they are made. */
  datatype Core = Core(cancelFunc: Option<Ctx>, made: nat, canceled: set<Ctx>, running: seq<Goroutine>)

  /** What Start and Stop are to do, each as a whole. */
  function Started(c: Core): Core {
    if c.cancelFunc.None? then Core(Some(c.made), c.made + 1, c.canceled, c.running + [Goroutine(c.made, Selecting)])
    else c
  }

  function Stopped(c: Core): Core {
    if c.cancelFunc.Some? then c.(cancelFunc := None, canceled := c.canceled + {c.cancelFunc.value}) else c
  }

  /** A goroutine that was not told to stop. */
  predicate Active(c: Core, g: int) {
    0 <= g < |c.running| && c.running[g].ctx !in c.canceled
  }

  /** One goroutine that was not told to stop, still there, if there is a cancelFunc; none otherwise. */
  ghost predicate OneIfStarted(c: Core) {
    if c.cancelFunc.Some? then
      exists g :: Active(c, g) && !c.running[g].phase.Exited? && c.running[g].ctx == c.cancelFunc.value
                  && forall h :: Active(c, h) ==> h == g
    else
      forall h :: !Active(c, h)
  }

  /** Contexts that are in use have been made. */
  ghost predicate Numbered(c: Core) {
    && (forall h :: 0 <= h < |c.running| ==> c.running[h].ctx < c.made)
    && (forall x :: x in c.canceled ==> x < c.made)
  }

  // ---- the code, one call at a time

  class IngestChecker {
    var cancelFunc: Option<Ctx>
    var made: nat
    var canceled: set<Ctx>
    var running: seq<Goroutine>

    function Contents(): Core
      reads this
    {
      Core(cancelFunc, made, canceled, running)
    }

    ghost predicate Valid()
      reads this
    {
      OneIfStarted(Contents()) && Numbered(Contents())
    }

    constructor ()
      ensures Valid() && cancelFunc.None? && running == []
    {
      cancelFunc, made, canceled, running := None, 0, {}, [];
    }

    /** Afterwards exactly one goroutine is active; nothing changes if that was so before. */
    method Start()
      requires Valid()
      modifies this
      ensures Valid() && Contents() == Started(old(Contents()))
      ensures cancelFunc.Some? && exists g :: Active(Contents(), g) && forall h :: Active(Contents(), h) ==> h == g
      ensures (exists g :: Active(old(Contents()), g)) ==> Contents() == old(Contents())
      ensures old(running) <= running
    {
      ghost var before := Contents();
      RepeatedCalls(before);
      if cancelFunc.None? {
        var ctx := made;
        made := made + 1;
        cancelFunc := Some(ctx);
        running := running + [Goroutine(ctx, Selecting)];
      }
      assert Contents() == Started(before);
    }

    /** Afterwards no goroutine is active, but all are still where they were; nothing changes if none was active. */
    method Stop()
      requires Valid()
      modifies this
      ensures Valid() && Contents() == Stopped(old(Contents()))
      ensures cancelFunc.None? && forall h :: !Active(Contents(), h)
      ensures (forall g :: !Active(old(Contents()), g)) ==> Contents() == old(Contents())
      ensures running == old(running)
    {
      RepeatedCalls(Contents());
      if cancelFunc.Some? {
        canceled := canceled + {cancelFunc.value};
        cancelFunc := None;
      }
    }

    /** One turn of the loop in run: with a canceled context, select may still prefer a tick. */
    method Turn(g: nat) returns (ingests: bool)
      requires Valid() && g < |running| && running[g].phase.Selecting?
      modifies `running
      ensures Valid() && Active(Contents(), g) == old(Active(Contents(), g))
      ensures old(Active(Contents(), g)) ==> ingests
      ensures running == old(running)[g := Goroutine(old(running)[g].ctx, if ingests then Ingesting else Exited)]
    {
      ghost var before := Contents();
      ingests := true;
      if running[g].ctx in canceled {
        ingests := *;
      }
      running := running[g := running[g].(phase := if ingests then Ingesting else Exited)];
      PhaseKeeps(before, g, running[g].phase);
    }

    /** Ingest returns, and the loop comes to its select again. */
    method Returned(g: nat)
      requires Valid() && g < |running| && running[g].phase.Ingesting?
      modifies `running
      ensures Valid() && Active(Contents(), g) == old(Active(Contents(), g))
      ensures running == old(running)[g := Goroutine(old(running)[g].ctx, Selecting)]
    {
      PhaseKeeps(Contents(), g, Selecting);
      running := running[g := running[g].(phase := Selecting)];
    }
  }

  /** A goroutine that is not active may do anything, the active one anything but exit. */
  lemma PhaseKeeps(c: Core, g: nat, phase: Phase)
    requires OneIfStarted(c) && g < |c.running| && (phase.Exited? ==> !Active(c, g))
    ensures OneIfStarted(c.(running := c.running[g := c.running[g].(phase := phase)]))
  {
    var c' := c.(running := c.running[g := c.running[g].(phase := phase)]);
    assert forall h :: Active(c', h) <==> Active(c, h);
    if c.cancelFunc.Some? {
      var k :| Active(c, k) && !c.running[k].phase.Exited? && c.running[k].ctx == c.cancelFunc.value
               && forall h :: Active(c, h) ==> h == k;
      assert Active(c', k);
    }
  }

  // ---- the code, one step at a time

  datatype Op =
    | Idle
    | StartCalled | StartLocked | StartMade(ctx: Ctx)
    | StopCalled | StopLocked | StopCanceled
    | Unlocking

  datatype State = State(core: Core, runLock: Option<Tid>, ops: map<Tid, Op>)

  const INITIAL := State(Core(None, 0, {}, []), None, map[])

  datatype Action =
    | CallStart(t: Tid)
    | CallStop(t: Tid)
    | Advance(t: Tid)
    | Tick(g: nat)       // the ticker fires and select takes it: Ingest is called
    | Finish(g: nat)     // Ingest returns
    | Exit(g: nat)       // select takes the canceled context

  function OpOf(s: State, t: Tid): Op { if t in s.ops then s.ops[t] else Idle }

  function Moved(s: State, t: Tid, op: Op): State { s.(ops := s.ops[t := op]) }

  function Proceed(s: State, t: Tid): State {
    match OpOf(s, t)
    case Idle => s
    case StartCalled => if s.runLock.None? then Moved(s, t, StartLocked).(runLock := Some(t)) else s
    case StopCalled => if s.runLock.None? then Moved(s, t, StopLocked).(runLock := Some(t)) else s
    case StartLocked =>
      if s.core.cancelFunc.None? then
        Moved(s, t, StartMade(s.core.made)).(core := s.core.(cancelFunc := Some(s.core.made), made := s.core.made + 1))
      else Moved(s, t, Unlocking)
    case StartMade(ctx) =>
      Moved(s, t, Unlocking).(core := s.core.(running := s.core.running + [Goroutine(ctx, Selecting)]))
    case StopLocked =>
      if s.core.cancelFunc.Some? then
        Moved(s, t, StopCanceled).(core := s.core.(canceled := s.core.canceled + {s.core.cancelFunc.value}))
      else Moved(s, t, Unlocking)
    case StopCanceled => Moved(s, t, Unlocking).(core := s.core.(cancelFunc := None))
    case Unlocking => Moved(s, t, Idle).(runLock := None)
  }

  function InPhase(s: State, g: nat, phase: Phase): State
    requires g < |s.core.running|
  {
    s.(core := s.core.(running := s.core.running[g := s.core.running[g].(phase := phase)]))
  }

  /** A step that is not possible does nothing. */
  function Step(s: State, a: Action): State {
    match a
    case CallStart(t) => if OpOf(s, t).Idle? then Moved(s, t, StartCalled) else s
    case CallStop(t) => if OpOf(s, t).Idle? then Moved(s, t, StopCalled) else s
    case Advance(t) => Proceed(s, t)
    case Tick(g) => if g < |s.core.running| && s.core.running[g].phase.Selecting? then InPhase(s, g, Ingesting) else s
    case Finish(g) => if g < |s.core.running| && s.core.running[g].phase.Ingesting? then InPhase(s, g, Selecting) else s
    case Exit(g) =>
      if g < |s.core.running| && s.core.running[g].phase.Selecting? && !Active(s.core, g)
      then InPhase(s, g, Exited)
      else s
  }

  function Run(s: State, actions: seq<Action>): State {
    if actions == [] then s else Step(Run(s, actions[..|actions| - 1]), actions[|actions| - 1])
  }

  // ---- what every interleaving keeps

  predicate Holding(op: Op) { !op.Idle? && !op.StartCalled? && !op.StopCalled? }

  /** The goroutines and the cancelFunc agree, but for what the holder of the lock is in the middle of. */
  ghost predicate CoreOk(c: Core, op: Op) {
    match op
    case StartMade(ctx) =>
      && c.cancelFunc == Some(ctx) && ctx < c.made && ctx !in c.canceled
      && (forall h :: !Active(c, h)) && forall h :: 0 <= h < |c.running| ==> c.running[h].ctx != ctx
    case StopCanceled => c.cancelFunc.Some? && forall h :: !Active(c, h)
    case _ => OneIfStarted(c)
  }

  ghost predicate Inv(s: State) {
    && (forall t :: t in s.ops && Holding(s.ops[t]) <==> s.runLock == Some(t))
    && Numbered(s.core)
    && (s.core.cancelFunc.Some? ==> s.core.cancelFunc.value < s.core.made)
    && (forall h :: Active(s.core, h) ==> !s.core.running[h].phase.Exited?)
    && CoreOk(s.core, if s.runLock.Some? then OpOf(s, s.runLock.value) else Idle)
  }

  lemma GoroutineStep(s: State, g: nat, phase: Phase)
    requires Inv(s) && g < |s.core.running|
    requires phase.Exited? ==> !Active(s.core, g)
    ensures Inv(InPhase(s, g, phase))
  {
    var c, c' := s.core, InPhase(s, g, phase).core;
    assert forall h :: Active(c', h) <==> Active(c, h);
    if OneIfStarted(c) {
      PhaseKeeps(c, g, phase);
    }
  }

  lemma CallerStep(s: State, t: Tid)
    requires Inv(s)
    ensures Inv(Proceed(s, t))
  {
    var s' := Proceed(s, t);
    var c, c' := s.core, s'.core;
    if Holding(OpOf(s, t)) {
      assert s.runLock == Some(t);
      match OpOf(s, t)
      case StartLocked =>
        assert forall h :: Active(c', h) <==> Active(c, h);
      case StartMade(ctx) =>
        var g := |c.running|;
        assert forall h :: h < g ==> (Active(c', h) <==> Active(c, h));
        assert Active(c', g) && c'.running[g] == Goroutine(ctx, Selecting);
      case StopLocked =>
        assert forall h :: Active(c', h) ==> Active(c, h);
      case StopCanceled =>
        assert forall h :: Active(c', h) <==> Active(c, h);
      case Unlocking =>
    }
  }

  lemma {:induction false} RunKeepsInv(actions: seq<Action>)
    ensures Inv(Run(INITIAL, actions))
  {
    if actions != [] {
      var s, a := Run(INITIAL, actions[..|actions| - 1]), actions[|actions| - 1];
      RunKeepsInv(actions[..|actions| - 1]);
      match a
      case Advance(t) => CallerStep(s, t);
      case Tick(g) => if Step(s, a) != s { GoroutineStep(s, g, Ingesting); }
      case Finish(g) => if Step(s, a) != s { GoroutineStep(s, g, Selecting); }
      case Exit(g) => if Step(s, a) != s { GoroutineStep(s, g, Exited); }
      case _ =>
    }
  }

  /** Whenever the lock is free, exactly one goroutine is active if there is a cancelFunc and none otherwise. */
  lemma OneActiveWhenUnlocked(actions: seq<Action>)
    ensures var s := Run(INITIAL, actions); s.runLock.None? ==> OneIfStarted(s.core)
  {
    RunKeepsInv(actions);
  }

  /** Not even while the lock is held can there be two active goroutines: of two, one was told to stop. */
  lemma NeverTwoActive(actions: seq<Action>, g: nat, h: nat)
    requires Active(Run(INITIAL, actions).core, g) && Active(Run(INITIAL, actions).core, h)
    ensures g == h && !Run(INITIAL, actions).core.running[g].phase.Exited?
  {
    RunKeepsInv(actions);
  }

  /** Whole calls keep that, and repeating one changes nothing further. */
  lemma RepeatedCalls(c: Core)
    requires OneIfStarted(c) && Numbered(c)
    ensures OneIfStarted(Started(c)) && Numbered(Started(c)) && Started(Started(c)) == Started(c)
    ensures OneIfStarted(Stopped(c)) && Numbered(Stopped(c)) && Stopped(Stopped(c)) == Stopped(c)
  {
    var started, stopped := Started(c), Stopped(c);
    if c.cancelFunc.None? {
      var g := |c.running|;
      assert forall h :: h < g ==> (Active(started, h) <==> Active(c, h));
      assert Active(started, g);
    }
    assert forall h :: Active(stopped, h) ==> Active(c, h);
  }

  // ---- whole calls, and a Stop that does not wait

  function Whole(call: Action, t: Tid): seq<Action> { [call, Advance(t), Advance(t), Advance(t), Advance(t)] }

  lemma FiveSteps(s: State, a: Action, b: Action, c: Action, d: Action, e: Action)
    ensures Run(s, [a, b, c, d, e]) == Step(Step(Step(Step(Step(s, a), b), c), d), e)
  {
    assert [a, b, c, d, e][..4] == [a, b, c, d];
    assert [a, b, c, d][..3] == [a, b, c];
    assert [a, b, c][..2] == [a, b];
    assert [a, b][..1] == [a];
    assert [a][..0] == [];
    assert Run(s, [a]) == Step(s, a);
    assert Run(s, [a, b]) == Step(Step(s, a), b);
    assert Run(s, [a, b, c]) == Step(Step(Step(s, a), b), c);
    assert Run(s, [a, b, c, d]) == Step(Step(Step(Step(s, a), b), c), d);
  }

  /** A call that is not interrupted does what Start or Stop is to do. */
  lemma WholeCalls(s: State, t: Tid)
    requires OpOf(s, t).Idle? && s.runLock.None?
    ensures var s' := Run(s, Whole(CallStart(t), t));
      s'.core == Started(s.core) && s'.runLock.None? && OpOf(s', t).Idle?
    ensures var s' := Run(s, Whole(CallStop(t), t)); s'.core == Stopped(s.core) && s'.runLock.None? && OpOf(s', t).Idle?
  {
    WholeStart(s, t);
    WholeStop(s, t);
  }

  lemma WholeStart(s: State, t: Tid)
    requires OpOf(s, t).Idle? && s.runLock.None?
    ensures var s' := Run(s, Whole(CallStart(t), t));
      s'.core == Started(s.core) && s'.runLock.None? && OpOf(s', t).Idle?
  {
    var a := Advance(t);
    FiveSteps(s, CallStart(t), a, a, a, a);
    var s1 := Step(Step(s, CallStart(t)), a);
    assert OpOf(s1, t) == StartLocked && s1.core == s.core;
  }

  lemma WholeStop(s: State, t: Tid)
    requires OpOf(s, t).Idle? && s.runLock.None?
    ensures var s' := Run(s, Whole(CallStop(t), t)); s'.core == Stopped(s.core) && s'.runLock.None? && OpOf(s', t).Idle?
  {
    var a := Advance(t);
    FiveSteps(s, CallStop(t), a, a, a, a);
    var s1 := Step(Step(s, CallStop(t)), a);
    assert OpOf(s1, t) == StopLocked && s1.core == s.core;
  }

  lemma {:induction false} RunConcat(s: State, first: seq<Action>, second: seq<Action>)
    ensures Run(s, first + second) == Run(Run(s, first), second)
    decreases second
  {
    if second == [] {
      assert first + second == first;
    } else {
      var last := |second| - 1;
      assert (first + second)[..|first| + last] == first + second[..last];
      RunConcat(s, first, second[..last]);
    }
  }

  // ---- when there is only one goroutine

  ghost predicate NoneLeft(c: Core) { forall g :: 0 <= g < |c.running| ==> c.running[g].phase.Exited? }

  ghost predicate OneLeft(c: Core) {
    forall g, h :: 0 <= g < |c.running| && 0 <= h < |c.running| &&
        !c.running[g].phase.Exited? && !c.running[h].phase.Exited?
      ==> g == h
  }

  ghost predicate Spawns(s: State, a: Action) { |Step(s, a).core.running| > |s.core.running| }

  ghost predicate AlwaysOneLeft(actions: seq<Action>) {
    forall n :: 0 <= n <= |actions| ==> OneLeft(Run(INITIAL, actions[..n]).core)
  }

  /** Whenever a Start starts a goroutine, all the earlier ones have exited. */
  ghost predicate StartsFindNone(actions: seq<Action>) {
    forall n :: 0 <= n < |actions| && Spawns(Run(INITIAL, actions[..n]), actions[n]) ==>
        NoneLeft(Run(INITIAL, actions[..n]).core)
  }

  lemma SpawnedIsLeft(s: State, a: Action)
    ensures NoneLeft(s.core) ==> OneLeft(Step(s, a).core)
    ensures !Spawns(s, a) && OneLeft(s.core) ==> OneLeft(Step(s, a).core)
    ensures Spawns(s, a) && OneLeft(Step(s, a).core) ==> NoneLeft(s.core)
  {
    var c, c' := s.core, Step(s, a).core;
    if Spawns(s, a) {
      assert c'.running[..|c.running|] == c.running && !c'.running[|c.running|].phase.Exited?;
      assert forall g :: 0 <= g < |c.running| ==> c'.running[g] == c.running[g];
    }
  }

  lemma RunStep(actions: seq<Action>, n: nat)
    requires n < |actions|
    ensures Run(INITIAL, actions[..n + 1]) == Step(Run(INITIAL, actions[..n]), actions[n])
  {
    assert actions[..n + 1][..n] == actions[..n];
  }

  /** There is at no time more than one goroutine, in whatever state, exactly if every one started finds the others
      gone. */
  lemma OneLeftIff(actions: seq<Action>)
    ensures AlwaysOneLeft(actions) <==> StartsFindNone(actions)
  {
    if AlwaysOneLeft(actions) {
      forall n | 0 <= n < |actions| && Spawns(Run(INITIAL, actions[..n]), actions[n])
        ensures NoneLeft(Run(INITIAL, actions[..n]).core)
      {
        RunStep(actions, n);
        assert OneLeft(Run(INITIAL, actions[..n + 1]).core);
        SpawnedIsLeft(Run(INITIAL, actions[..n]), actions[n]);
      }
    }
    if StartsFindNone(actions) {
      forall n | 0 <= n <= |actions| ensures OneLeft(Run(INITIAL, actions[..n]).core) {
        OneLeftUpTo(actions, n);
      }
    }
  }

  lemma {:induction false} OneLeftUpTo(actions: seq<Action>, n: nat)
    requires n <= |actions| && StartsFindNone(actions)
    ensures OneLeft(Run(INITIAL, actions[..n]).core)
  {
    if n > 0 {
      OneLeftUpTo(actions, n - 1);
      RunStep(actions, n - 1);
      SpawnedIsLeft(Run(INITIAL, actions[..n - 1]), actions[n - 1]);
    }
  }

  /** Start, a tick, Stop and Start again: the first goroutine may still be inside Ingest beside the second. */
  lemma TwoGoroutinesAtOnce(t: Tid)
    ensures exists actions :: var c := Run(INITIAL, actions).core;
      && |c.running| == 2 && c.running[0].phase.Ingesting? && c.running[1].phase.Selecting?
      && !Active(c, 0) && Active(c, 1)
  {
    var start, stop := Whole(CallStart(t), t), Whole(CallStop(t), t);
    var s1 := Run(INITIAL, start);
    WholeCalls(INITIAL, t);
    var s2 := Run(INITIAL, start + [Tick(0)]);
    assert (start + [Tick(0)])[..5] == start;
    assert s2 == Step(s1, Tick(0));
    WholeCalls(s2, t);
    var s3 := Run(s2, stop);
    WholeCalls(s3, t);
    RunConcat(INITIAL, start + [Tick(0)], stop);
    RunConcat(INITIAL, start + [Tick(0)] + stop, start);
  }

  /** Start, a tick, Ingest returns, Stop, and the canceled goroutine exits. */
  function ThereAndGone(t: Tid): seq<Action> {
    Whole(CallStart(t), t) + [Tick(0)] + [Finish(0)] + Whole(CallStop(t), t) + [Exit(0)]
  }

  lemma OneIsGone(t: Tid)
    ensures var s := Run(INITIAL, ThereAndGone(t));
      s.core == Core(None, 1, {0}, [Goroutine(0, Exited)]) && s.runLock.None? && OpOf(s, t).Idle?
  {
    var start, stop := Whole(CallStart(t), t), Whole(CallStop(t), t);
    WholeStart(INITIAL, t);
    var s1 := Run(INITIAL, start);
    assert s1.core == Core(Some(0), 1, {}, [Goroutine(0, Selecting)]);
    RunOne(INITIAL, start, Tick(0));
    RunOne(INITIAL, start + [Tick(0)], Finish(0));
    var s3 := Run(INITIAL, start + [Tick(0)] + [Finish(0)]);
    assert s3.core == s1.core && s3.runLock.None? && OpOf(s3, t).Idle?;
    StopAndExit(s3, t);
    RunConcat(INITIAL, start + [Tick(0)] + [Finish(0)], stop);
    RunOne(INITIAL, start + [Tick(0)] + [Finish(0)] + stop, Exit(0));
  }

  lemma StopAndExit(s: State, t: Tid)
    requires s.core == Core(Some(0), 1, {}, [Goroutine(0, Selecting)]) && s.runLock.None? && OpOf(s, t).Idle?
    ensures var s' := Step(Run(s, Whole(CallStop(t), t)), Exit(0));
      s'.core == Core(None, 1, {0}, [Goroutine(0, Exited)]) && s'.runLock.None? && OpOf(s', t).Idle?
  {
    WholeStop(s, t);
  }

  /** With a Start after that there is never more than one left. */
  lemma OneAfterTheOther(t: Tid)
    ensures exists actions ::
      && AlwaysOneLeft(actions)
      && Run(INITIAL, actions).core == Core(Some(1), 2, {0}, [Goroutine(0, Exited), Goroutine(1, Selecting)])
  {
    var first, start := ThereAndGone(t), Whole(CallStart(t), t);
    OneIsGone(t);
    WholeStart(Run(INITIAL, first), t);
    RunConcat(INITIAL, first, start);
    NoneLeftBetween(first, start);
    OneLeftIff(first + start);
  }

  /** Goroutines are only added, and those that have exited stay so. */
  lemma {:induction false} ExitedStays(s: State, actions: seq<Action>)
    ensures var c := Run(s, actions).core;
      && |s.core.running| <= |c.running|
      && forall g :: 0 <= g < |s.core.running| && s.core.running[g].phase.Exited? ==> c.running[g].phase.Exited?
  {
    if actions != [] {
      ExitedStays(s, actions[..|actions| - 1]);
    }
  }

  lemma NoneLeftBetween(first: seq<Action>, second: seq<Action>)
    requires |Run(INITIAL, first).core.running| == 1 && Run(INITIAL, first).core.running[0].phase.Exited?
    requires |Run(INITIAL, first + second).core.running| == 2
    ensures StartsFindNone(first + second)
  {
    var all := first + second;
    forall n | 0 <= n < |all| && Spawns(Run(INITIAL, all[..n]), all[n]) ensures NoneLeft(Run(INITIAL, all[..n]).core) {
      SizesGrow(all, n);
      if n < |first| {
        assert all[..n] == first[..n] && all[n] == first[n];
        SizesGrow(first, n);
      } else {
        assert all[..n] == first + second[..n - |first|];
        LaterRun(first, second[..n - |first|]);
      }
    }
  }

  /** A step that starts a goroutine leaves one more behind, to the end of the run. */
  lemma SizesGrow(actions: seq<Action>, n: nat)
    requires n < |actions| && Spawns(Run(INITIAL, actions[..n]), actions[n])
    ensures |Run(INITIAL, actions[..n]).core.running| < |Run(INITIAL, actions).core.running|
  {
    RunStep(actions, n);
    assert actions[..n + 1] + actions[n + 1..] == actions;
    LaterRun(actions[..n + 1], actions[n + 1..]);
  }

  lemma LaterRun(first: seq<Action>, second: seq<Action>)
    ensures var c, c' := Run(INITIAL, first).core, Run(INITIAL, first + second).core;
      && |c.running| <= |c'.running|
      && forall g :: 0 <= g < |c.running| && c.running[g].phase.Exited? ==> c'.running[g].phase.Exited?
  {
    RunConcat(INITIAL, first, second);
    ExitedStays(Run(INITIAL, first), second);
  }

  lemma RunOne(s: State, actions: seq<Action>, a: Action)
    ensures Run(s, actions + [a]) == Step(Run(s, actions), a)
  {
    assert (actions + [a])[..|actions|] == actions;
  }

  /** Select may prefer a tick to the canceled context: after Start and Stop the goroutine may still call Ingest. */
  lemma CanceledMayIngest(t: Tid)
    ensures exists actions ::
      Run(INITIAL, actions).core == Core(None, 1, {0}, [Goroutine(0, Ingesting)])
  {
    var start, stop := Whole(CallStart(t), t), Whole(CallStop(t), t);
    WholeStart(INITIAL, t);
    var s := Run(INITIAL, start);
    assert s.core == Core(Some(0), 1, {}, [Goroutine(0, Selecting)]);
    WholeStop(s, t);
    RunConcat(INITIAL, start, stop);
    RunOne(INITIAL, start + stop, Tick(0));
  }
}
