/**
  Shared model context with reference counting and delayed unloading (src/whisper/ModelCache.h).

  Every public method and every wake-up of a timer task runs under one mutex, so an execution is a
  sequence of the atomic steps below. `Apply` is the effect of one step, class `ModelCache` the
  source's code for it, and the lemmas speak about all runs, with any number of live timer tasks,
  cancelled ones included.
*/
module ModelCache {
  import opened Common

  /** A timer task has not looked at the cache yet, or sleeps in its timed wait. */
  datatype TimerState = Starting | Sleeping

  /**
    `holders` maps each acquisition not yet released to the context it was given. Contexts are
    numbered by load, so a reloaded model is a different context.
  */
  datatype Cache = Cache(
    ctx: Option<nat>, loadedPath: string, refCount: int, ttl: int, pending: bool, shutdown: bool,
    loads: nat, frees: nat, holders: map<nat, nat>, nextHolder: nat, timers: map<nat, TimerState>, nextTimer: nat)

  datatype Step =
    | Acquire(path: string, loadOk: bool)
    | Release(holder: nat)
    | Configure(ttl: int)
    | ForceUnload
    | TimerWake(timer: nat, timedOut: bool)
    | Shutdown

  const FRESH := Cache(None, "", 0, 300, false, false, 0, 0, map[], 0, map[], 0)

  // ---------------------------------------------------------------- effect of the steps

  function Unloaded(s: Cache): Cache {
    if s.ctx.None? then s else s.(ctx := None, loadedPath := "", refCount := 0, frees := s.frees + 1)
  }

  function Scheduled(s: Cache): Cache {
    s.(pending := true, timers := s.timers[s.nextTimer := Starting], nextTimer := s.nextTimer + 1)
  }

  function Acquired(s: Cache, path: string, loadOk: bool): Cache {
    var s1 := s.(pending := false);
    if s1.ctx.Some? && s1.loadedPath == path then
      s1.(refCount := s1.refCount + 1,
          holders := s1.holders[s1.nextHolder := s1.ctx.value], nextHolder := s1.nextHolder + 1)
    else
      var s2 := if s1.ctx.Some? then s1.(ctx := None, loadedPath := "", frees := s1.frees + 1) else s1;
      if !loadOk then s2
      else
        s2.(ctx := Some(s2.loads), loadedPath := path, refCount := 1, loads := s2.loads + 1,
            holders := s2.holders[s2.nextHolder := s2.loads], nextHolder := s2.nextHolder + 1)
  }

  function Released(s: Cache, holder: nat): Cache {
    var s0 := s.(holders := s.holders - {holder});
    if s0.refCount <= 0 then s0
    else
      var s1 := s0.(refCount := s0.refCount - 1);
      if s1.refCount != 0 then s1
      else if s1.ttl == 0 then Unloaded(s1)
      else if s1.ttl > 0 then Scheduled(s1)
      else s1
  }

  /** The timer holds the mutex: leave if cancelled, act if its time is up, otherwise (re)enter the wait. */
  function TimerRan(s: Cache, timer: nat, timedOut: bool): Cache {
    if timer !in s.timers then s
    else if !s.pending || s.shutdown then s.(timers := s.timers - {timer})
    else if s.timers[timer].Sleeping? && timedOut then
      Unloaded(s).(pending := false, timers := s.timers - {timer})
    else s.(timers := s.timers[timer := Sleeping])
  }

  function Apply(s: Cache, step: Step): Cache {
    match step
    case Acquire(path, loadOk) => Acquired(s, path, loadOk)
    case Release(holder) => if holder in s.holders then Released(s, holder) else s
    case Configure(ttl) => s.(ttl := ttl)
    case ForceUnload => Unloaded(s.(pending := false))
    case TimerWake(timer, timedOut) => TimerRan(s, timer, timedOut)
    case Shutdown => s.(shutdown := true, pending := false)
  }

  function Run(s: Cache, steps: seq<Step>): Cache {
    if steps == [] then s else Apply(Run(s, steps[..|steps| - 1]), steps[|steps| - 1])
  }

  // ---------------------------------------------------------------- safety

  ghost predicate Inv(s: Cache) {
    && s.refCount == |s.holders|
    && (forall h :: h in s.holders ==> s.ctx == Some(s.holders[h]))
    && (forall h :: h in s.holders ==> h < s.nextHolder)
    && (s.pending ==> s.refCount == 0)
    && s.loads == s.frees + (if s.ctx.Some? then 1 else 0)
    && (s.ctx.Some? ==> s.ctx.value == s.loads - 1)
  }

  /** The step frees the context somebody goes on holding. */
  ghost predicate FreesHeld(s: Cache, step: Step) {
    && Apply(s, step).frees > s.frees
    && exists h :: h in s.holders && h in Apply(s, step).holders && s.ctx == Some(s.holders[h])
  }

  /** With holders around, the two calls that ignore them: forced unload, and another model's path. */
  predicate Reckless(s: Cache, step: Step) {
    s.holders != map[] && (step.ForceUnload? || (step.Acquire? && step.path != s.loadedPath))
  }

  lemma CountWithout(m: map<nat, nat>, k: nat)
    requires k in m
    ensures |m - {k}| == |m| - 1
  {
    assert m == (m - {k})[k := m[k]];
    assert (m - {k}).Keys == m.Keys - {k};
  }

  lemma EmptyCount(m: map<nat, nat>)
    ensures |m| == 0 <==> m == map[]
  {
  }

  lemma AcquireKeepsInv(s: Cache, path: string, loadOk: bool)
    requires Inv(s) && !Reckless(s, Acquire(path, loadOk))
    ensures Inv(Acquired(s, path, loadOk))
  {
    EmptyCount(s.holders);
    var s' := Acquired(s, path, loadOk);
    assert s.nextHolder !in s.holders;
    if s'.holders != s.holders {
      assert s'.holders - {s.nextHolder} == s.holders;
      CountWithout(s'.holders, s.nextHolder);
    }
  }

  lemma ReleaseKeepsInv(s: Cache, holder: nat)
    requires Inv(s) && holder in s.holders
    ensures Inv(Released(s, holder))
  {
    CountWithout(s.holders, holder);
    EmptyCount(s.holders - {holder});
  }

  lemma StepKeepsInv(s: Cache, step: Step)
    requires Inv(s) && !Reckless(s, step)
    ensures Inv(Apply(s, step))
  {
    EmptyCount(s.holders);
    match step
    case Acquire(path, loadOk) => AcquireKeepsInv(s, path, loadOk);
    case Release(holder) =>
      if holder in s.holders {
        ReleaseKeepsInv(s, holder);
      }
    case Configure(_) =>
    case ForceUnload =>
    case TimerWake(_, _) =>
    case Shutdown =>
  }

  /** In a consistent cache, a step pulls the context from under a holder exactly when it is reckless. */
  lemma FreesHeldExactlyWhenReckless(s: Cache, step: Step)
    requires Inv(s)
    ensures FreesHeld(s, step) <==> Reckless(s, step)
  {
    EmptyCount(s.holders);
    if Reckless(s, step) {
      var h :| h in s.holders;
      assert h in Apply(s, step).holders;
    } else if step.Release? && step.holder in s.holders {
      CountWithout(s.holders, step.holder);
      EmptyCount(s.holders - {step.holder});
    }
  }

  ghost predicate RecklessAt(steps: seq<Step>, i: int) {
    0 <= i < |steps| && Reckless(Run(FRESH, steps[..i]), steps[i])
  }

  ghost predicate FreesHeldAt(steps: seq<Step>, i: int) {
    0 <= i < |steps| && FreesHeld(Run(FRESH, steps[..i]), steps[i])
  }

  lemma {:induction false} RunKeepsInv(steps: seq<Step>, n: nat)
    requires n <= |steps| && forall i :: i < n ==> !RecklessAt(steps, i)
    ensures Inv(Run(FRESH, steps[..n]))
  {
    if n > 0 {
      RunKeepsInv(steps, n - 1);
      assert steps[..n][..n - 1] == steps[..n - 1];
      assert !RecklessAt(steps, n - 1);
      StepKeepsInv(Run(FRESH, steps[..n - 1]), steps[n - 1]);
    }
  }

  lemma FirstReckless(steps: seq<Step>, i: int) returns (j: nat)
    requires RecklessAt(steps, i)
    ensures RecklessAt(steps, j) && forall k :: k < j ==> !RecklessAt(steps, k)
  {
    j := 0;
    while !RecklessAt(steps, j)
      invariant j <= i
      invariant forall k :: k < j ==> !RecklessAt(steps, k)
      decreases i - j
    {
      j := j + 1;
    }
  }

  /**
    Over every run: a context is freed under a holder if and only if somebody makes a reckless call.
    Timers, failed loads, changed delays and any interleaving of them never do it.
  */
  lemma UseAfterFreeNeedsRecklessCall(steps: seq<Step>)
    ensures (exists i :: FreesHeldAt(steps, i)) <==> (exists i :: RecklessAt(steps, i))
  {
    if i :| RecklessAt(steps, i) {
      var j := FirstReckless(steps, i);
      RunKeepsInv(steps, j);
      FreesHeldExactlyWhenReckless(Run(FRESH, steps[..j]), steps[j]);
      assert FreesHeldAt(steps, j);
    } else {
      forall i ensures !FreesHeldAt(steps, i) {
        if 0 <= i < |steps| {
          RunKeepsInv(steps, i);
          assert !RecklessAt(steps, i);
          FreesHeldExactlyWhenReckless(Run(FRESH, steps[..i]), steps[i]);
        }
      }
    }
  }

  lemma RunOneMore(s: Cache, steps: seq<Step>, step: Step)
    ensures Run(s, steps + [step]) == Apply(Run(s, steps), step)
  {
    assert (steps + [step])[..|steps|] == steps;
  }

  /** Both reckless calls, made while one session holds the model. */
  lemma RecklessCallsFreeHeld()
    ensures FreesHeldAt([Acquire("m", true), ForceUnload], 1)
    ensures FreesHeldAt([Acquire("m", true), Acquire("n", true)], 1)
  {
    var a := Acquire("m", true);
    RunOneMore(FRESH, [], a);
    var s := Run(FRESH, [a]);
    assert [] + [a] == [a] && [a, ForceUnload][..1] == [a] && [a, Acquire("n", true)][..1] == [a];
    assert 0 in s.holders && s.ctx == Some(s.holders[0]) && s.holders != map[];
    assert 0 in Apply(s, ForceUnload).holders && 0 in Apply(s, Acquire("n", true)).holders;
  }

  /** What every run without reckless calls guarantees its callers. */
  lemma DisciplinedSafety(steps: seq<Step>)
    requires forall i :: !RecklessAt(steps, i)
    ensures Safe(Run(FRESH, steps))
  {
    RunKeepsInv(steps, |steps|);
    assert steps[..|steps|] == steps;
    EmptyCount(Run(FRESH, steps).holders);
  }

  ghost predicate Safe(s: Cache) {
    && (s.holders != map[] ==> s.ctx.Some? && !s.pending)
    && (forall h :: h in s.holders ==> s.ctx == Some(s.holders[h]))
    && s.loads - s.frees == (if s.ctx.Some? then 1 else 0)
    && s.refCount == |s.holders|
  }

  predicate OnePath(steps: seq<Step>, path: string) {
    forall i :: 0 <= i < |steps| ==> !steps[i].ForceUnload? && (steps[i].Acquire? ==> steps[i].path == path)
  }

  predicate LoadedFrom(s: Cache, path: string) {
    s.ctx.Some? ==> s.loadedPath == path
  }

  lemma OnePathStep(s: Cache, step: Step, path: string)
    requires Inv(s) && LoadedFrom(s, path) && !step.ForceUnload? && (step.Acquire? ==> step.path == path)
    ensures !Reckless(s, step) && Inv(Apply(s, step)) && LoadedFrom(Apply(s, step), path)
  {
    EmptyCount(s.holders);
    assert !Reckless(s, step) by {
      if s.holders != map[] {
        var h :| h in s.holders;
      }
    }
    StepKeepsInv(s, step);
  }

  lemma RecklessInPrefix(steps: seq<Step>, n: nat, i: int)
    requires n <= |steps| && i < n
    ensures RecklessAt(steps[..n], i) <==> RecklessAt(steps, i)
  {
    if 0 <= i {
      assert steps[..n][..i] == steps[..i];
    }
  }

  lemma {:induction false} OnePathIsNotReckless(steps: seq<Step>, path: string, i: int)
    requires OnePath(steps, path)
    ensures !RecklessAt(steps, i)
    ensures Inv(Run(FRESH, steps)) && LoadedFrom(Run(FRESH, steps), path)
  {
    if steps != [] {
      var n := |steps| - 1;
      OnePathIsNotReckless(steps[..n], path, i);
      OnePathStep(Run(FRESH, steps[..n]), steps[n], path);
      if i < n {
        RecklessInPrefix(steps, n, i);
      }
    }
  }

  /**
    With one model path and no forced unload, in every interleaving of acquires, failed loads, releases,
    changed delays and any number of live or stale timers: a held context is the loaded one, no unload
    is pending while anybody holds it, and loads and frees balance.
  */
  lemma LifetimeSafety(steps: seq<Step>, path: string)
    requires OnePath(steps, path)
    ensures Safe(Run(FRESH, steps))
  {
    forall i ensures !RecklessAt(steps, i) {
      OnePathIsNotReckless(steps, path, i);
    }
    DisciplinedSafety(steps);
  }

  // ---------------------------------------------------------------- every reference counts

  /** The acquire gets a context: the right one is there, or the loader brings it. */
  predicate Succeeds(s: Cache, step: Step) {
    step.Acquire? && (step.loadOk || (s.ctx.Some? && s.loadedPath == step.path))
  }

  predicate GivesBack(s: Cache, step: Step) {
    step.Release? && step.holder in s.holders
  }

  /** A successful acquire makes one new holder of the loaded model; a failed one makes none and loads nothing. */
  lemma AcquireSays(s: Cache, path: string, loadOk: bool)
    requires Inv(s)
    ensures var s' := Apply(s, Acquire(path, loadOk));
      && !s'.pending && s'.timers == s.timers
      && (Succeeds(s, Acquire(path, loadOk)) ==>
            s'.ctx.Some? && s'.loadedPath == path && s'.holders == s.holders[s.nextHolder := s'.ctx.value])
      && (!Succeeds(s, Acquire(path, loadOk)) ==> s'.ctx.None? && s'.holders == s.holders)
      && (s.ctx.Some? && s.loadedPath == path ==> s'.ctx == s.ctx && s'.loads == s.loads)
  {
  }

  /**
    A release takes away exactly its holder. While others are left nothing else changes; the last one
    unloads the model, or starts one new timer and leaves it loaded, or leaves it loaded for good, as
    the time to live is zero, positive or negative.
  */
  lemma ReleaseSays(s: Cache, h: nat)
    requires Inv(s) && h in s.holders
    ensures var s' := Apply(s, Release(h));
      && s'.holders == s.holders - {h} && s'.refCount == s.refCount - 1
      && (s'.holders != map[] || s.ttl < 0 ==> s'.ctx == s.ctx && !s'.pending && s'.timers == s.timers)
      && (s'.holders == map[] && s.ttl == 0 ==> s'.ctx.None? && !s'.pending && s'.timers == s.timers)
      && (s'.holders == map[] && s.ttl > 0 ==>
            s'.ctx == s.ctx && s'.pending && s'.timers == s.timers[s.nextTimer := Starting])
  {
    ReleaseKeepsInv(s, h);
    EmptyCount(s.holders - {h});
    assert s.holders != map[];
  }

  /** The timer whose time is up unloads the model and is done; any other look leaves the model alone. */
  lemma TimerSays(s: Cache, timer: nat, timedOut: bool)
    requires timer in s.timers
    ensures var s' := Apply(s, TimerWake(timer, timedOut));
      && s'.holders == s.holders
      && (s.pending && !s.shutdown ==>
            if s.timers[timer].Sleeping? && timedOut then s'.ctx.None? && !s'.pending && s'.timers == s.timers - {timer}
            else s'.ctx == s.ctx && s'.pending && s'.timers == s.timers[timer := Sleeping])
      && (!s.pending || s.shutdown ==>
            s'.ctx == s.ctx && s'.pending == s.pending && s'.timers == s.timers - {timer})
  {
  }

  /** How many acquires of the run got a context. */
  function Acquires(steps: seq<Step>): nat {
    if steps == [] then 0
    else
      var init := steps[..|steps| - 1];
      Acquires(init) + if Succeeds(Run(FRESH, init), steps[|steps| - 1]) then 1 else 0
  }

  /** How many releases of the run were by a holder. */
  function Releases(steps: seq<Step>): nat {
    if steps == [] then 0
    else
      var init := steps[..|steps| - 1];
      Releases(init) + if GivesBack(Run(FRESH, init), steps[|steps| - 1]) then 1 else 0
  }

  lemma StepCounts(s: Cache, step: Step)
    requires Inv(s) && !Reckless(s, step)
    ensures Apply(s, step).refCount ==
      s.refCount + (if Succeeds(s, step) then 1 else 0) - if GivesBack(s, step) then 1 else 0
  {
    EmptyCount(s.holders);
    if step.Release? && step.holder in s.holders {
      ReleaseSays(s, step.holder);
    }
  }

  ghost predicate NeverReckless(steps: seq<Step>) {
    forall i :: !RecklessAt(steps, i)
  }

  /** The last step of such a run, and what it does to the count. */
  lemma LastStepCounts(steps: seq<Step>, init: seq<Step>, last: Step)
    requires NeverReckless(steps) && steps == init + [last]
    ensures NeverReckless(init)
    ensures var s, s' := Run(FRESH, init), Run(FRESH, steps);
      s'.refCount == s.refCount + (if Succeeds(s, last) then 1 else 0) - if GivesBack(s, last) then 1 else 0
  {
    var n := |init|;
    assert steps[..n] == init && !RecklessAt(steps, n);
    forall i ensures !RecklessAt(init, i) {
      if i < n {
        RecklessInPrefix(steps, n, i);
      }
    }
    RunKeepsInv(steps, n);
    StepCounts(Run(FRESH, init), last);
  }

  lemma {:induction false} CountIsBalance(steps: seq<Step>)
    requires NeverReckless(steps)
    ensures Run(FRESH, steps).refCount == Acquires(steps) - Releases(steps)
  {
    if steps != [] {
      var init, last := steps[..|steps| - 1], steps[|steps| - 1];
      LastStepCounts(steps, init, last);
      CountIsBalance(init);
    }
  }

  /**
    Over every run without reckless calls the count is the acquires that got a context less the releases
    by holders, timers, failed loads and changed delays notwithstanding.
  */
  lemma CountIsAcquiresLessReleases(steps: seq<Step>)
    requires forall i :: !RecklessAt(steps, i)
    ensures Run(FRESH, steps).refCount == |Run(FRESH, steps).holders| == Acquires(steps) - Releases(steps)
  {
    DisciplinedSafety(steps);
    CountIsBalance(steps);
  }

  // ---------------------------------------------------------------- stale timers

  /** The step that ends timer `t`: it looks and finds itself cancelled, or its time is up. */
  predicate Ends(s: Cache, step: Step, t: nat) {
    && step.TimerWake? && step.timer == t && t in s.timers
    && (!s.pending || s.shutdown || (s.timers[t].Sleeping? && step.timedOut))
  }

  ghost predicate EndedAt(s: Cache, steps: seq<Step>, i: int, t: nat) {
    0 <= i < |steps| && Ends(Run(s, steps[..i]), steps[i], t)
  }

  lemma EndedInPrefix(s: Cache, steps: seq<Step>, n: nat, i: int, t: nat)
    requires n <= |steps| && i < n
    ensures EndedAt(s, steps[..n], i, t) <==> EndedAt(s, steps, i, t)
  {
    if 0 <= i {
      assert steps[..n][..i] == steps[..i];
    }
  }

  /** A timer is alive exactly as long as it has not itself looked at a moment that ends it. */
  lemma {:induction false} TimerOutlives(s: Cache, steps: seq<Step>, t: nat)
    requires t in s.timers && t < s.nextTimer
    ensures t < Run(s, steps).nextTimer
    ensures t in Run(s, steps).timers <==> forall i :: !EndedAt(s, steps, i, t)
  {
    if steps != [] {
      var n := |steps| - 1;
      TimerOutlives(s, steps[..n], t);
      TimerStep(Run(s, steps[..n]), steps[n], t);
      forall i | i < n ensures EndedAt(s, steps[..n], i, t) <==> EndedAt(s, steps, i, t) {
        EndedInPrefix(s, steps, n, i, t);
      }
      LastOrBefore(s, steps, n, t);
    }
  }

  lemma LastOrBefore(s: Cache, steps: seq<Step>, n: nat, t: nat)
    requires n == |steps| - 1
    requires forall i :: i < n ==> (EndedAt(s, steps[..n], i, t) <==> EndedAt(s, steps, i, t))
    ensures (forall i :: !EndedAt(s, steps, i, t)) <==>
      (forall i :: !EndedAt(s, steps[..n], i, t)) && !Ends(Run(s, steps[..n]), steps[n], t)
  {
    assert EndedAt(s, steps, n, t) <==> Ends(Run(s, steps[..n]), steps[n], t);
    forall i ensures i >= n ==> !EndedAt(s, steps[..n], i, t) {
    }
  }

  lemma TimerStep(s: Cache, step: Step, t: nat)
    requires t < s.nextTimer
    ensures s.nextTimer <= Apply(s, step).nextTimer
    ensures t in Apply(s, step).timers <==> t in s.timers && !Ends(s, step, t)
  {
  }

  /** Wake-ups of timers other than the one of the pending unload. */
  predicate OlderWakes(s: Cache, steps: seq<Step>) {
    forall i :: 0 <= i < |steps| ==> steps[i].TimerWake? && steps[i].timer != s.nextTimer - 1
  }

  lemma {:induction false} NoOlderTimerNoChange(s: Cache, steps: seq<Step>)
    requires OlderWakes(s, steps) && forall t :: t in s.timers ==> t == s.nextTimer - 1
    ensures Run(s, steps) == s
  {
    if steps != [] {
      NoOlderTimerNoChange(s, steps[..|steps| - 1]);
    }
  }

  /**
    A pending unload can come before its own timer if and only if an older timer is still alive. So the
    time to live is kept exactly when every cancelled timer has looked before the next schedule.
  */
  lemma FreedEarlyExactlyIfAnOlderTimerLives(s: Cache)
    requires s.pending && !s.shutdown && s.ctx.Some?
    ensures (exists steps :: OlderWakes(s, steps) && Run(s, steps).ctx.None?) <==>
      (exists t :: t in s.timers && t != s.nextTimer - 1)
  {
    if t :| t in s.timers && t != s.nextTimer - 1 {
      var look, fire := TimerWake(t, false), TimerWake(t, true);
      RunOneMore(s, [], look);
      RunOneMore(s, [look], fire);
      assert [] + [look] == [look] && [look] + [fire] == [look, fire];
      assert OlderWakes(s, [look, fire]) && Run(s, [look, fire]).ctx.None?;
    } else {
      forall steps | OlderWakes(s, steps) ensures Run(s, steps).ctx.Some? {
        NoOlderTimerNoChange(s, steps);
      }
    }
  }

  /** A run with such a timer: cancelled while asleep, it survives into the next schedule and fires early. */
  lemma StaleTimerFires()
    ensures var s := Run(FRESH, [Acquire("m", true), Release(0), TimerWake(0, false), Acquire("m", true), Release(1)]);
      && s.timers == map[0 := Sleeping, 1 := Starting]
      && s.ctx.Some? && Apply(s, TimerWake(0, true)).ctx.None?
  {
    var a, r, t := Acquire("m", true), Release(0), TimerWake(0, false);
    RunOneMore(FRESH, [], a);
    RunOneMore(FRESH, [a], r);
    RunOneMore(FRESH, [a, r], t);
    RunOneMore(FRESH, [a, r, t], a);
    RunOneMore(FRESH, [a, r, t, a], Release(1));
    assert [a, r, t, a] + [Release(1)] == [a, r, t, a, Release(1)];
    assert [] + [a] == [a] && [a] + [r] == [a, r] && [a, r] + [t] == [a, r, t] && [a, r, t] + [a] == [a, r, t, a];
  }

  // ---------------------------------------------------------------- the source's code

  class ModelCache {
    var ctx: Option<nat>
    var loadedPath: string
    var refCount: int
    var ttlSeconds: int
    var unloadPending: bool
    var shutdown: bool
    var loads: nat   // stands for what the loader returns
    ghost var frees: nat
    ghost var holders: map<nat, nat>
    ghost var nextHolder: nat
    ghost var timers: map<nat, TimerState>
    ghost var nextTimer: nat

    ghost function View(): Cache
      reads this
    {
      Cache(ctx, loadedPath, refCount, ttlSeconds, unloadPending, shutdown,
            loads, frees, holders, nextHolder, timers, nextTimer)
    }

    constructor ()
      ensures View() == FRESH && ttlSeconds == 300 && ctx.None? && refCount == 0
    {
      ctx, loadedPath, refCount, ttlSeconds, unloadPending, shutdown := None, "", 0, 300, false, false;
      loads, frees, holders, nextHolder, timers, nextTimer := 0, 0, map[], 0, map[], 0;
    }

    method SetTtl(ttl: int)
      modifies this
      ensures View() == Apply(old(View()), Configure(ttl)) && ttlSeconds == ttl
    {
      ttlSeconds := ttl;
    }

    /** `loadOk` says whether the foreign loader returns a context; the result is None where the source throws. */
    method Acquire(path: string, loadOk: bool) returns (r: Option<nat>)
      modifies this
      ensures View() == Apply(old(View()), Step.Acquire(path, loadOk))
      ensures r.None? ==> ctx.None? && !loadOk
      ensures r.Some? ==> r == ctx && loadedPath == path && nextHolder == old(nextHolder) + 1
    {
      CancelUnloadLocked();
      if ctx.Some? && loadedPath == path {
        refCount := refCount + 1;
        holders, nextHolder := holders[nextHolder := ctx.value], nextHolder + 1;
        return ctx;
      }
      if ctx.Some? {
        ctx, loadedPath, frees := None, "", frees + 1;
      }
      if !loadOk {
        return None;
      }
      var id := loads;
      ctx := Some(id);
      loadedPath, refCount, loads := path, 1, loads + 1;
      holders, nextHolder := holders[nextHolder := id], nextHolder + 1;
      return ctx;
    }

    /** One of the holders lets go; without any reference the call is ignored. */
    method Release(ghost holder: nat)
      requires holder in holders || refCount <= 0
      modifies this
      ensures View() == Apply(old(View()), Step.Release(holder))
    {
      if refCount <= 0 {
        holders := if holder in holders then holders - {holder} else holders;
        return;
      }
      holders := holders - {holder};
      refCount := refCount - 1;
      if refCount == 0 {
        if ttlSeconds == 0 {
          UnloadLocked();
        } else if ttlSeconds > 0 {
          ScheduleUnloadLocked();
        }
      }
    }

    method ForceUnload()
      modifies this
      ensures View() == Apply(old(View()), Step.ForceUnload)
      ensures ctx.None? && !unloadPending && (old(ctx).Some? ==> refCount == 0)
    {
      CancelUnloadLocked();
      UnloadLocked();
    }

    /** A timer task with the mutex in hand, fresh or woken; returns whether it is finished. */
    method TimerBody(ghost timer: nat, sleeping: bool, timedOut: bool) returns (done: bool)
      requires timer in timers && sleeping == timers[timer].Sleeping?
      modifies this
      ensures View() == Apply(old(View()), TimerWake(timer, timedOut))
      ensures done <==> timer !in timers
    {
      var cancelled := !unloadPending || shutdown;
      if !cancelled && !(sleeping && timedOut) {
        timers := timers[timer := Sleeping];
        return false;
      }
      if unloadPending && !shutdown {
        UnloadLocked();
        unloadPending := false;
      }
      timers := timers - {timer};
      return true;
    }

    method UnloadLocked()
      modifies this
      ensures View() == Unloaded(old(View()))
    {
      if ctx.Some? {
        ctx, loadedPath, refCount, frees := None, "", 0, frees + 1;
      }
    }

    method CancelUnloadLocked()
      modifies this
      ensures View() == old(View()).(pending := false)
    {
      if unloadPending {
        unloadPending := false;
      }
    }

    method ScheduleUnloadLocked()
      modifies this
      ensures View() == Scheduled(old(View()))
    {
      unloadPending := true;
      timers, nextTimer := timers[nextTimer := Starting], nextTimer + 1;
    }
  }
}
