/**
  Semaphore for decoder slots (src/whisper/InferenceLimiter.h).

  A mutex, a counter, a changeable limit and one condition variable. An execution is a sequence of
  the atomic steps below: the critical sections of the public methods, and what a condition variable
  may do to its waiters (notification, spurious wake-up, expiry). Non-blocking acquires may barge in
  front of waiters that have been notified but do not hold the mutex yet.
*/
module InferenceLimiter {

  /**
    Attempts are numbered. A waiter is asleep in the condition variable, or awake (notified,
    spuriously woken or timed out) and still to take the mutex and look at the counter.
    `guards` are the attempts that own a slot.
  */
  datatype Limiter = Limiter(
    active: int, max: int, guards: set<nat>, asleep: map<nat, bool>, awake: map<nat, Waking>, next: nat)

  datatype Waking = Waking(timed: bool, expired: bool)

  datatype Step =
    | Wait(timed: bool)               // acquire, try_acquire_for: up to the first look at the counter
    | Try                             // try_acquire
    | Wake(waiter: nat)               // spurious wake-up
    | Expire(waiter: nat)             // a timed wait runs out
    | Relock(waiter: nat)             // an awake waiter gets the mutex back
    | Release(guard: nat, pick: nat)  // release; the condition variable wakes `pick`
    | SetMax(max: int)

  const FRESH := Limiter(0, 4, {}, map[], map[], 0)

  function Granted(s: Limiter, id: nat): Limiter {
    s.(active := s.active + 1, guards := s.guards + {id})
  }

  function Woken(s: Limiter, waiter: nat, expired: bool): Limiter {
    if waiter !in s.asleep then s
    else s.(asleep := s.asleep - {waiter}, awake := s.awake[waiter := Waking(s.asleep[waiter], expired)])
  }

  function Relocked(s: Limiter, waiter: nat): Limiter {
    if waiter !in s.awake then s
    else
      var w, s1 := s.awake[waiter], s.(awake := s.awake - {waiter});
      if s1.active < s1.max then Granted(s1, waiter)
      else if w.expired then s1
      else s1.(asleep := s1.asleep[waiter := w.timed])
  }

  function AllWoken(s: Limiter): Limiter {
    s.(asleep := map[], awake := s.awake + map t | t in s.asleep :: Waking(s.asleep[t], false))
  }

  /** A step that cannot happen changes nothing. `notify_one` must pick a sleeper if there is one. */
  function Apply(s: Limiter, step: Step): Limiter {
    match step
    case Wait(timed) =>
      var s1 := s.(next := s.next + 1);
      if s.active < s.max then Granted(s1, s.next) else s1.(asleep := s1.asleep[s.next := timed])
    case Try =>
      if s.active < s.max then Granted(s.(next := s.next + 1), s.next) else s
    case Wake(waiter) => Woken(s, waiter, false)
    case Expire(waiter) => if waiter in s.asleep && s.asleep[waiter] then Woken(s, waiter, true) else s
    case Relock(waiter) => Relocked(s, waiter)
    case Release(guard, pick) =>
      if guard !in s.guards || (s.asleep != map[] && pick !in s.asleep) then s
      else
        var s1 := s.(guards := s.guards - {guard});
        if s1.active > 0 then Woken(s1.(active := s1.active - 1), pick, false) else s1
    case SetMax(max) => if max > 0 then AllWoken(s.(max := max)) else s
  }

  function Run(s: Limiter, steps: seq<Step>): Limiter {
    if steps == [] then s else Apply(Run(s, steps[..|steps| - 1]), steps[|steps| - 1])
  }

  // ---------------------------------------------------------------- invariant

  ghost predicate Accounted(s: Limiter) {
    && s.active == |s.guards|
    && s.max > 0
    && (forall id :: id in s.guards ==> id < s.next && id !in s.asleep && id !in s.awake)
    && (forall id :: id in s.asleep ==> id < s.next && id !in s.awake)
    && (forall id :: id in s.awake ==> id < s.next)
  }

  /** While somebody sleeps, every free slot has an awake waiter on its way to it. */
  predicate NoLostWakeup(s: Limiter) {
    s.asleep != map[] ==> |s.awake| >= s.max - s.active
  }

  ghost predicate Inv(s: Limiter) {
    Accounted(s) && NoLostWakeup(s)
  }

  lemma RemoveKey<V>(m: map<nat, V>, k: nat)
    requires k in m
    ensures |m - {k}| == |m| - 1
  {
    assert (m - {k}).Keys == m.Keys - {k};
  }

  lemma AddKey<V>(m: map<nat, V>, k: nat, v: V)
    requires k !in m
    ensures |m[k := v]| == |m| + 1
  {
    assert m[k := v].Keys == m.Keys + {k};
  }

  lemma WokenKeepsInv(s: Limiter, waiter: nat, expired: bool)
    requires Accounted(s) && waiter in s.asleep
    requires |s.awake| + 1 >= s.max - s.active
    ensures Inv(Woken(s, waiter, expired))
  {
    AddKey(s.awake, waiter, Waking(s.asleep[waiter], expired));
  }

  lemma RelockKeepsInv(s: Limiter, waiter: nat)
    requires Inv(s) && waiter in s.awake
    ensures Inv(Relocked(s, waiter))
  {
    RemoveKey(s.awake, waiter);
    assert waiter !in s.guards;
  }

  lemma ReleaseKeepsInv(s: Limiter, guard: nat, pick: nat)
    requires Inv(s) && guard in s.guards && (s.asleep != map[] ==> pick in s.asleep)
    ensures Inv(Apply(s, Release(guard, pick)))
  {
    var s1 := s.(guards := s.guards - {guard}, active := s.active - 1);
    assert |s1.guards| == |s.guards| - 1;
    if pick in s.asleep {
      assert s.asleep != map[];
      WokenKeepsInv(s1, pick, false);
    }
  }

  lemma GrantKeepsInv(s: Limiter)
    requires Inv(s) && s.active < s.max
    ensures Inv(Granted(s.(next := s.next + 1), s.next))
  {
    assert s.next !in s.guards;
  }

  lemma SleepKeepsInv(s: Limiter, timed: bool)
    requires Inv(s) && s.active >= s.max
    ensures Inv(s.(next := s.next + 1, asleep := s.asleep[s.next := timed]))
  {
  }

  lemma AllWokenKeepsInv(s: Limiter, max: int)
    requires Inv(s) && max > 0
    ensures Inv(AllWoken(s.(max := max)))
  {
  }

  lemma StepKeepsInv(s: Limiter, step: Step)
    requires Inv(s)
    ensures Inv(Apply(s, step))
  {
    match step
    case Wait(timed) =>
      if s.active < s.max {
        GrantKeepsInv(s);
      } else {
        SleepKeepsInv(s, timed);
      }
    case Try =>
      if s.active < s.max {
        GrantKeepsInv(s);
      }
    case Wake(waiter) =>
      if waiter in s.asleep {
        WokenKeepsInv(s, waiter, false);
      }
    case Expire(waiter) =>
      if waiter in s.asleep {
        WokenKeepsInv(s, waiter, true);
      }
    case Relock(waiter) =>
      if waiter in s.awake {
        RelockKeepsInv(s, waiter);
      }
    case Release(guard, pick) =>
      if guard in s.guards && (s.asleep != map[] ==> pick in s.asleep) {
        ReleaseKeepsInv(s, guard, pick);
      }
    case SetMax(max) =>
      if max > 0 {
        AllWokenKeepsInv(s, max);
      }
  }

  /** Every interleaving: slots are accounted for and no wake-up is lost. */
  lemma {:induction false} RunKeepsInv(steps: seq<Step>)
    ensures Inv(Run(FRESH, steps))
  {
    if steps != [] {
      RunKeepsInv(steps[..|steps| - 1]);
      StepKeepsInv(Run(FRESH, steps[..|steps| - 1]), steps[|steps| - 1]);
    }
  }

  // ---------------------------------------------------------------- consequences

  /** Highest limit in force at any time of the run. */
  function HighestMax(steps: seq<Step>): int {
    if steps == [] then 4
    else
      var before, last := HighestMax(steps[..|steps| - 1]), steps[|steps| - 1];
      if last.SetMax? && last.max > before then last.max else before
  }

  lemma GrantsRespectLimit(s: Limiter, step: Step)
    requires Inv(s)
    ensures Apply(s, step).active > s.active ==> Apply(s, step).active == s.active + 1 <= s.max
  {
  }

  lemma LimitAfter(s: Limiter, step: Step)
    ensures Apply(s, step).max == if step.SetMax? && step.max > 0 then step.max else s.max
  {
  }

  /** Slots in use never exceed the highest limit there has been; lowering the limit evicts nobody. */
  lemma {:induction false} CountingSafety(steps: seq<Step>)
    ensures var s := Run(FRESH, steps);
      s.active == |s.guards| <= HighestMax(steps) && s.max <= HighestMax(steps)
  {
    RunKeepsInv(steps);
    if steps != [] {
      var init := steps[..|steps| - 1];
      CountingSafety(init);
      RunKeepsInv(init);
      GrantsRespectLimit(Run(FRESH, init), steps[|steps| - 1]);
      LimitAfter(Run(FRESH, init), steps[|steps| - 1]);
    }
  }

  /** At no step of any run is a slot taken beyond the limit in force. */
  lemma EveryGrantRespectsTheLimit(steps: seq<Step>, i: nat)
    requires i < |steps|
    ensures var s, s' := Run(FRESH, steps[..i]), Run(FRESH, steps[..i + 1]);
      s'.active > s.active ==> s'.active == s.active + 1 <= s.max && s'.active == |s'.guards|
  {
    RunKeepsInv(steps[..i]);
    RunKeepsInv(steps[..i + 1]);
    assert steps[..i + 1][..i] == steps[..i];
    GrantsRespectLimit(Run(FRESH, steps[..i]), steps[i]);
  }

  // ---------------------------------------------------------------- every slot counts

  /** The step hands a slot to attempt `TakerOf(s, step)`. */
  predicate Grants(s: Limiter, step: Step) {
    s.active < s.max && (step.Wait? || step.Try? || (step.Relock? && step.waiter in s.awake))
  }

  function TakerOf(s: Limiter, step: Step): nat {
    if step.Relock? then step.waiter else s.next
  }

  /** A guard gives its slot back; whoever sleeps, one of them is picked. */
  predicate Frees(s: Limiter, step: Step) {
    step.Release? && step.guard in s.guards && (s.asleep != map[] ==> step.pick in s.asleep)
  }

  /**
    A slot is taken exactly by the one that asks for it while there is room, and given back exactly by
    its guard; no other step touches slots or guards.
  */
  lemma SlotsSay(s: Limiter, step: Step)
    requires Inv(s)
    ensures var s' := Apply(s, step);
      if Grants(s, step) then s'.active == s.active + 1 && s'.guards == s.guards + {TakerOf(s, step)}
      else if Frees(s, step) then s'.active == s.active - 1 && s'.guards == s.guards - {step.guard}
      else s'.active == s.active && s'.guards == s.guards
    ensures Grants(s, step) ==> TakerOf(s, step) !in s.guards && TakerOf(s, step) !in Apply(s, step).asleep
  {
    match step
    case Release(guard, pick) => ReleaseFrees(s, guard, pick);
    case Relock(waiter) => RelockTakes(s, waiter);
    case Wait(_) => AskerIsNew(s);
    case Try => AskerIsNew(s);
    case _ => OthersLeaveSlots(s, step);
  }

  lemma AskerIsNew(s: Limiter)
    requires Inv(s)
    ensures s.next !in s.guards && s.next !in s.asleep
  {
  }

  lemma OthersLeaveSlots(s: Limiter, step: Step)
    requires step.Wake? || step.Expire? || step.SetMax?
    ensures Apply(s, step).active == s.active && Apply(s, step).guards == s.guards
  {
  }

  lemma ReleaseFrees(s: Limiter, guard: nat, pick: nat)
    requires Inv(s)
    ensures var s' := Apply(s, Release(guard, pick));
      if Frees(s, Release(guard, pick)) then s'.active == s.active - 1 && s'.guards == s.guards - {guard}
      else s'.active == s.active && s'.guards == s.guards
  {
    if guard in s.guards {
      assert s.active > 0;
    }
  }

  lemma RelockTakes(s: Limiter, waiter: nat)
    requires Inv(s)
    ensures var s' := Apply(s, Relock(waiter));
      if Grants(s, Relock(waiter)) then
        s'.active == s.active + 1 && s'.guards == s.guards + {waiter} && waiter !in s.guards && waiter !in s'.asleep
      else s'.active == s.active && s'.guards == s.guards
  {
  }

  /** A release wakes exactly the sleeper that is picked, whose time is not up by that, and nobody else. */
  lemma ReleaseWakesOne(s: Limiter, guard: nat, pick: nat)
    requires Inv(s) && Frees(s, Release(guard, pick))
    ensures var s' := Apply(s, Release(guard, pick));
      if s.asleep == map[] then s'.asleep == map[] && s'.awake == s.awake
      else s'.asleep == s.asleep - {pick} && s'.awake == s.awake[pick := Waking(s.asleep[pick], false)]
  {
    assert s.active > 0;
  }

  /**
    Without room an acquire sleeps, and an awake waiter that looks at the counter sleeps again as it did
    before, unless its time is up.
  */
  lemma NoRoomSleeps(s: Limiter, timed: bool, waiter: nat)
    requires s.active >= s.max
    ensures var s' := Apply(s, Wait(timed)); s'.asleep == s.asleep[s.next := timed] && s'.awake == s.awake
    ensures waiter in s.awake ==>
      var s', w := Apply(s, Relock(waiter)), s.awake[waiter];
      s'.awake == s.awake - {waiter} && s'.asleep == if w.expired then s.asleep else s.asleep[waiter := w.timed]
  {
  }

  /** Only a timed wait can run out, and a new limit wakes everybody, with time left. */
  lemma WakingSays(s: Limiter, waiter: nat, max: int)
    ensures waiter in s.asleep && s.asleep[waiter] ==>
      var s' := Apply(s, Expire(waiter));
      s'.asleep == s.asleep - {waiter} && s'.awake == s.awake[waiter := Waking(true, true)]
    ensures waiter in s.asleep && !s.asleep[waiter] ==> Apply(s, Expire(waiter)) == s
    ensures max > 0 ==>
      var s' := Apply(s, SetMax(max));
      && s'.max == max && s'.asleep == map[]
      && (waiter in s.asleep ==> waiter in s'.awake && s'.awake[waiter] == Waking(s.asleep[waiter], false))
  {
  }

  function GrantCount(steps: seq<Step>): nat {
    if steps == [] then 0
    else
      var init := steps[..|steps| - 1];
      GrantCount(init) + if Grants(Run(FRESH, init), steps[|steps| - 1]) then 1 else 0
  }

  function FreeCount(steps: seq<Step>): nat {
    if steps == [] then 0
    else
      var init := steps[..|steps| - 1];
      FreeCount(init) + if Frees(Run(FRESH, init), steps[|steps| - 1]) then 1 else 0
  }

  /**
    Over every run the slots in use are those granted less those given back; so a limiter whose guards
    have all let go has room again.
  */
  lemma {:induction false} SlotsAreGrantsLessReleases(steps: seq<Step>)
    ensures Run(FRESH, steps).active == |Run(FRESH, steps).guards| == GrantCount(steps) - FreeCount(steps)
    ensures GrantCount(steps) == FreeCount(steps) ==> Run(FRESH, steps).active == 0 < Run(FRESH, steps).max
  {
    RunKeepsInv(steps);
    if steps != [] {
      var init := steps[..|steps| - 1];
      SlotsAreGrantsLessReleases(init);
      RunKeepsInv(init);
      SlotsSay(Run(FRESH, init), steps[|steps| - 1]);
    }
  }

  function Relocks(waiters: seq<nat>): (steps: seq<Step>)
    ensures |steps| == |waiters|
  {
    if waiters == [] then [] else Relocks(waiters[..|waiters| - 1]) + [Relock(waiters[|waiters| - 1])]
  }

  lemma RelockWakesNobody(s: Limiter, waiter: nat)
    ensures Apply(s, Relock(waiter)).awake == s.awake - {waiter}
  {
    if waiter !in s.awake {
      assert s.awake - {waiter} == s.awake;
    }
  }

  /** Letting awake waiters run, in any order, leaves none of them awake and wakes nobody else. */
  lemma {:induction false} RelocksDrain(s: Limiter, waiters: seq<nat>)
    requires Inv(s)
    ensures Inv(Run(s, Relocks(waiters)))
    ensures forall w :: w in Run(s, Relocks(waiters)).awake ==> w in s.awake && w !in waiters
  {
    if waiters != [] {
      var init, last := waiters[..|waiters| - 1], waiters[|waiters| - 1];
      RelocksDrain(s, init);
      assert Relocks(waiters)[..|waiters| - 1] == Relocks(init);
      StepKeepsInv(Run(s, Relocks(init)), Relock(last));
      RelockWakesNobody(Run(s, Relocks(init)), last);
      assert waiters == init + [last];
    }
  }

  /**
    From any reachable state, once every awake waiter has taken the mutex, no waiter sleeps beside a
    free slot.
  */
  lemma NobodySleepsBesideAFreeSlot(steps: seq<Step>, waiters: seq<nat>)
    requires forall w :: w in Run(FRESH, steps).awake ==> w in waiters
    ensures var s := Run(Run(FRESH, steps), Relocks(waiters));
      s.asleep == map[] || s.active >= s.max
  {
    RunKeepsInv(steps);
    RelocksDrain(Run(FRESH, steps), waiters);
    assert Run(Run(FRESH, steps), Relocks(waiters)).awake == map[];
  }

  // ---------------------------------------------------------------- the source's code

  /** The waiters of the condition variable are ghost; blocking methods are split at the wait. */
  class InferenceLimiter {
    var activeCount: int
    var maxConcurrent: int
    ghost var guards: set<nat>
    ghost var asleep: map<nat, bool>
    ghost var awake: map<nat, Waking>
    ghost var next: nat

    ghost function View(): Limiter
      reads this
    {
      Limiter(activeCount, maxConcurrent, guards, asleep, awake, next)
    }

    constructor ()
      ensures View() == FRESH
    {
      activeCount, maxConcurrent := 0, 4;
      guards, asleep, awake, next := {}, map[], map[], 0;
    }

    method SetMaxConcurrency(max: int)
      modifies this
      ensures View() == Apply(old(View()), SetMax(max))
    {
      if max > 0 {
        maxConcurrent := max;
        awake := awake + map t | t in asleep :: Waking(asleep[t], false);
        asleep := map[];
      }
    }

    method HasCapacity() returns (r: bool)
      ensures r <==> activeCount < maxConcurrent
    {
      r := activeCount < maxConcurrent;
    }

    method TryAcquire() returns (acquired: bool)
      modifies this
      ensures View() == Apply(old(View()), Try)
      ensures acquired <==> old(HasRoom())
      ensures guards == if acquired then old(guards) + {old(next)} else old(guards)
    {
      if activeCount < maxConcurrent {
        activeCount := activeCount + 1;
        guards, next := guards + {next}, next + 1;
        return true;
      }
      return false;
    }

    ghost predicate HasRoom()
      reads this
    {
      activeCount < maxConcurrent
    }

    /** Start of `acquire` (not timed) and `try_acquire_for` (timed): take a slot or go to sleep. */
    method AcquireOrSleep(ghost timed: bool) returns (acquired: bool)
      modifies this
      ensures View() == Apply(old(View()), Wait(timed))
      ensures acquired <==> old(HasRoom())
      ensures guards == if acquired then old(guards) + {old(next)} else old(guards)
      ensures asleep == if acquired then old(asleep) else old(asleep)[old(next) := timed]
    {
      ghost var id := next;
      next := next + 1;
      if activeCount < maxConcurrent {
        activeCount := activeCount + 1;
        guards := guards + {id};
        return true;
      }
      asleep := asleep[id := timed];
      return false;
    }

    /** The same two methods on waking up; a timed wait that has expired gives up instead of sleeping on. */
    method RelockAndRecheck(ghost waiter: nat, expired: bool) returns (acquired: bool, waiting: bool)
      requires waiter in awake && expired == awake[waiter].expired
      modifies this
      ensures View() == Apply(old(View()), Relock(waiter))
      ensures acquired <==> old(HasRoom())
      ensures waiting <==> !acquired && !expired
      ensures guards == if acquired then old(guards) + {waiter} else old(guards)
      ensures waiting ==> waiter in asleep
    {
      ghost var timed := awake[waiter].timed;
      awake := awake - {waiter};
      if activeCount < maxConcurrent {
        activeCount := activeCount + 1;
        guards := guards + {waiter};
        return true, false;
      }
      if expired {
        return false, false;
      }
      asleep := asleep[waiter := timed];
      return false, true;
    }

    /**
      `pick` is the sleeper the condition variable chooses, if there is any. With no slot taken the
      call is ignored.
    */
    method ReleaseSlot(ghost guard: nat, ghost pick: nat)
      requires guard in guards || (activeCount <= 0 && guards == {})
      requires asleep != map[] ==> pick in asleep
      modifies this
      ensures View() == Apply(old(View()), Release(guard, pick))
      ensures guards == old(guards) - {guard}
      ensures activeCount == if old(activeCount) > 0 then old(activeCount) - 1 else old(activeCount)
      ensures old(activeCount) > 0 && old(asleep) != map[] ==> asleep == old(asleep) - {pick} && pick in awake
    {
      guards := guards - {guard};
      if activeCount > 0 {
        activeCount := activeCount - 1;
        if pick in asleep {
          awake := awake[pick := Waking(asleep[pick], false)];
          asleep := asleep - {pick};
        }
      }
    }
  }
}
