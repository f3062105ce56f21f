/**
  Decoder slots that sessions share: one is taken from the limiter for a pass and kept until the end of
  the flush thread's turn, sends included.
*/
module SessionSlots {
  import opened Common
  import IL = InferenceLimiter
  import SE = StreamingEngine
  import opened SessionThreads

  // ---------------------------------------------------------------- who has a slot

  /** The flush thread's guard is alive: from the poll that got a slot to the end of its turn. */
  predicate HoldsSlot(flush: FlushPc) {
    || flush.FreeSend? || flush.FreeRelock? || flush.Infer? || flush.Commit?
    || flush.WarnSend? || flush.WarnRelock? || flush.Warned?
    || flush.ResumeSend? || flush.ResumeRelock? || flush.Resumed?
    || flush.Texts? || flush.TextSend? || flush.TextRelock? || (flush.Leaving? && flush.slot)
  }

  /** A poll that gets as far as asking for a slot. */
  predicate AsksForSlot(m: Machine, step: Step) {
    !Dead(m) && step.FlushGo? && m.flush.Polling? && Triggered(m.d, m.flush.env)
  }

  lemma SectionMovesSlot(d: Data, flush: FlushPc)
    requires Held(flush)
    ensures HoldsSlot(FlushSection(d, flush).1) ==>
      HoldsSlot(flush) || (flush.Polling? && Triggered(d, flush.env) && flush.env.slot)
    ensures flush.Polling? && Triggered(d, flush.env) && flush.env.slot ==> HoldsSlot(FlushSection(d, flush).1)
    ensures HoldsSlot(flush) && !HoldsSlot(FlushSection(d, flush).1) ==>
      var after := FlushSection(d, flush).1; after.Idle? || after.NoEngine? || after.Terminated?
  {
  }

  /**
    A step brings a slot exactly if it is a poll that asks for one and gets it, and a slot goes only with
    the turn: every send and relock in between is made with the slot in hand.
  */
  lemma SlotChangesHands(m: Machine, step: Step)
    ensures var m' := Apply(m, step);
      && (!HoldsSlot(m.flush) && HoldsSlot(m'.flush) <==> AsksForSlot(m, step) && m.flush.env.slot)
      && (HoldsSlot(m.flush) && !HoldsSlot(m'.flush) ==> m'.flush.Idle? || Dead(m'))
  {
    if !Dead(m) && step.FlushGo? && Held(m.flush) {
      SectionMovesSlot(m.d, m.flush);
    }
  }

  // ---------------------------------------------------------------- sessions and the limiter

  /** Sessions of one server, its limiter, and the guard each session holds. */
  datatype Server = Server(sessions: seq<Machine>, limiter: IL.Limiter, guards: seq<Option<nat>>)

  /** A session steps, or somebody else uses the limiter. `pick` is the sleeper a release wakes. */
  datatype Event = Session(i: nat, step: Step, pick: nat) | Other(use: IL.Step)

  predicate Room(l: IL.Limiter) {
    l.active < l.max
  }

  /** The limiter's answer is the answer the session gets, and nobody releases a session's guard. */
  predicate Possible(s: Server, e: Event) {
    match e
    case Session(i, step, pick) =>
      && i < |s.sessions| == |s.guards|
      && (AsksForSlot(s.sessions[i], step) ==> (s.sessions[i].flush.env.slot <==> Room(s.limiter)))
      && (s.limiter.asleep != map[] ==> pick in s.limiter.asleep)
    case Other(use) => use.Release? ==> Some(use.guard) !in s.guards
  }

  /** An event that is not possible changes nothing. */
  ghost function Happens(s: Server, e: Event): Server {
    if !Possible(s, e) then s
    else if e.Other? then s.(limiter := IL.Apply(s.limiter, e.use))
    else
      var i, step, pick := e.i, e.step, e.pick;
      var m, m' := s.sessions[i], Apply(s.sessions[i], step);
      var stepped := s.(sessions := s.sessions[i := m']);
      if !HoldsSlot(m.flush) && HoldsSlot(m'.flush) then
        stepped.(limiter := IL.Apply(s.limiter, IL.Try), guards := s.guards[i := Some(s.limiter.next)])
      else if HoldsSlot(m.flush) && !HoldsSlot(m'.flush) && s.guards[i].Some? then
        stepped.(limiter := IL.Apply(s.limiter, IL.Release(s.guards[i].value, pick)), guards := s.guards[i := None])
      else stepped
  }

  /** Every session with a slot has a live guard of its own, and only those have one. */
  ghost predicate Backed(s: Server) {
    && IL.Inv(s.limiter) && |s.guards| == |s.sessions|
    && (forall i :: 0 <= i < |s.sessions| ==> (HoldsSlot(s.sessions[i].flush) <==> s.guards[i].Some?))
    && (forall i :: 0 <= i < |s.guards| && s.guards[i].Some? ==> s.guards[i].value in s.limiter.guards)
    && (forall i, j :: 0 <= i < j < |s.guards| && s.guards[i].Some? ==> s.guards[i] != s.guards[j])
  }

  lemma OtherKeepsGuards(l: IL.Limiter, use: IL.Step, guard: nat)
    requires guard in l.guards && !(use.Release? && use.guard == guard)
    ensures guard in IL.Apply(l, use).guards
  {
  }

  lemma OtherKeepsBacked(s: Server, use: IL.Step)
    requires Backed(s) && Possible(s, Other(use))
    ensures Backed(Happens(s, Other(use)))
  {
    IL.StepKeepsInv(s.limiter, use);
    forall i | 0 <= i < |s.guards| && s.guards[i].Some? ensures s.guards[i].value in IL.Apply(s.limiter, use).guards {
      OtherKeepsGuards(s.limiter, use, s.guards[i].value);
    }
  }

  lemma TakingKeepsBacked(s: Server, s': Server, i: nat, m': Machine)
    requires Backed(s) && i < |s.sessions| && !HoldsSlot(s.sessions[i].flush) && HoldsSlot(m'.flush) && Room(s.limiter)
    requires s' == Server(s.sessions[i := m'], IL.Apply(s.limiter, IL.Try), s.guards[i := Some(s.limiter.next)])
    ensures Backed(s')
  {
    IL.StepKeepsInv(s.limiter, IL.Try);
    assert s'.limiter.guards == s.limiter.guards + {s.limiter.next};
  }

  lemma GivingKeepsBacked(s: Server, s': Server, i: nat, m': Machine, pick: nat)
    requires Backed(s) && i < |s.sessions| && HoldsSlot(s.sessions[i].flush) && !HoldsSlot(m'.flush)
    requires s.limiter.asleep != map[] ==> pick in s.limiter.asleep
    requires s' == Server(s.sessions[i := m'], IL.Apply(s.limiter, IL.Release(s.guards[i].value, pick)), s.guards[i := None])
    ensures Backed(s')
  {
    var guard := s.guards[i].value;
    IL.StepKeepsInv(s.limiter, IL.Release(guard, pick));
    forall j | 0 <= j < |s.guards| && j != i && s.guards[j].Some? ensures s.guards[j].value in s'.limiter.guards {
      assert s.guards[j] != s.guards[i];
      OtherKeepsGuards(s.limiter, IL.Release(guard, pick), s.guards[j].value);
    }
  }

  lemma EventKeepsBacked(s: Server, e: Event)
    requires Backed(s)
    ensures Backed(Happens(s, e))
  {
    if !Possible(s, e) {
      return;
    }
    match e
    case Other(use) => OtherKeepsBacked(s, use);
    case Session(i, step, pick) =>
      var m, m' := s.sessions[i], Apply(s.sessions[i], step);
      SlotChangesHands(m, step);
      if !HoldsSlot(m.flush) && HoldsSlot(m'.flush) {
        TakingKeepsBacked(s, Happens(s, e), i, m');
      } else if HoldsSlot(m.flush) && !HoldsSlot(m'.flush) {
        GivingKeepsBacked(s, Happens(s, e), i, m', pick);
      }
  }

  /** How many of the first `n` sessions have a slot. */
  function Decoding(sessions: seq<Machine>, n: nat): nat
    requires n <= |sessions|
  {
    if n == 0 then 0
    else Decoding(sessions, n - 1) + if HoldsSlot(sessions[n - 1].flush) then 1 else 0
  }

  /** The guards of the first `n` sessions. */
  function GuardsOf(guards: seq<Option<nat>>, n: nat): set<nat>
    requires n <= |guards|
  {
    if n == 0 then {}
    else GuardsOf(guards, n - 1) + if guards[n - 1].Some? then {guards[n - 1].value} else {}
  }

  lemma {:induction false} GuardsAreOwn(guards: seq<Option<nat>>, n: nat, g: nat)
    requires n <= |guards|
    ensures g in GuardsOf(guards, n) <==> exists i :: 0 <= i < n && guards[i] == Some(g)
  {
    if n > 0 {
      GuardsAreOwn(guards, n - 1, g);
    }
  }

  lemma GuardIsNew(s: Server, n: nat)
    requires Backed(s) && n < |s.sessions| && s.guards[n].Some?
    ensures s.guards[n].value !in GuardsOf(s.guards, n) && s.guards[n].value in s.limiter.guards
  {
    GuardsAreOwn(s.guards, n, s.guards[n].value);
  }

  lemma {:induction false} DecodingAreCounted(s: Server, n: nat)
    requires Backed(s) && n <= |s.sessions|
    ensures |GuardsOf(s.guards, n)| == Decoding(s.sessions, n)
    ensures GuardsOf(s.guards, n) <= s.limiter.guards
  {
    if n > 0 {
      DecodingAreCounted(s, n - 1);
      if s.guards[n - 1].Some? {
        GuardIsNew(s, n - 1);
      }
    }
  }

  lemma SubsetIsNoLarger(a: set<nat>, b: set<nat>)
    requires a <= b
    ensures |a| <= |b|
  {
    assert b == a + (b - a);
  }

  ghost function After(s: Server, events: seq<Event>): Server {
    if events == [] then s else Happens(After(s, events[..|events| - 1]), events[|events| - 1])
  }

  predicate Opened(s: Server) {
    && s.limiter == IL.FRESH && |s.sessions| == |s.guards|
    && (forall i :: 0 <= i < |s.sessions| ==> s.sessions[i] == START && s.guards[i] == None)
  }

  lemma {:induction false} ServerStaysBacked(s: Server, events: seq<Event>)
    requires Opened(s)
    ensures Backed(After(s, events))
  {
    if events != [] {
      ServerStaysBacked(s, events[..|events| - 1]);
      EventKeepsBacked(After(s, events[..|events| - 1]), events[|events| - 1]);
    }
  }

  /**
    Any number of sessions on one limiter, in every interleaving of their threads with each other and
    with other users: the sessions inside a pass, their sends included, are never more than the slots
    in use, and a session that has been told that it has a slot has a guard of its own.
  */
  lemma SessionsShareTheSlots(s: Server, events: seq<Event>)
    requires Opened(s)
    ensures var now := After(s, events);
      && Decoding(now.sessions, |now.sessions|) <= now.limiter.active == |now.limiter.guards|
      && Backed(now)
  {
    ServerStaysBacked(s, events);
    var now := After(s, events);
    DecodingAreCounted(now, |now.sessions|);
    SubsetIsNoLarger(GuardsOf(now.guards, |now.sessions|), now.limiter.guards);
  }
}
