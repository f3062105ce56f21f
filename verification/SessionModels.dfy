/**
  The model that sessions share: each configuration takes a reference from the cache, and the end of a
  session gives at most one back.
*/
module SessionModels {
  import opened Common
  import MC = ModelCache
  import opened SessionThreads

  // ---------------------------------------------------------------- references of one session

  /** The step reads a configuration, which takes a reference before it asks for the mutex. */
  predicate Takes(m: Machine, step: Step) {
    !Dead(m) && step.RecvConfig? && m.recv.Reading? && !m.closed
  }

  /** A reference is taken, and the engine that will use it is not there yet. */
  predicate Configuring(recv: RecvPc) {
    recv.ConfigLock? || recv.ConfigSection?
  }

  /** The step gives the session's reference back; it does so only if there is one. */
  predicate Gives(m: Machine, step: Step) {
    !Dead(m) && step.RecvUnlock? && m.recv.ReleaseSection? && m.d.hasEngine
  }

  ghost function Taken(steps: seq<Step>): nat {
    if steps == [] then 0
    else
      var init := steps[..|steps| - 1];
      Taken(init) + if Takes(Run(START, init), steps[|steps| - 1]) then 1 else 0
  }

  ghost function Given(steps: seq<Step>): nat {
    if steps == [] then 0
    else
      var init := steps[..|steps| - 1];
      Given(init) + if Gives(Run(START, init), steps[|steps| - 1]) then 1 else 0
  }

  /** What the state says about the references. */
  predicate Balanced(m: Machine, taken: nat, given: nat) {
    && (m.d.configured || Configuring(m.recv) <==> taken > 0)
    && given == if Left(m.recv) && m.d.configured then 1 else 0
  }

  lemma FlushKeepsBalance(m: Machine, env: FlushEnv)
    ensures var m' := Apply(m, FlushGo(env)); m'.recv == m.recv && m'.d.configured == m.d.configured
  {
    if !Dead(m) && Held(m.flush) {
      SectionKeepsConfigured(m.d, m.flush);
    }
  }

  lemma StepKeepsBalance(m: Machine, step: Step, taken: nat, given: nat)
    requires Inv(m) && Balanced(m, taken, given)
    ensures Balanced(Apply(m, step), taken + if Takes(m, step) then 1 else 0, given + if Gives(m, step) then 1 else 0)
  {
    if step.FlushGo? {
      FlushKeepsBalance(m, step.env);
    }
  }

  lemma {:induction false} ReferencesAreBalanced(steps: seq<Step>)
    ensures Balanced(Run(START, steps), Taken(steps), Given(steps))
  {
    if steps != [] {
      var init := steps[..|steps| - 1];
      ReferencesAreBalanced(init);
      RunKeepsInv(START, init);
      StepKeepsBalance(Run(START, init), steps[|steps| - 1], Taken(init), Given(init));
    }
  }

  /**
    A session that is over has given back every reference it took if and only if it was configured at
    most once; each further configuration keeps one for good.
  */
  lemma ReferencesReturnExactlyIfConfiguredOnce(steps: seq<Step>)
    requires Left(Run(START, steps).recv)
    ensures Given(steps) == Taken(steps) <==> Taken(steps) <= 1
    ensures Taken(steps) - Given(steps) == if Taken(steps) == 0 then 0 else Taken(steps) - 1
  {
    ReferencesAreBalanced(steps);
  }

  lemma TakenMore(steps: seq<Step>, step: Step)
    ensures Taken(steps + [step]) == Taken(steps) + if Takes(Run(START, steps), step) then 1 else 0
  {
    assert (steps + [step])[..|steps|] == steps;
  }

  lemma TakenThree(steps: seq<Step>, a: Step, b: Step, c: Step)
    requires !b.RecvConfig? && !c.RecvConfig?
    ensures Taken(steps + [a, b, c]) == Taken(steps) + if Takes(Run(START, steps), a) then 1 else 0
  {
    TakenMore(steps, a);
    TakenMore(steps + [a], b);
    TakenMore(steps + [a] + [b], c);
    assert steps + [a] + [b] + [c] == steps + [a, b, c];
  }

  lemma ConfigurationTakes(steps: seq<Step>, m: Machine)
    requires m == Run(START, steps) && !Dead(m) && m.owner.Nobody? && m.recv.Reading? && !m.closed
    ensures Taken(steps + Configure(None)) == Taken(steps) + 1
    ensures Run(START, steps + Configure(None)) == m.(d := Emit(Configured(m.d, None), Ready))
  {
    TakenThree(steps, RecvConfig(None), RecvLock, RecvUnlock);
    TakenMore(steps + [RecvConfig(None), RecvLock, RecvUnlock], RecvSend);
    assert steps + [RecvConfig(None), RecvLock, RecvUnlock] + [RecvSend] == steps + Configure(None);
    RunSplit(START, steps, Configure(None));
    ConfigIsHandled(m, None);
  }

  lemma LeavingEnds(m: Machine, asking: Machine, inside: Machine)
    requires !Dead(m) && m.owner.Nobody? && m.recv.Reading?
    requires asking == m.(recv := ReleaseLock) && inside == m.(recv := ReleaseSection, owner := RecvThread)
    ensures Apply(m, RecvThrows) == asking && Apply(asking, RecvLock) == inside
    ensures Left(Apply(inside, RecvUnlock).recv)
  {
  }

  /** A session is configured twice and leaves: one reference stays behind. */
  lemma SecondConfigurationKeepsAReference()
    ensures var steps := Configure(None) + Configure(None) + [RecvThrows, RecvLock, RecvUnlock];
      Left(Run(START, steps).recv) && Taken(steps) == 2 && Given(steps) == 1
  {
    var twice, leave := Configure(None) + Configure(None), [RecvThrows, RecvLock, RecvUnlock];
    assert [] + Configure(None) == Configure(None);
    ConfigurationTakes([], START);
    var once := START.(d := Emit(Configured(START.d, None), Ready));
    ConfigurationTakes(Configure(None), once);
    var m := once.(d := Emit(Configured(once.d, None), Ready));
    RunSplit(START, twice, leave);
    RunThree(m, RecvThrows, RecvLock, RecvUnlock);
    LeavingEnds(m, m.(recv := ReleaseLock), m.(recv := ReleaseSection, owner := RecvThread));
    TakenThree(twice, RecvThrows, RecvLock, RecvUnlock);
    ReferencesReturnExactlyIfConfiguredOnce(twice + leave);
  }

  // ---------------------------------------------------------------- sessions and the cache

  /** Sessions of one server, the cache, and the reference each session will give back. */
  datatype Server = Server(sessions: seq<Machine>, cache: MC.Cache, refs: seq<Option<nat>>)

  /** A session steps, or somebody else, a timer included, uses the cache. */
  datatype Event = Session(i: nat, step: Step) | Other(use: MC.Step)

  /** Nobody forces an unload, asks for another model or releases a session's reference. */
  predicate Possible(s: Server, e: Event, path: string) {
    match e
    case Session(i, _) => i < |s.sessions| == |s.refs|
    case Other(use) =>
      && !use.ForceUnload? && (use.Acquire? ==> use.path == path)
      && (use.Release? ==> Some(use.holder) !in s.refs)
  }

  /** An event that is not possible changes nothing. */
  ghost function Happens(s: Server, e: Event, path: string): (s': Server)
    ensures |s'.sessions| == |s.sessions|
  {
    if !Possible(s, e, path) then s
    else if e.Other? then s.(cache := MC.Apply(s.cache, e.use))
    else
      var i, step := e.i, e.step;
      var stepped := s.(sessions := s.sessions[i := Apply(s.sessions[i], step)]);
      if Takes(s.sessions[i], step) then
        stepped.(cache := MC.Apply(s.cache, MC.Acquire(path, true)), refs := s.refs[i := Some(s.cache.nextHolder)])
      else if Gives(s.sessions[i], step) && s.refs[i].Some? then
        stepped.(cache := MC.Apply(s.cache, MC.Release(s.refs[i].value)), refs := s.refs[i := None])
      else stepped
  }

  /** A session has an engine, or is about to get one. */
  predicate NeedsModel(m: Machine) {
    m.d.hasEngine || Configuring(m.recv)
  }

  /** Every session that needs the model holds a reference of its own. */
  ghost predicate Backed(s: Server, path: string) {
    && MC.Inv(s.cache) && MC.LoadedFrom(s.cache, path) && |s.refs| == |s.sessions|
    && (forall i :: 0 <= i < |s.sessions| && NeedsModel(s.sessions[i]) ==> s.refs[i].Some?)
    && (forall i :: 0 <= i < |s.refs| && s.refs[i].Some? ==> s.refs[i].value in s.cache.holders)
    && (forall i, j :: 0 <= i < j < |s.refs| && s.refs[i].Some? ==> s.refs[i] != s.refs[j])
  }

  lemma FlushKeepsNeed(m: Machine, env: FlushEnv)
    ensures NeedsModel(Apply(m, FlushGo(env))) == NeedsModel(m)
  {
    if !Dead(m) && Held(m.flush) {
      SectionKeepsEngine(m.d, m.flush);
    }
  }

  lemma SectionKeepsEngine(d: Data, flush: FlushPc)
    requires Held(flush)
    ensures FlushSection(d, flush).0.hasEngine == d.hasEngine
  {
  }

  /** The need for a model comes with a reference and goes with it. */
  lemma NeedFollowsReference(m: Machine, step: Step)
    ensures NeedsModel(Apply(m, step)) ==> NeedsModel(m) || Takes(m, step)
    ensures Gives(m, step) ==> !NeedsModel(Apply(m, step))
  {
    if step.FlushGo? {
      FlushKeepsNeed(m, step.env);
    }
  }

  /** Nobody's reference is lost by what others do to the cache, and it goes on naming the same context. */
  lemma OthersKeepHolder(c: MC.Cache, use: MC.Step, h: nat)
    requires MC.Inv(c) && h in c.holders && !(use.Release? && use.holder == h)
    ensures var c' := MC.Apply(c, use); h in c'.holders && c'.holders[h] == c.holders[h]
  {
  }

  lemma OtherKeepsBacked(s: Server, use: MC.Step, path: string)
    requires Backed(s, path) && Possible(s, Other(use), path)
    ensures Backed(Happens(s, Other(use), path), path)
  {
    MC.OnePathStep(s.cache, use, path);
    forall i | 0 <= i < |s.refs| && s.refs[i].Some? ensures s.refs[i].value in MC.Apply(s.cache, use).holders {
      OthersKeepHolder(s.cache, use, s.refs[i].value);
    }
  }

  lemma TakingKeepsBacked(s: Server, s': Server, path: string, i: nat, m': Machine)
    requires Backed(s, path) && i < |s.sessions|
    requires s'.cache == MC.Apply(s.cache, MC.Acquire(path, true))
    requires s'.sessions == s.sessions[i := m'] && s'.refs == s.refs[i := Some(s.cache.nextHolder)]
    ensures Backed(s', path)
  {
    MC.OnePathStep(s.cache, MC.Acquire(path, true), path);
    assert s.cache.nextHolder in s'.cache.holders;
    forall j | 0 <= j < |s.refs| && j != i && s.refs[j].Some? ensures s.refs[j].value in s'.cache.holders {
      OthersKeepHolder(s.cache, MC.Acquire(path, true), s.refs[j].value);
    }
  }

  lemma GivingKeepsBacked(s: Server, s': Server, path: string, i: nat, m': Machine)
    requires Backed(s, path) && i < |s.sessions| && s.refs[i].Some? && !NeedsModel(m')
    requires s' == Server(s.sessions[i := m'], MC.Apply(s.cache, MC.Release(s.refs[i].value)), s.refs[i := None])
    ensures Backed(s', path)
  {
    var release := MC.Release(s.refs[i].value);
    MC.OnePathStep(s.cache, release, path);
    forall j | 0 <= j < |s.refs| && j != i && s.refs[j].Some? ensures s.refs[j].value in s'.cache.holders {
      assert s.refs[j] != s.refs[i];
      OthersKeepHolder(s.cache, release, s.refs[j].value);
    }
  }

  lemma EventKeepsBacked(s: Server, e: Event, path: string)
    requires Backed(s, path)
    ensures Backed(Happens(s, e, path), path)
  {
    if !Possible(s, e, path) {
      return;
    }
    match e
    case Other(use) => OtherKeepsBacked(s, use, path);
    case Session(i, step) =>
      var m' := Apply(s.sessions[i], step);
      NeedFollowsReference(s.sessions[i], step);
      if Takes(s.sessions[i], step) {
        TakingKeepsBacked(s, Happens(s, e, path), path, i, m');
      } else if Gives(s.sessions[i], step) && s.refs[i].Some? {
        GivingKeepsBacked(s, Happens(s, e, path), path, i, m');
      }
  }

  ghost function After(s: Server, events: seq<Event>, path: string): (s': Server)
    ensures |s'.sessions| == |s.sessions|
  {
    if events == [] then s else Happens(After(s, events[..|events| - 1], path), events[|events| - 1], path)
  }

  predicate Opened(s: Server) {
    && s.cache == MC.FRESH && |s.sessions| == |s.refs|
    && (forall i :: 0 <= i < |s.sessions| ==> s.sessions[i] == START && s.refs[i] == None)
  }

  lemma {:induction false} ServerStaysBacked(s: Server, events: seq<Event>, path: string)
    requires Opened(s)
    ensures Backed(After(s, events, path), path)
  {
    if events != [] {
      ServerStaysBacked(s, events[..|events| - 1], path);
      EventKeepsBacked(After(s, events[..|events| - 1], path), events[|events| - 1], path);
    }
  }

  lemma EventKeepsContext(s: Server, e: Event, path: string, i: nat)
    requires Backed(s, path) && i < |s.sessions| && NeedsModel(s.sessions[i])
    requires NeedsModel(Happens(s, e, path).sessions[i])
    ensures s.cache.ctx.Some? && Happens(s, e, path).cache.ctx == s.cache.ctx
  {
    EventKeepsBacked(s, e, path);
    var h, s' := s.refs[i].value, Happens(s, e, path);
    if Possible(s, e, path) && s'.cache != s.cache {
      if e.Other? {
        OthersKeepHolder(s.cache, e.use, h);
      } else if Takes(s.sessions[e.i], e.step) {
        OthersKeepHolder(s.cache, MC.Acquire(path, true), h);
      } else {
        NeedFollowsReference(s.sessions[e.i], e.step);
        assert e.i != i && s.refs[e.i] != s.refs[i];
        OthersKeepHolder(s.cache, MC.Release(s.refs[e.i].value), h);
      }
      assert s'.cache.holders[h] == s.cache.holders[h];
    }
  }

  /**
    Any number of sessions on one cache and one model, in every interleaving of their threads with each
    other, with timers, stale ones included, and with users who force no unload: while a session has its engine,
    the context the engine decodes with stays loaded, and stays the same one.
  */
  lemma NoEngineLosesItsModel(s: Server, events: seq<Event>, e: Event, path: string, i: nat)
    requires Opened(s) && i < |s.sessions|
    requires var now := After(s, events, path);
      NeedsModel(now.sessions[i]) && NeedsModel(Happens(now, e, path).sessions[i])
    ensures var now := After(s, events, path);
      now.cache.ctx.Some? && Happens(now, e, path).cache.ctx == now.cache.ctx
  {
    ServerStaysBacked(s, events, path);
    EventKeepsContext(After(s, events, path), e, path, i);
  }
}
