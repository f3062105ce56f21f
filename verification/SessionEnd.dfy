/**
  The end of a session, over all interleavings of its two threads: one final message with nothing
  after it, joins that cannot deadlock, and when releasing the model is safe.
*/
module SessionEnd {
  import opened Common
  import SE = StreamingEngine
  import VG = VadGate
  import opened SessionThreads

  predicate IsFinal(item: Item) {
    item.Out? && item.msg.Transcription? && item.msg.isFinal
  }

  predicate NoFinal(log: seq<Item>) {
    forall i :: 0 <= i < |log| ==> !IsFinal(log[i])
  }

  /** A final transcription, if there is one, is the last thing in the log. */
  predicate OnlyLastIsFinal(log: seq<Item>) {
    forall i :: 0 <= i < |log| && IsFinal(log[i]) ==> i == |log| - 1
  }

  predicate PlainMessages(recv: RecvPc) {
    recv.Sending? ==> forall i :: 0 <= i < |recv.msgs| ==> !IsFinal(Out(recv.msgs[i]))
  }

  /** Before the final message nothing is final; after it both threads are past their last send. */
  ghost predicate EndInv(m: Machine) {
    && OnlyLastIsFinal(m.d.log)
    && PlainMessages(m.recv)
    && (NoFinal(m.d.log) || (m.flush.Exited? && (m.recv.Closing? || m.closed)))
  }

  /** Closing the socket after the final message succeeds. */
  predicate Closes(step: Step) {
    step.RecvFinalClose? ==> step.ok
  }

  lemma SectionLeavesLog(m: Machine)
    requires Inv(m) && Held(m.flush)
    ensures SectionGone(m).d.log == m.d.log && !SectionGone(m).flush.Exited?
  {
    match m.flush
    case Commit(cur, _, outcome, action) => AfterDecodeFrame(m.d, cur, outcome, action);
    case Texts(cur, res) => assert Accumulated(m.d, cur, res).log == m.d.log;
    case _ =>
  }

  lemma FlushKeepsEnd(m: Machine, env: FlushEnv)
    requires Inv(m) && EndInv(m)
    ensures EndInv(FlushGone(m, env))
  {
    if InSend(m.flush) {
      assert SendGone(m).d.log == m.d.log + [Out(MessageOf(m.flush))];
    } else if Held(m.flush) {
      SectionLeavesLog(m);
    }
  }

  lemma UnlockKeepsEnd(m: Machine)
    requires Inv(m) && EndInv(m)
    ensures EndInv(UnlockGone(m))
  {
  }

  lemma FinalKeepsEnd(m: Machine, slot: bool, pass: SE.Pass)
    requires Inv(m) && EndInv(m)
    ensures EndInv(FinalGone(m, slot, pass))
  {
    assert FinalGone(m, slot, pass).d.log == m.d.log;
  }

  lemma SendsKeepEnd(m: Machine)
    requires Inv(m) && EndInv(m)
    ensures EndInv(RecvSendGone(m)) && EndInv(FinalSendGone(m))
  {
  }

  lemma ControlKeepsEnd(m: Machine, step: Step)
    requires Inv(m) && EndInv(m) && Closes(step)
    ensures EndInv(ControlGone(m, step))
  {
  }

  lemma StepKeepsEnd(m: Machine, step: Step)
    requires Inv(m) && EndInv(m) && Closes(step)
    ensures EndInv(Apply(m, step))
  {
    if !Dead(m) {
      match step
      case FlushGo(env) => FlushKeepsEnd(m, env);
      case RecvUnlock => UnlockKeepsEnd(m);
      case RecvFinal(slot, pass) => FinalKeepsEnd(m, slot, pass);
      case RecvSend => SendsKeepEnd(m);
      case RecvFinalSend => SendsKeepEnd(m);
      case _ => ControlKeepsEnd(m, step);
    }
  }

  /**
    In every interleaving in which the final close succeeds, a session sends at most one final
    transcription and nothing whatsoever after it.
  */
  lemma {:induction false} EndProtocol(steps: seq<Step>)
    requires forall i :: 0 <= i < |steps| ==> Closes(steps[i])
    ensures EndInv(Run(START, steps))
    ensures OnlyLastIsFinal(Run(START, steps).d.log)
  {
    if steps != [] {
      var init := steps[..|steps| - 1];
      EndProtocol(init);
      RunKeepsInv(START, init);
      StepKeepsEnd(Run(START, init), steps[|steps| - 1]);
    }
  }

  // ---------------------------------------------------------------- the close that matters

  /** Both threads are past their last send. */
  ghost predicate Silenced(m: Machine) {
    m.closed && m.flush.Exited? && CanBeClosed(m.recv)
  }

  lemma SilenceIsKeptOnce(m: Machine, step: Step)
    requires Silenced(m)
    ensures Silenced(Apply(m, step)) && Apply(m, step).d.log == m.d.log
  {
  }

  lemma {:induction false} SilenceIsKept(m: Machine, more: seq<Step>)
    requires Silenced(m)
    ensures Silenced(Run(m, more)) && Run(m, more).d.log == m.d.log
  {
    if more != [] {
      SilenceIsKept(m, more[..|more| - 1]);
      SilenceIsKeptOnce(Run(m, more[..|more| - 1]), more[|more| - 1]);
    }
  }

  const NO_PASS := SE.Pass(VG.LoadFailed, SE.DecodeFailed)

  /** A second `end` that finds no decoder slot, up to its final message. */
  const END_AGAIN := [RecvEnd, RecvJoin, RecvLock] + [RecvFinal(false, NO_PASS)] + [RecvFinalSend]

  lemma EndIsRead(m: Machine, waiting: Machine, asking: Machine)
    requires m == Machine(m.d, Exited, Reading, Nobody, m.running, false) && m.d.configured
    requires waiting == m.(running := false, recv := Joining) && asking == waiting.(recv := FinalLock)
    ensures Apply(m, RecvEnd) == waiting && Apply(waiting, RecvJoin) == asking
  {
  }

  lemma FinalLockIsTaken(m: Machine)
    requires !Dead(m) && m.recv.FinalLock? && m.owner.Nobody?
    ensures Apply(m, RecvLock) == m.(recv := FinalSection, owner := RecvThread)
  {
  }

  lemma FinalSectionIsEntered(m: Machine, inside: Machine)
    requires m == Machine(m.d, Exited, Reading, Nobody, m.running, false) && m.d.configured
    requires inside == m.(running := false, recv := FinalSection, owner := RecvThread)
    ensures Run(m, [RecvEnd, RecvJoin, RecvLock]) == inside
  {
    var waiting, asking := m.(running := false, recv := Joining), m.(running := false, recv := FinalLock);
    EndIsRead(m, waiting, asking);
    FinalLockIsTaken(asking);
    RunThree(m, RecvEnd, RecvJoin, RecvLock);
  }

  lemma FinalIsSentWithoutSlot(m: Machine)
    requires !Dead(m) && m.recv.FinalSection?
    ensures exists text, complete ::
      Apply(Apply(m, RecvFinal(false, NO_PASS)), RecvFinalSend).d.log == m.d.log + [Out(Transcription(text, true, complete))]
  {
    var final := Finalized(m.d, false, NO_PASS).value;
    var heard := m.(d := final, recv := FinalSend(final.full, !m.d.hasEngine), owner := Nobody);
    assert Apply(m, RecvFinal(false, NO_PASS)) == heard;
    assert Apply(heard, RecvFinalSend).d.log == m.d.log + [Out(Transcription(final.full, true, !m.d.hasEngine))];
  }

  /** A connection that was not closed sends a second final message for a second `end`. */
  lemma SecondFinalIsSent(m: Machine)
    requires m == Machine(m.d, Exited, Reading, Nobody, m.running, false) && m.d.configured
    ensures exists text, complete :: Run(m, END_AGAIN).d.log == m.d.log + [Out(Transcription(text, true, complete))]
  {
    var inside := m.(running := false, recv := FinalSection, owner := RecvThread);
    FinalSectionIsEntered(m, inside);
    FinalIsSentWithoutSlot(inside);
    RunMore(m, [RecvEnd, RecvJoin, RecvLock], RecvFinal(false, NO_PASS));
    RunMore(m, [RecvEnd, RecvJoin, RecvLock] + [RecvFinal(false, NO_PASS)], RecvFinalSend);
  }

  /**
    With the final message out and the close still to come, some continuation sends something more if
    and only if the close fails: the reader goes on, and a second `end` sends a second final message.
  */
  lemma MoreIsSentExactlyIfTheCloseFails(m: Machine, ok: bool)
    requires Inv(m) && m.recv.Closing?
    ensures (exists more :: Run(Apply(m, RecvFinalClose(ok)), more).d.log != m.d.log) <==> !ok
    ensures !ok ==> exists text, complete ::
      Run(Apply(m, RecvFinalClose(ok)), END_AGAIN).d.log == m.d.log + [Out(Transcription(text, true, complete))]
  {
    var after := Apply(m, RecvFinalClose(ok));
    if ok {
      forall more ensures Run(after, more).d.log == m.d.log {
        SilenceIsKept(after, more);
      }
    } else {
      assert after == m.(recv := Reading) && m.owner.Nobody?;
      SecondFinalIsSent(after);
    }
  }

  // ---------------------------------------------------------------- the mutex and the joins

  /** An upper bound on the steps a thread that has been told to stop has left, if nothing blocks it. */
  function Rank(flush: FlushPc): nat {
    match flush
    case Exited => 0
    case NoEngine => 0
    case Terminated => 0
    case Idle => 1
    case Leaving(_) => 2
    case TextRelock => 3
    case BusyRelock => 3
    case BusySend => 4
    case TextSend(_) => 4
    case Texts(_, _) => 5
    case Resumed(_, _) => 6
    case ResumeRelock(_, _) => 7
    case ResumeSend(_, _) => 8
    case Warned(_, _) => 9
    case WarnRelock(_, _) => 10
    case WarnSend(_, _, _) => 11
    case Commit(_, _, _, _) => 12
    case Infer(_, _) => 13
    case FreeRelock(_, _) => 14
    case FreeSend(_, _) => 15
    case Polling(_) => 16
  }

  lemma SectionLowersRank(d: Data, flush: FlushPc)
    requires Held(flush)
    ensures Rank(FlushSection(d, flush).1) < Rank(flush)
  {
  }

  /**
    A flush step that does not start a new cycle brings the thread nearer to its end unless it is
    blocked, and what blocks it is the receive thread in a critical section.
  */
  lemma FlushStepLowersRank(m: Machine, env: FlushEnv)
    requires Inv(m) && !Dead(m) && !m.flush.Exited? && (m.flush.Idle? ==> !m.running)
    ensures Rank(Apply(m, FlushGo(env)).flush) < Rank(m.flush) || (InRelock(m.flush) && InSection(m.recv))
  {
    if Held(m.flush) {
      SectionLowersRank(m.d, m.flush);
    }
  }

  /** The receive thread never waits or sends with the mutex in hand: its section ends with its next step. */
  lemma ReceiverLetsGo(m: Machine, slot: bool, pass: SE.Pass)
    requires Inv(m) && !Dead(m) && m.owner.RecvThread?
    ensures var step := if m.recv.FinalSection? then RecvFinal(slot, pass) else RecvUnlock;
      Apply(m, step).owner.Nobody? && Apply(m, step).flush == m.flush
  {
  }

  function FlushSteps(steps: seq<Step>): nat {
    if steps == [] then 0
    else FlushSteps(steps[..|steps| - 1]) + if steps[|steps| - 1].FlushGo? then 1 else 0
  }

  lemma SectionOnlyUntilRank(m: Machine, step: Step)
    requires Inv(m) && Held(m.flush)
    ensures var m' := Apply(m, step);
      && Inv(m') && (Held(m'.flush) ==> !Dead(m'))
      && Rank(m'.flush) <= Rank(m.flush) && (step.FlushGo? ==> Rank(m'.flush) < Rank(m.flush))
      && (!step.FlushGo? ==> m'.flush == m.flush)
  {
    StepKeepsInv(m, step);
    if step.FlushGo? {
      SectionLowersRank(m.d, m.flush);
    } else {
      OwnerIsUntouched(m, step);
    }
  }

  /**
    The flush thread lets the mutex go too: whatever the schedule, after as many of its own steps as
    its rank, if not before, it has been without it or has ended the process.
  */
  lemma FlushLetsGo(m: Machine, more: seq<Step>) returns (k: nat)
    requires Inv(m) && FlushSteps(more) >= Rank(m.flush)
    ensures k <= |more| && (Dead(Run(m, more[..k])) || !Run(m, more[..k]).owner.FlushThread?)
  {
    k := 0;
    var reached := m;
    assert more[..|more|] == more;
    while k < |more| && !Dead(reached) && reached.owner.FlushThread?
      invariant 0 <= k <= |more| && reached == Run(m, more[..k]) && Inv(reached)
      invariant Rank(reached.flush) + FlushSteps(more[..k]) <= Rank(m.flush)
    {
      assert more[..k + 1][..k] == more[..k];
      SectionOnlyUntilRank(reached, more[k]);
      reached := Apply(reached, more[k]);
      k := k + 1;
    }
  }

  /** The receive thread waits for the flush thread to end: in the end handler, or in the destructor. */
  predicate Waiting(recv: RecvPc) {
    recv.Joining? || recv.Stopping?
  }

  /** A waiting receive thread does not own the mutex, so nothing it does can block the flush thread. */
  lemma WaiterOwnsNothing(m: Machine)
    requires Inv(m) && Waiting(m.recv)
    ensures !m.owner.RecvThread? && (InRelock(m.flush) ==> m.owner.Nobody?)
  {
  }

  lemma JoinProgress(m: Machine, step: Step)
    requires Inv(m) && Waiting(m.recv) && !Dead(m) && !m.flush.Exited?
    ensures Apply(m, step).recv == m.recv
    ensures Rank(Apply(m, step).flush) <= Rank(m.flush)
    ensures step.FlushGo? ==> Rank(Apply(m, step).flush) < Rank(m.flush)
  {
    WaiterOwnsNothing(m);
    if step.FlushGo? {
      FlushStepLowersRank(m, step.env);
    }
  }

  /**
    Neither join can deadlock with the relock of the state mutex: whatever the schedule, sixteen steps
    of the flush thread end it, wherever it was, or end the process.
  */
  lemma JoinReturns(m: Machine, more: seq<Step>) returns (k: nat)
    requires Inv(m) && Waiting(m.recv) && FlushSteps(more) >= Rank(m.flush)
    ensures Rank(m.flush) <= 16
    ensures k <= |more| && Run(m, more[..k]).recv == m.recv
    ensures Dead(Run(m, more[..k])) || Run(m, more[..k]).flush.Exited?
  {
    k := 0;
    var reached := m;
    assert more[..|more|] == more;
    while k < |more| && !Dead(reached) && !reached.flush.Exited?
      invariant 0 <= k <= |more| && reached == Run(m, more[..k]) && Inv(reached) && reached.recv == m.recv
      invariant Rank(reached.flush) + FlushSteps(more[..k]) <= Rank(m.flush)
    {
      assert more[..k + 1][..k] == more[..k];
      JoinProgress(reached, more[k]);
      StepKeepsInv(reached, more[k]);
      reached := Apply(reached, more[k]);
      k := k + 1;
    }
  }

  /** Once the flush thread has ended the join goes through, and not before. */
  lemma JoinGoesThrough(m: Machine)
    requires Waiting(m.recv) && !Dead(m)
    ensures Apply(m, RecvJoin).recv ==
      if !m.flush.Exited? then m.recv else if m.recv.Joining? then FinalLock else Destroyed
  {
  }

  // ---------------------------------------------------------------- giving the model back

  /** The flush thread is out of the mutex and will use the engine, unasked, when it is back. */
  predicate WillUseEngine(flush: FlushPc) {
    || flush.FreeSend? || flush.FreeRelock?
    || ((flush.WarnSend? || flush.WarnRelock? || flush.ResumeSend? || flush.ResumeRelock?) && flush.res.committed != "")
  }

  /** The engine is gone for good and the flush thread will notice. */
  ghost predicate Retired(m: Machine) {
    && Inv(m) && !m.d.hasEngine && Left(m.recv)
    && !WillUseEngine(m.flush) && !m.flush.NoEngine? && !m.flush.Infer? && !m.flush.Commit?
    && (m.flush.Warned? || m.flush.Resumed? || m.flush.Texts? ==> m.flush.res.committed == "")
  }

  lemma FlushKeepsRetired(m: Machine, env: FlushEnv)
    requires Retired(m)
    ensures Retired(FlushGone(m, env))
  {
    FlushKeepsInv(m, env);
  }

  lemma StepKeepsRetired(m: Machine, step: Step)
    requires Retired(m)
    ensures Retired(Apply(m, step))
  {
    StepKeepsInv(m, step);
    if step.FlushGo? {
      FlushKeepsRetired(m, step.env);
    }
  }

  lemma {:induction false} ReleasedStaysRetired(m: Machine, more: seq<Step>)
    requires Retired(m)
    ensures Retired(Run(m, more))
  {
    if more != [] {
      var init := more[..|more| - 1];
      ReleasedStaysRetired(m, init);
      StepKeepsRetired(Run(m, init), more[|more| - 1]);
    }
  }

  /** How many turns away the use of the engine is. */
  function TurnsToUse(flush: FlushPc): nat {
    match flush
    case Infer(_, _) => 1
    case FreeRelock(_, _) => 2
    case FreeSend(_, _) => 3
    case Texts(_, _) => 1
    case Resumed(_, _) => 2
    case ResumeRelock(_, _) => 3
    case ResumeSend(_, _) => 4
    case Warned(_, _) => 5
    case WarnRelock(_, _) => 6
    case WarnSend(_, _, _) => 7
    case _ => 0
  }

  predicate OnTheWay(flush: FlushPc) {
    || WillUseEngine(flush) || flush.Infer?
    || ((flush.Warned? || flush.Resumed? || flush.Texts?) && flush.res.committed != "")
  }

  /** One turn nearer, or there. */
  ghost predicate Nearer(m: Machine, m': Machine) {
    if TurnsToUse(m.flush) == 1 then m'.flush.NoEngine?
    else !m'.d.hasEngine && OnTheWay(m'.flush) && TurnsToUse(m'.flush) == TurnsToUse(m.flush) - 1
         && Exclusive(m') && m'.recv == m.recv
  }

  lemma SectionIsNearer(m: Machine)
    requires !m.d.hasEngine && OnTheWay(m.flush) && Exclusive(m) && Held(m.flush)
    ensures Nearer(m, SectionGone(m))
  {
    match m.flush
    case Infer(_, _) =>
    case Warned(_, _) =>
    case Resumed(_, _) =>
    case Texts(_, _) =>
  }

  lemma UseIsNearer(m: Machine, env: FlushEnv)
    requires !m.d.hasEngine && OnTheWay(m.flush) && Exclusive(m) && !InSection(m.recv)
    ensures Nearer(m, Apply(m, FlushGo(env)))
  {
    if InSend(m.flush) {
      assert Nearer(m, SendGone(m));
    } else if InRelock(m.flush) {
      assert Nearer(m, RelockGone(m));
    } else {
      SectionIsNearer(m);
    }
  }

  lemma {:induction false} UseIsReached(m: Machine, env: FlushEnv, n: nat) returns (more: seq<Step>)
    requires !m.d.hasEngine && OnTheWay(m.flush) && n == TurnsToUse(m.flush)
    requires Exclusive(m) && !InSection(m.recv)
    ensures Run(m, more).flush.NoEngine?
    decreases n
  {
    UseIsNearer(m, env);
    RunOne(m, FlushGo(env));
    more := [FlushGo(env)];
    if n > 1 {
      var rest := UseIsReached(Apply(m, FlushGo(env)), env, n - 1);
      RunSplit(m, [FlushGo(env)], rest);
      more := [FlushGo(env)] + rest;
    }
  }

  /** A poll that finds a decoder slot free or not. */
  function Poll(slot: bool): FlushEnv {
    FlushEnv(4000, 0, slot, NO_PASS)
  }

  /**
    Releasing the model on the way out can make the flush thread use an engine that is gone if and
    only if it catches that thread in one of the sends made while a pass is under way: the one
    before decoding, or those before the commit of a pass that has committed text.
  */
  lemma ReleaseIsUnsafeExactlyInsideAPass(m: Machine)
    requires Inv(m) && m.recv.ReleaseSection? && !Dead(m)
    ensures (exists more :: Run(Apply(m, RecvUnlock), more).flush.NoEngine?) <==> WillUseEngine(m.flush)
  {
    var after := Apply(m, RecvUnlock);
    StepKeepsInv(m, RecvUnlock);
    if WillUseEngine(m.flush) {
      var more := UseIsReached(after, Poll(false), TurnsToUse(m.flush));
    } else {
      forall more ensures !Run(after, more).flush.NoEngine? {
        ReleasedStaysRetired(after, more);
      }
    }
  }

  // ---------------------------------------------------------------- the hazard from the start

  const CONFIGURE := Configure(None)

  const READY_DATA := FRESH_DATA.(configured := true, hasEngine := true, log := [Out(Ready)])

  const READY := Machine(READY_DATA, Idle, Reading, Nobody, true, false)

  lemma ReadyIsReached()
    ensures Run(START, CONFIGURE) == READY
  {
    ConfigIsHandled(START, None);
  }

  lemma AudioIsAdded(d: Data, pcm: seq<real>)
    requires d.configured && d.hasEngine
    requires |d.engine.buffer| < SE.HIGH_WATER_MARK && |d.engine.buffer| + |pcm| <= SE.MAX_BUFFER
    ensures ChunkData(d, pcm) == d.(engine := ChunkData(d, pcm).engine) && ChunkMessages(d) == []
    ensures |ChunkData(d, pcm).engine.buffer| == |d.engine.buffer| + |pcm|
  {
  }

  /** A configured session with ten seconds of audio and nothing going on. */
  predicate Loaded(m: Machine) {
    m == READY.(d := READY_DATA.(engine := m.d.engine)) && |m.d.engine.buffer| == 160000
  }

  lemma LoadedIsReached(pcm: seq<real>)
    requires |pcm| == 160000
    ensures Loaded(Run(START, CONFIGURE + SendAudio(pcm)))
  {
    ReadyIsReached();
    RunSplit(START, CONFIGURE, SendAudio(pcm));
    ChunkIsHandled(READY, pcm);
    AudioIsAdded(READY_DATA, pcm);
  }

  /** Without a decoder slot the thread reports that it is busy and goes idle again. */
  lemma BusyReport(m: Machine, steps: seq<Step>)
    requires Loaded(m)
    requires var go := FlushGo(Poll(false)); steps == [go, go, go] + [go] + [go]
    ensures Run(m, steps) == m.(d := Emit(m.d.(degraded := true), Busy))
  {
    var go := FlushGo(Poll(false));
    var busy := m.d.(degraded := true);
    var told := m.(d := Emit(busy, Busy), flush := BusyRelock);
    BusyIsTold(m);
    RunMore(m, [go, go, go], go);
    assert Apply(told, go) == told.(flush := Leaving(false), owner := FlushThread);
    RunMore(m, [go, go, go] + [go], go);
  }

  lemma BusyIsTold(m: Machine)
    requires Loaded(m)
    ensures var go := FlushGo(Poll(false));
      Run(m, [go, go, go]) == m.(d := Emit(m.d.(degraded := true), Busy), flush := BusyRelock)
  {
    var go := FlushGo(Poll(false));
    var polling := m.(flush := Polling(Poll(false)), owner := FlushThread);
    var busy := m.(d := m.d.(degraded := true), flush := BusySend);
    assert Triggered(m.d, Poll(false));
    RunThree(m, go, go, go);
    assert Apply(m, go) == polling && Apply(polling, go) == busy;
  }

  /**
    The hazard is real: there is a run from the start in which a session runs out of decoder slots,
    gets one again, and loses its connection just while it tells the client so.
  */
  lemma MissingEngineIsUsed(pcm: seq<real>) returns (steps: seq<Step>)
    requires |pcm| == 160000
    ensures Run(START, steps).flush.NoEngine?
  {
    LoadedIsReached(pcm);
    var start, no := CONFIGURE + SendAudio(pcm), FlushGo(Poll(false));
    var m := Run(START, start);
    var busy := [no, no, no] + [no] + [no];
    BusyReport(m, busy);
    RunSplit(START, start, busy);
    var more := EngineIsLost(Run(m, busy));
    RunSplit(START, start + busy, more);
    steps := start + busy + more;
  }

  lemma EngineIsLost(m: Machine) returns (steps: seq<Step>)
    requires m == READY.(d := m.d) && m.d.configured && m.d.hasEngine && m.d.degraded
    requires m.d.last == 0 && |m.d.engine.buffer| == 160000
    ensures Run(m, steps).flush.NoEngine?
  {
    var go := FlushGo(Poll(true));
    var polling := m.(flush := Polling(Poll(true)), owner := FlushThread);
    var free := m.(d := m.d.(degraded := false), flush := FreeSend(160000, NO_PASS));
    assert Triggered(m.d, Poll(true));
    RunOne(m, go);
    RunMore(m, [go], go);
    assert Apply(m, go) == polling && Apply(polling, go) == free;
    var gone := free.(d := free.d.(hasEngine := false), recv := Gone);
    ReaderLeaves(free, gone);
    var more := UseIsReached(gone, Poll(true), 3);
    RunSplit(free, [RecvThrows, RecvLock, RecvUnlock], more);
    RunSplit(m, [go] + [go], [RecvThrows, RecvLock, RecvUnlock] + more);
    steps := [go] + [go] + ([RecvThrows, RecvLock, RecvUnlock] + more);
  }

  lemma ReaderLeaves(m: Machine, gone: Machine)
    requires !Dead(m) && m.recv.Reading? && m.owner.Nobody?
    requires gone == m.(d := m.d.(hasEngine := false), recv := Gone)
    ensures Run(m, [RecvThrows, RecvLock, RecvUnlock]) == gone
  {
    RunThree(m, RecvThrows, RecvLock, RecvUnlock);
    var asking, inside := m.(recv := ReleaseLock), m.(recv := ReleaseSection, owner := RecvThread);
    assert Apply(m, RecvThrows) == asking && Apply(asking, RecvLock) == inside;
  }

  /** The end handler of a session at rest, with a close that fails, then once more. */
  function EndTwice(): seq<Step> {
    CONFIGURE + ([RecvEnd, FlushGo(Poll(false)), RecvJoin] + [RecvLock]
                 + [RecvFinal(false, NO_PASS)] + [RecvFinalSend] + [RecvFinalClose(false)]) + END_AGAIN
  }

  /** A run from the start with two final messages. */
  lemma TwoFinalMessages()
    ensures var log := Run(START, EndTwice()).d.log;
      |log| == 3 && IsFinal(log[1]) && IsFinal(log[2])
  {
    var first := [RecvEnd, FlushGo(Poll(false)), RecvJoin];
    var told := Machine(READY_DATA.(ended := true, log := [Out(Ready), Out(Transcription("", true, false))]),
                        Exited, Reading, Nobody, false, false);
    ReadyIsReached();
    FirstEnd();
    FirstFinal(READY.(flush := Exited, recv := FinalLock, running := false), told);
    RunMore(READY, first, RecvLock);
    RunMore(READY, first + [RecvLock], RecvFinal(false, NO_PASS));
    RunMore(READY, first + [RecvLock] + [RecvFinal(false, NO_PASS)], RecvFinalSend);
    RunMore(READY, first + [RecvLock] + [RecvFinal(false, NO_PASS)] + [RecvFinalSend], RecvFinalClose(false));
    var once := first + [RecvLock] + [RecvFinal(false, NO_PASS)] + [RecvFinalSend] + [RecvFinalClose(false)];
    RunSplit(START, CONFIGURE, once);
    RunSplit(START, CONFIGURE + once, END_AGAIN);
    SecondFinalIsSent(told);
  }

  lemma FirstEnd()
    ensures Run(READY, [RecvEnd, FlushGo(Poll(false)), RecvJoin]) ==
      READY.(flush := Exited, recv := FinalLock, running := false)
  {
    var waiting := READY.(recv := Joining, running := false);
    RunThree(READY, RecvEnd, FlushGo(Poll(false)), RecvJoin);
    assert Apply(READY, RecvEnd) == waiting && Apply(waiting, FlushGo(Poll(false))) == waiting.(flush := Exited);
  }

  lemma FirstFinal(m: Machine, told: Machine)
    requires m == READY.(flush := Exited, recv := FinalLock, running := false)
    requires told == Machine(READY_DATA.(ended := true, log := [Out(Ready), Out(Transcription("", true, false))]),
                             Exited, Reading, Nobody, false, false)
    ensures Apply(Apply(Apply(Apply(m, RecvLock), RecvFinal(false, NO_PASS)), RecvFinalSend), RecvFinalClose(false)) == told
  {
    var inside := m.(recv := FinalSection, owner := RecvThread);
    var heard := m.(d := READY_DATA.(ended := true), recv := FinalSend("", false));
    assert Apply(m, RecvLock) == inside;
    assert Finalized(READY_DATA, false, NO_PASS) == Some(READY_DATA.(ended := true));
    assert Apply(inside, RecvFinal(false, NO_PASS)) == heard;
    assert [Out(Ready)] + [Out(Transcription("", true, false))] == [Out(Ready), Out(Transcription("", true, false))];
    assert Apply(heard, RecvFinalSend) == told.(recv := Closing);
  }

  // ---------------------------------------------------------------- audio lost without a report

  /**
    A chunk that is accepted is never reported; it pushes old audio out of the buffer, undecoded, if
    and only if the two together are longer than the buffer can be.
  */
  lemma LostInSilenceExactlyIf(d: Data, pcm: seq<real>)
    requires d.configured && d.hasEngine && |d.engine.buffer| < 320000
    ensures ChunkData(d, pcm) == d.(engine := ChunkData(d, pcm).engine) && ChunkMessages(d) == []
    ensures var appended := ChunkData(d, pcm).engine.accepted[|d.engine.accepted|..];
      && |appended| == |pcm|
      && (ChunkData(d, pcm).engine.buffer != d.engine.buffer + appended <==> |d.engine.buffer| + |pcm| > 480000)
  {
    var prepared := SE.AP.Prepared(d.engine.filter, pcm);
    assert (d.engine.accepted + prepared)[|d.engine.accepted|..] == prepared;
  }

  /** Two frames of a megabyte, nothing decoded in between: 44288 samples are gone and nobody is told. */
  lemma AudioIsLostInSilence(a: seq<real>, b: seq<real>)
    requires |a| == 262144 && |b| == 262144
    ensures var d := Run(START, CONFIGURE + SendAudio(a) + SendAudio(b)).d;
      d.log == [Out(Ready)] && |d.engine.accepted| == 524288 && |d.engine.buffer| == 480000
  {
    ReadyIsReached();
    var one := READY.(d := ChunkData(READY_DATA, a));
    RunSplit(START, CONFIGURE, SendAudio(a));
    ChunkIsHandled(READY, a);
    AudioIsAdded(READY_DATA, a);
    RunSplit(START, CONFIGURE + SendAudio(a), SendAudio(b));
    ChunkIsHandled(one, b);
    LostInSilenceExactlyIf(one.d, b);
  }
}
