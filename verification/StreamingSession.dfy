/**
  A streaming session (src/server/StreamingSession.h) as the object the source has: handlers that
  update its fields and write to the peer. Each runs here without interruption; what it does to the
  state and the log is tied to the steps of the two-thread machine.

  The decoder, the voice-activity model, the decoder slots, the clock, the JSON text and the peer
  are arguments.
*/
module StreamingSession {
  import opened Common
  import BR = ByteRate
  import HG = HallucinationGuard
  import SE = StreamingEngine
  import VG = VadGate
  import ST = SessionText
  import opened SessionEnd
  import opened SessionThreads

  const MAX_FRAME_BYTES := 1048576
  const FLOAT_BYTES := 4

  /** What becomes of a `config` message; an accepted one sets the padding of the silence gate, if there is one. */
  datatype ConfigCase = TokenMissing | TokenRejected | LoadFails | Accepted(speechPadMs: Option<int>)

  /** 16 samples of padding for each millisecond. */
  function GatingFor(speechPadMs: Option<int>): (gating: SE.Gating)
    ensures gating == if speechPadMs.None? then None else Some(16 * speechPadMs.value)
  {
    if speechPadMs.None? then None else Some(speechPadMs.value * VG.SAMPLE_RATE / 1000)
  }

  datatype FrameCase = TooLarge | TooSmall | NotConfigured | Misaligned | TooFast | Taken

  /** The guards in the order of the source. */
  function CaseOf(size: nat, configured: bool, rate: BR.Rate, now: int): FrameCase {
    if size > MAX_FRAME_BYTES then TooLarge
    else if size < FLOAT_BYTES then TooSmall
    else if !configured then NotConfigured
    else if size % FLOAT_BYTES != 0 then Misaligned
    else if BR.Exceeds(rate, BR.Frame(size, now)) then TooFast
    else Taken
  }

  predicate Sized(size: nat) {
    4 <= size <= 1048576
  }

  /**
    A frame is taken if and only if it has 4 to 1048576 bytes, a whole number of samples, a configured
    session and a window that is not over 614400 bytes when it ends; of several faults the client is told
    of the first.
  */
  lemma TakenExactlyIf(size: nat, configured: bool, rate: BR.Rate, now: int)
    ensures var c := CaseOf(size, configured, rate, now);
      var exceeds := now - rate.start >= 3000000000 && rate.bytes + size > 614400;
      && (c.Taken? <==> Sized(size) && configured && size % 4 == 0 && !exceeds)
      && (c.TooLarge? <==> size > 1048576) && (c.TooSmall? <==> size < 4)
      && (c.NotConfigured? <==> Sized(size) && !configured)
      && (c.Misaligned? <==> Sized(size) && configured && size % 4 != 0)
  {
  }

  // ---------------------------------------------------------------- whole flush cycles

  /** The machine with an idle receive thread and the flush thread at `flush`. */
  function At(d: Data, flush: FlushPc): Machine {
    Machine(d, flush, Reading, if Held(flush) then FlushThread else Nobody, true, false)
  }

  /** The flush thread's cycle from `flush` on, nobody interfering. */
  ghost function Finish(d: Data, flush: FlushPc): (Data, FlushPc)
    decreases Rank(flush)
  {
    if InSend(flush) then Finish(Emit(d, MessageOf(flush)), Relocking(flush))
    else if InRelock(flush) then Finish(d, Relocked(flush))
    else if Held(flush) then
      SectionLowersRank(d, flush);
      var (d', flush') := FlushSection(d, flush);
      Finish(d', flush')
    else (d, flush)
  }

  function Outs(msgs: seq<Message>): seq<Item> {
    if msgs == [] then [] else [Out(msgs[0])] + Outs(msgs[1..])
  }

  lemma OutsOfTwo(a: Message, b: Message)
    ensures Outs([a]) == [Out(a)] && Outs([a, b]) == [Out(a), Out(b)]
  {
    assert [a][1..] == [] && [b][1..] == [] && [a, b][1..] == [b];
    assert Outs([b]) == [Out(b)];
  }

  function Sent(d: Data, msgs: seq<Message>): Data {
    d.(log := d.log + Outs(msgs))
  }

  lemma BusyCycle(d: Data)
    ensures Finish(d, BusySend) == (Emit(d, Busy), Idle)
  {
    assert Finish(Emit(d, Busy), Leaving(false)) == (Emit(d, Busy), Idle);
    assert Finish(Emit(d, Busy), BusyRelock) == (Emit(d, Busy), Idle);
  }

  lemma PollCycle(d: Data, env: FlushEnv)
    ensures var (d', flush) := Begun(d, env); Finish(d, Polling(env)) == Finish(d', flush)
  {
    assert FlushSection(d, Polling(env)) == Begun(d, env);
  }

  lemma FreeCycle(d: Data, cur: nat, pass: SE.Pass)
    ensures Finish(d, FreeSend(cur, pass)) == Finish(Emit(d, Free), Infer(cur, pass))
  {
    assert Finish(Emit(d, Free), FreeRelock(cur, pass)) == Finish(Emit(d, Free), Infer(cur, pass));
  }

  /** Where a pass goes on once its commit has left `d`. */
  function AfterPass(d: Data, cur: nat, res: SE.Transcript): FlushPc {
    if d.overflowed && |d.engine.buffer| < LOW_WATER_MARK then
      if d.dropped % WARNING_INTERVAL != 0 then WarnSend(cur, res, d.dropped) else ResumeSend(cur, res)
    else Texts(cur, res)
  }

  lemma PassCycle(d: Data, cur: nat, pass: SE.Pass, outcome: SE.Outcome, action: SE.Action)
    requires d.hasEngine
    requires outcome == SE.OutcomeOf(d.gating, d.engine.buffer, pass, false)
    requires action == SE.ActionOf(d.gating, d.engine.buffer, pass, false)
    ensures var (d', flush) := AfterDecode(d, cur, outcome, action);
      Finish(d, Infer(cur, pass)) == Finish(d', flush)
  {
    assert FlushSection(d, Infer(cur, pass)) == (d, Commit(cur, d.engine.buffer, outcome, action));
    CommitCycle(d, cur, d.engine.buffer, outcome, action);
  }

  /** A whole pass, with the state its commit leaves. */
  lemma PassGoes(d: Data, cur: nat, pass: SE.Pass, outcome: SE.Outcome, d': Data)
    requires d.hasEngine && outcome == SE.OutcomeOf(d.gating, d.engine.buffer, pass, false)
    requires d' == d.(engine := SE.Apply(d.engine, SE.Commit(SE.ActionOf(d.gating, d.engine.buffer, pass, false))))
    ensures outcome.Threw? ==> Finish(d, Infer(cur, pass)) == (d, Terminated)
    ensures outcome.Done? ==> Finish(d, Infer(cur, pass)) == Finish(d', AfterPass(d', cur, outcome.result))
  {
    var action := SE.ActionOf(d.gating, d.engine.buffer, pass, false);
    PassCycle(d, cur, pass, outcome, action);
    DecodeGoes(d, cur, outcome, action, d');
  }

  lemma DecodeGoes(d: Data, cur: nat, outcome: SE.Outcome, action: SE.Action, d': Data)
    requires d' == d.(engine := SE.Apply(d.engine, SE.Commit(action)))
    ensures AfterDecode(d, cur, outcome, action) ==
      if outcome.Threw? then (d, Terminated) else (d', AfterPass(d', cur, outcome.result))
  {
  }

  lemma CommitCycle(d: Data, cur: nat, snapshot: seq<real>, outcome: SE.Outcome, action: SE.Action)
    ensures var (d', flush) := AfterDecode(d, cur, outcome, action);
      Finish(d, Commit(cur, snapshot, outcome, action)) == Finish(d', flush)
  {
    assert FlushSection(d, Commit(cur, snapshot, outcome, action)) == AfterDecode(d, cur, outcome, action);
  }

  lemma WarnCycle(d: Data, cur: nat, res: SE.Transcript, dropped: nat)
    ensures Finish(d, WarnSend(cur, res, dropped)) == Finish(Emit(d, BufferFull(dropped)), ResumeSend(cur, res))
  {
    var d' := Emit(d, BufferFull(dropped));
    assert Finish(d', Warned(cur, res)) == Finish(d', ResumeSend(cur, res));
    assert Finish(d', WarnRelock(cur, res)) == Finish(d', Warned(cur, res));
  }

  lemma ResumeCycle(d: Data, cur: nat, res: SE.Transcript)
    ensures Finish(d, ResumeSend(cur, res)) ==
      Finish(Emit(d, Resume).(overflowed := false, dropped := 0), Texts(cur, res))
  {
    var d' := Emit(d, Resume);
    assert Finish(d', Resumed(cur, res)) == Finish(d'.(overflowed := false, dropped := 0), Texts(cur, res));
    assert Finish(d', ResumeRelock(cur, res)) == Finish(d', Resumed(cur, res));
  }

  lemma TextsCycle(d: Data, cur: nat, res: SE.Transcript)
    requires d.hasEngine
    ensures var (d', flush) := AfterTexts(d, cur, res);
      Finish(d, Texts(cur, res)) ==
        (if flush.TextSend? then Emit(d', Transcription(flush.text, false, true)) else d', Idle)
  {
    var (d', flush) := AfterTexts(d, cur, res);
    assert FlushSection(d, Texts(cur, res)) == (d', flush);
    if flush.TextSend? {
      TextCycle(d', flush.text);
    }
  }

  lemma TextCycle(d: Data, text: string)
    ensures Finish(d, TextSend(text)) == (Emit(d, Transcription(text, false, true)), Idle)
  {
    var d' := Emit(d, Transcription(text, false, true));
    assert Finish(d', Leaving(true)) == (d', Idle);
    assert Finish(d', TextRelock) == (d', Idle);
  }

  // ---------------------------------------------------------------- handlers are runs

  lemma FlushStepIsAStep(d: Data, flush: FlushPc, env: FlushEnv)
    requires InSend(flush) || InRelock(flush) || Held(flush)
    ensures Apply(At(d, flush), FlushGo(env)) ==
      if InSend(flush) then At(Emit(d, MessageOf(flush)), Relocking(flush))
      else if InRelock(flush) then At(d, Relocked(flush))
      else At(FlushSection(d, flush).0, FlushSection(d, flush).1)
  {
  }

  /** The rest of a cycle is steps of the flush thread alone. */
  lemma {:induction false} FinishIsARun(d: Data, flush: FlushPc, env: FlushEnv) returns (steps: seq<Step>)
    ensures Run(At(d, flush), steps) == At(Finish(d, flush).0, Finish(d, flush).1)
    ensures forall i :: 0 <= i < |steps| ==> steps[i].FlushGo?
    decreases Rank(flush)
  {
    steps := [];
    if InSend(flush) || InRelock(flush) || Held(flush) {
      var next := if InSend(flush) then (Emit(d, MessageOf(flush)), Relocking(flush))
                  else if InRelock(flush) then (d, Relocked(flush))
                  else FlushSection(d, flush);
      FlushStepIsAStep(d, flush, env);
      if Held(flush) {
        SectionLowersRank(d, flush);
      }
      var rest := FinishIsARun(next.0, next.1, env);
      RunOne(At(d, flush), FlushGo(env));
      RunSplit(At(d, flush), [FlushGo(env)], rest);
      steps := [FlushGo(env)] + rest;
    }
  }

  /** A flush cycle that gets the mutex is steps of the flush thread alone. */
  lemma FlushCycleIsARun(d: Data, env: FlushEnv) returns (steps: seq<Step>)
    ensures Run(At(d, Idle), steps) == At(Finish(d, Polling(env)).0, Finish(d, Polling(env)).1)
    ensures forall i :: 0 <= i < |steps| ==> steps[i].FlushGo?
  {
    var rest := FinishIsARun(d, Polling(env), env);
    RunOne(At(d, Idle), FlushGo(env));
    assert Apply(At(d, Idle), FlushGo(env)) == At(d, Polling(env));
    RunSplit(At(d, Idle), [FlushGo(env)], rest);
    steps := [FlushGo(env)] + rest;
  }

  lemma OneSend(m: Machine, msg: Message, rest: seq<Message>)
    requires !Dead(m) && m.recv == Sending([msg] + rest)
    ensures var next := m.(d := Emit(m.d, msg), recv := ToSend(rest));
      Apply(m, RecvSend) == next && Sent(m.d, [msg] + rest) == Sent(next.d, rest)
  {
    var msgs := [msg] + rest;
    assert msgs[0] == msg && msgs[1..] == rest;
    assert m.d.log + ([Out(msg)] + Outs(rest)) == m.d.log + [Out(msg)] + Outs(rest);
  }

  lemma {:induction false} SendsAreARun(m: Machine, msgs: seq<Message>) returns (steps: seq<Step>)
    requires m.recv == ToSend(msgs) && !Dead(m)
    ensures Run(m, steps) == m.(d := Sent(m.d, msgs), recv := Reading)
    ensures forall i :: 0 <= i < |steps| ==> steps[i].RecvSend?
    decreases |msgs|
  {
    steps := [];
    if msgs == [] {
      assert m.d.log + Outs([]) == m.d.log;
    } else {
      var msg, rest := msgs[0], msgs[1..];
      assert msgs == [msg] + rest;
      OneSend(m, msg, rest);
      var more := SendsAreARun(m.(d := Emit(m.d, msg), recv := ToSend(rest)), rest);
      RunFrom(m, RecvSend, more);
      steps := [RecvSend] + more;
    }
  }

  /** A chunk handler is one critical section and then its sends. */
  lemma ChunkHandlerIsARun(d: Data, pcm: seq<real>) returns (steps: seq<Step>)
    ensures Run(At(d, Idle), steps) == At(Sent(ChunkData(d, pcm), ChunkMessages(d)), Idle)
    ensures forall i :: 0 <= i < |steps| ==> !steps[i].FlushGo?
  {
    ChunkIsHandled(At(d, Idle), pcm);
    var m := At(d, Idle).(d := ChunkData(d, pcm), recv := ToSend(ChunkMessages(d)));
    var rest := SendsAreARun(m, ChunkMessages(d));
    RunSplit(At(d, Idle), SendAudio(pcm), rest);
    steps := SendAudio(pcm) + rest;
  }

  /** A configuration that gets the mutex is one critical section and then its answer. */
  lemma ConfigHandlerIsARun(d: Data, speechPadMs: Option<int>)
    ensures var gating := GatingFor(speechPadMs);
      Run(At(d, Idle), Configure(gating)) == At(Emit(Configured(d, gating), Ready), Idle)
  {
    ConfigIsHandled(At(d, Idle), GatingFor(speechPadMs));
  }

  /** What the end handler leaves behind, if the state it finds after the join is `d`. */
  function Ended(d: Data, slot: bool, pass: SE.Pass, closes: bool): Machine {
    var final := Finalized(d, slot, pass);
    if final.None? then Machine(d, Exited, ReleaseLock, Nobody, false, false)
    else
      Machine(Emit(final.value, Transcription(final.value.full, true, !d.hasEngine || slot)),
              Exited, Reading, Nobody, false, closes)
  }

  function EndSteps(slot: bool, pass: SE.Pass, closes: bool): seq<Step> {
    [RecvJoin, RecvLock, RecvFinal(slot, pass)] + [RecvFinalSend] + [RecvFinalClose(closes)]
  }

  lemma RunFive(m: Machine, a: Step, b: Step, c: Step, d: Step, e: Step)
    ensures Run(m, [a, b, c] + [d] + [e]) == Apply(Apply(Apply(Apply(Apply(m, a), b), c), d), e)
  {
    RunThree(m, a, b, c);
    RunMore(m, [a, b, c], d);
    RunMore(m, [a, b, c] + [d], e);
  }

  lemma JoinedIsEnded(m: Machine, slot: bool, pass: SE.Pass, closes: bool)
    requires m == Machine(m.d, Exited, Joining, Nobody, false, false)
    ensures Run(m, EndSteps(slot, pass, closes)) == Ended(m.d, slot, pass, closes)
  {
    var inside := m.(recv := FinalSection, owner := RecvThread);
    RunFive(m, RecvJoin, RecvLock, RecvFinal(slot, pass), RecvFinalSend, RecvFinalClose(closes));
    FinalIsEntered(m, inside);
    DecodedIsEnded(inside, slot, pass, closes);
  }

  lemma FinalIsEntered(m: Machine, inside: Machine)
    requires m == Machine(m.d, Exited, Joining, Nobody, false, false)
    requires inside == m.(recv := FinalSection, owner := RecvThread)
    ensures Apply(Apply(m, RecvJoin), RecvLock) == inside
  {
    assert Apply(m, RecvJoin) == m.(recv := FinalLock);
  }

  lemma DecodedIsEnded(m: Machine, slot: bool, pass: SE.Pass, closes: bool)
    requires m == Machine(m.d, Exited, FinalSection, RecvThread, false, false)
    ensures Apply(Apply(Apply(m, RecvFinal(slot, pass)), RecvFinalSend), RecvFinalClose(closes)) ==
      Ended(m.d, slot, pass, closes)
  {
    var final := Finalized(m.d, slot, pass);
    var m1 := FinalGone(m, slot, pass);
    if final.None? {
      assert m1 == m.(recv := ReleaseLock, owner := Nobody);
    } else {
      assert m1 == m.(d := final.value, recv := FinalSend(final.value.full, !m.d.hasEngine || slot), owner := Nobody);
      SentAndClosed(m1, closes);
    }
  }

  lemma SentAndClosed(m: Machine, closes: bool)
    requires m.flush.Exited? && m.recv.FinalSend?
    ensures Apply(Apply(m, RecvFinalSend), RecvFinalClose(closes)) ==
      m.(d := Emit(m.d, Transcription(m.recv.text, true, m.recv.complete)), recv := Reading, closed := closes)
  {
  }

  function Turns(env: FlushEnv, n: nat): seq<Step> {
    if n == 0 then [] else Turns(env, n - 1) + [FlushGo(env)]
  }

  lemma {:induction false} TurnsAreFlushSteps(env: FlushEnv, n: nat)
    ensures FlushSteps(Turns(env, n)) == n && |Turns(env, n)| == n
  {
    if n > 0 {
      TurnsAreFlushSteps(env, n - 1);
      assert Turns(env, n)[..n - 1] == Turns(env, n - 1);
    }
  }

  /**
    The end handler, wherever it finds the flush thread: that thread runs to its end, and what it
    leaves is decoded, told and closed; or a decoder exception ends the process or the session.
  */
  lemma EndHandlerIsARun(m: Machine, env: FlushEnv, slot: bool, pass: SE.Pass, closes: bool)
    returns (before: seq<Step>, after: seq<Step>)
    requires Inv(m) && !Dead(m) && m.recv.Reading? && !m.closed && m.d.configured
    ensures var joined := Run(m, before);
      Dead(joined) ||
        (joined == Machine(joined.d, Exited, Joining, Nobody, false, false)
         && Run(m, before + after) == Ended(joined.d, slot, pass, closes))
  {
    var waiting := Apply(m, RecvEnd);
    StepKeepsInv(m, RecvEnd);
    RunOne(m, RecvEnd);
    var turns := Turns(env, 16);
    TurnsAreFlushSteps(env, 16);
    RankIsBounded(waiting.flush);
    var k := JoinReturns(waiting, turns);
    before, after := [RecvEnd] + turns[..k], EndSteps(slot, pass, closes);
    RunSplit(m, [RecvEnd], turns[..k]);
    var joined := Run(waiting, turns[..k]);
    RunKeepsInv(waiting, turns[..k]);
    if !Dead(joined) {
      assert joined == Machine(joined.d, Exited, Joining, Nobody, false, false);
      JoinedIsEnded(joined, slot, pass, closes);
      RunSplit(m, before, after);
    }
  }

  lemma RankIsBounded(flush: FlushPc)
    ensures Rank(flush) <= 16
  {
  }

  // ---------------------------------------------------------------- the session itself

  /** After the last decode, before the fallback. */
  function Heard(d: Data, slot: bool, pass: SE.Pass): Data {
    if !d.hasEngine || !slot then d
    else
      var outcome := SE.OutcomeOf(d.gating, d.engine.buffer, pass, true);
      if outcome.Threw? then d
      else
        d.(engine := SE.Apply(d.engine, SE.Commit(SE.ActionOf(d.gating, d.engine.buffer, pass, true))),
           full := d.full + outcome.result.committed)
  }

  /** After the fallback and the final message. */
  function Concluded(d: Data, complete: bool): Data {
    var full := if d.full == "" then d.raw else d.full;
    Emit(d.(ended := true, full := full), Transcription(full, true, complete))
  }

  lemma EndedIsHeard(d: Data, slot: bool, pass: SE.Pass, closes: bool, heard: Data)
    requires Finalized(d, slot, pass).Some? && heard == Heard(d, slot, pass)
    ensures Ended(d, slot, pass, closes).d == Concluded(heard, !d.hasEngine || slot)
  {
    assert d.full + "" == d.full;
  }

  /** The end of a cycle, from the state after accumulation on. */
  lemma TextsAreTold(d: Data, cur: nat, res: SE.Transcript, d': Data)
    requires d.hasEngine && d' == Accumulated(d, cur, res)
    ensures Finish(d, Texts(cur, res)) ==
      (if ST.Worth(res) then Emit(d', Transcription(d'.full + ST.InFlight(res), false, true)) else d', Idle)
  {
    TextsCycle(d, cur, res);
    assert AfterTexts(d, cur, res) ==
      if ST.Worth(res) then (d', TextSend(d'.full + ST.InFlight(res))) else (d', Idle);
  }

  method NewEngine(speechPadMs: Option<int>) returns (engine: SE.Engine)
    ensures fresh(engine) && (engine.vadGate != null ==> fresh(engine.vadGate))
    ensures engine.Valid() && engine.View() == SE.EMPTY && engine.GatingOf() == GatingFor(speechPadMs)
  {
    var gate: VG.Gate? := null;
    if speechPadMs.Some? {
      gate := new VG.Gate(speechPadMs.value);
    }
    engine := new SE.Engine(gate);
  }

  class Session {
    var engine: SE.Engine?
    var configured: bool
    var bufferOverflowed: bool
    var droppedChunks: nat
    var capacityDegraded: bool
    var lastTranscribedSize: nat
    var fullTranscription: string
    var rawTranscription: string
    var rate: BR.Rate
    var flushRunning: bool
    var closed: bool
    ghost var commits: seq<string>
    ghost var ended: bool
    ghost var log: seq<Item>
    ghost var passed: nat  // audio bytes passed on

    ghost function IntakeView(): BR.Intake
      reads this
    {
      BR.Intake(rate, passed)
    }

    ghost function Frame(): set<object>
      reads this, engine
    {
      {this as object} + (if engine == null then {} else {engine as object})
      + (if engine == null || engine.vadGate == null then {} else {engine.vadGate as object})
    }

    ghost predicate Valid()
      reads this, engine
    {
      (configured <==> engine != null) && (engine != null ==> engine.Valid())
    }

    ghost function View(): Data
      reads this, engine
    {
      Data(configured, engine != null,
           if engine == null then None else engine.GatingOf(), if engine == null then SE.EMPTY else engine.View(),
           bufferOverflowed, droppedChunks, capacityDegraded, lastTranscribedSize,
           fullTranscription, rawTranscription, commits, ended, log)
    }

    constructor (now: int)
      ensures Valid() && View() == FRESH_DATA && !closed && flushRunning
      ensures IntakeView() == BR.TakeAll(now, [])
    {
      engine, configured, bufferOverflowed, droppedChunks, capacityDegraded := null, false, false, 0, false;
      lastTranscribedSize, fullTranscription, rawTranscription := 0, "", "";
      rate, flushRunning, closed := BR.Rate(0, now), true, false;
      commits, ended, log, passed := [], false, [], 0;
    }

    /** Writing to the peer is recorded, not modelled. */
    ghost method SendMessage(msg: Message)
      modifies this`log
      ensures log == old(log) + [Out(msg)]
    {
      log := log + [Out(msg)];
    }

    method ProcessAudioChunk(pcm: seq<real>)
      requires Valid()
      modifies this`bufferOverflowed, this`droppedChunks, this`log, engine
      ensures Valid() && View() == Sent(ChunkData(old(View()), pcm), ChunkMessages(old(View())))
    {
      ghost var before := View();
      if !configured || engine == null {
        assert log + Outs([]) == log;
        return;
      }
      var overflow := engine.ProcessAudioChunk(pcm);
      var enteringEpisode := overflow && !bufferOverflowed;
      var currentDropped := 0;
      if overflow {
        bufferOverflowed := true;
        droppedChunks := droppedChunks + 1;
        currentDropped := droppedChunks;
        log := log + [Drop];
      }
      assert View() == ChunkData(before, pcm);
      ghost var dropped := log;
      if enteringEpisode {
        SendMessage(Pause);
      }
      if overflow && currentDropped % WARNING_INTERVAL == 0 {
        SendMessage(BufferFull(currentDropped));
      }
      OutsOfTwo(Pause, BufferFull(currentDropped));
      OutsOfTwo(BufferFull(currentDropped), Pause);
      assert [Pause] + [BufferFull(currentDropped)] == [Pause, BufferFull(currentDropped)];
      assert log == dropped + Outs(ChunkMessages(before));
    }

    /** A binary frame of `size` bytes, holding the samples `pcm` if it is aligned. */
    method HandleBinaryMessage(size: nat, pcm: seq<real>, now: int, closes: bool) returns (c: FrameCase)
      requires Valid()
      modifies this`bufferOverflowed, this`droppedChunks, this`log, this`rate, this`passed, this`closed, engine
      ensures Valid() && c == CaseOf(size, configured, old(rate), now)
      ensures IntakeView() ==
        if c.TooFast? || c.Taken? then BR.Take(old(IntakeView()), BR.Frame(size, now)) else old(IntakeView())
      ensures closed == (old(closed) || ((c.TooLarge? || c.TooFast?) && closes))
      ensures View() ==
        if c.Taken? then Sent(ChunkData(old(View()), pcm), ChunkMessages(old(View())))
        else if c.NotConfigured? then Emit(old(View()), Failure("NOT_CONFIGURED"))
        else old(View())
    {
      if size > MAX_FRAME_BYTES {
        closed := closed || closes;
        return TooLarge;
      }
      if size < FLOAT_BYTES {
        return TooSmall;
      }
      if !configured {
        SendMessage(Failure("NOT_CONFIGURED"));
        return NotConfigured;
      }
      if size % FLOAT_BYTES != 0 {
        return Misaligned;
      }
      var elapsed := TruncDiv(now - rate.start, BR.NS_PER_SECOND);
      rate := BR.Rate(rate.bytes + size, rate.start);
      if elapsed >= BR.WINDOW_SECONDS {
        if rate.bytes > BR.MAX_BYTES_PER_WINDOW {
          closed := closed || closes;
          return TooFast;
        }
        rate := BR.Rate(0, now);
      }
      passed := passed + size;
      ProcessAudioChunk(pcm);
      return Taken;
    }

    /** A second configuration starts over with a new engine; the log goes on. */
    method HandleConfig(c: ConfigCase, closes: bool)
      requires Valid()
      modifies this
      ensures Valid() && flushRunning == old(flushRunning) && rate == old(rate)
      ensures View() == match c
        case TokenMissing => Emit(old(View()), Failure("AUTH_REQUIRED"))
        case TokenRejected => Emit(old(View()), Failure("AUTH_FAILED"))
        case LoadFails => Emit(old(View()), Failure("CONFIG_ERROR"))
        case Accepted(ms) => Emit(Configured(old(View()), GatingFor(ms)), Ready)
      ensures closed == (old(closed) || ((c.TokenMissing? || c.TokenRejected?) && closes))
      ensures c.Accepted? ==> fresh(engine)
    {
      match c
      case TokenMissing =>
        SendMessage(Failure("AUTH_REQUIRED"));
        closed := closed || closes;
      case TokenRejected =>
        SendMessage(Failure("AUTH_FAILED"));
        closed := closed || closes;
      case LoadFails =>
        SendMessage(Failure("CONFIG_ERROR"));
      case Accepted(ms) =>
        var e := NewEngine(ms);
        Adopt(e);
        SendMessage(Ready);
    }

    method Adopt(e: SE.Engine)
      requires Valid() && e.Valid() && e.View() == SE.EMPTY
      modifies this
      ensures Valid() && engine == e
      ensures View() == Configured(old(View()), e.GatingOf())
      ensures flushRunning == old(flushRunning) && rate == old(rate) && closed == old(closed)
    {
      ForgetTexts();
      ForgetEpisodes();
      engine, configured := e, true;
    }

    method ForgetTexts()
      modifies this`fullTranscription, this`rawTranscription, this`commits, this`ended
      ensures fullTranscription == "" && rawTranscription == "" && commits == [] && !ended
    {
      fullTranscription, rawTranscription := "", "";
      commits, ended := [], false;
    }

    method ForgetEpisodes()
      modifies this`lastTranscribedSize, this`capacityDegraded, this`bufferOverflowed, this`droppedChunks
      ensures lastTranscribedSize == 0 && !capacityDegraded && !bufferOverflowed && droppedChunks == 0
    {
      lastTranscribedSize, capacityDegraded, bufferOverflowed, droppedChunks := 0, false, false, 0;
    }

    /** One turn of the flush loop; true if an exception leaves the thread. */
    method FlushCycle(lockTaken: bool, env: FlushEnv) returns (terminates: bool)
      requires Valid() && flushRunning
      modifies Frame()
      ensures Valid() && engine == old(engine)
      ensures lockTaken ==> View() == old(View()) && !terminates
      ensures !lockTaken ==> View() == Finish(old(View()), Polling(env)).0
      ensures !lockTaken ==> (terminates <==> Finish(old(View()), Polling(env)).1.Terminated?)
    {
      if lockTaken {
        return false;
      }
      PollCycle(View(), env);
      if !configured || engine == null {
        return false;
      }
      var currentSize := engine.GetBufferSize();
      if currentSize < MIN_BUFFER {
        return false;
      }
      var enoughNewAudio := SubSize(currentSize, lastTranscribedSize) >= env.minNew;
      var silenceFlush := env.silenceMs > 400 && currentSize > lastTranscribedSize;
      if !enoughNewAudio && !silenceFlush {
        return false;
      }
      assert Triggered(View(), env);
      if !env.slot {
        if !capacityDegraded {
          capacityDegraded := true;
          BusyCycle(View());
          SendMessage(Busy);
        }
        return false;
      }
      if capacityDegraded {
        capacityDegraded := false;
        FreeCycle(View(), currentSize, env.pass);
        SendMessage(Free);
      }
      terminates := RunPass(currentSize, env.pass);
    }

    /** Decode, close a saturation episode that is over, account for the texts. */
    method RunPass(currentSize: nat, pass: SE.Pass) returns (terminates: bool)
      requires Valid() && engine != null
      modifies Frame()
      ensures Valid() && engine == old(engine) && flushRunning == old(flushRunning)
      ensures View() == Finish(old(View()), Infer(currentSize, pass)).0
      ensures terminates <==> Finish(old(View()), Infer(currentSize, pass)).1.Terminated?
    {
      ghost var before := View();
      var outcome := engine.TranscribeSlidingWindow(false, pass);
      ghost var action := SE.ActionOf(before.gating, before.engine.buffer, pass, false);
      PassGoes(before, currentSize, pass, outcome, before.(engine := SE.Apply(before.engine, SE.Commit(action))));
      if outcome.Threw? {
        return true;
      }
      CloseAndAccount(currentSize, outcome.result);
      return false;
    }

    /** If the pass has drained the buffer a saturation episode is over. */
    method CloseAndAccount(currentSize: nat, res: SE.Transcript)
      requires Valid() && engine != null
      modifies this`bufferOverflowed, this`droppedChunks, this`log
      modifies this`fullTranscription, this`rawTranscription, this`lastTranscribedSize, this`commits
      ensures Valid() && Finish(old(View()), AfterPass(old(View()), currentSize, res)) == (View(), Idle)
    {
      var size := engine.GetBufferSize();
      if bufferOverflowed && size < LOW_WATER_MARK {
        EndEpisode(currentSize, res);
      }
      AccountFor(currentSize, res);
    }

    /** Report any drops not covered by a periodic warning. */
    method ReportOwed(ghost currentSize: nat, ghost res: SE.Transcript)
      requires Valid()
      modifies this`log
      ensures Valid() && Finish(View(), ResumeSend(currentSize, res)) == Finish(old(View()),
        if droppedChunks % WARNING_INTERVAL != 0 then WarnSend(currentSize, res, droppedChunks)
        else ResumeSend(currentSize, res))
    {
      if droppedChunks % WARNING_INTERVAL != 0 {
        WarnCycle(View(), currentSize, res, droppedChunks);
        SendMessage(BufferFull(droppedChunks));
      }
    }

    /** Report, resume, and only then clear the episode. */
    method EndEpisode(ghost currentSize: nat, ghost res: SE.Transcript)
      requires Valid()
      modifies this`bufferOverflowed, this`droppedChunks, this`log
      ensures Valid() && !bufferOverflowed && droppedChunks == 0
      ensures Finish(View(), Texts(currentSize, res)) == Finish(old(View()),
        if old(droppedChunks) % WARNING_INTERVAL != 0 then WarnSend(currentSize, res, old(droppedChunks))
        else ResumeSend(currentSize, res))
    {
      ReportOwed(currentSize, res);
      ResumeCycle(View(), currentSize, res);
      SendMessage(Resume);
      bufferOverflowed := false;
      droppedChunks := 0;
    }

    /** The raw text is the only copy left of what was erased, so it takes every commit. */
    method Accumulate(currentSize: nat, res: SE.Transcript, committedOk: bool)
      requires Valid() && engine != null && committedOk == Presentable(res.committed)
      modifies this`fullTranscription, this`rawTranscription, this`lastTranscribedSize, this`commits
      ensures Valid() && View() == Accumulated(old(View()), currentSize, res)
      ensures commits == old(commits) + if res.committed == "" then [] else [res.committed]
      ensures rawTranscription == old(rawTranscription) + res.committed
      ensures fullTranscription == old(fullTranscription) + if committedOk then res.committed else ""
      ensures lastTranscribedSize == if res.committed == "" then currentSize else |engine.audioBuffer|
    {
      assert fullTranscription + "" == fullTranscription && rawTranscription + "" == rawTranscription;
      if res.committed != "" {
        rawTranscription := rawTranscription + res.committed;
        commits := commits + [res.committed];
        if committedOk {
          fullTranscription := fullTranscription + res.committed;
        }
        lastTranscribedSize := engine.GetBufferSize();
      } else {
        assert commits + [] == commits;
        lastTranscribedSize := currentSize;
      }
    }

    /** The text is there and is no hallucination. */
    method MayBeTold(text: string) returns (ok: bool)
      ensures ok == Presentable(text)
    {
      var loops := HG.IsHallucination(text);
      ok := text != "" && !loops;
    }

    /** Tell the client what is committed and, if it may be told, what is still in flight. */
    method Tell(partial: string, committedOk: bool, partialOk: bool)
      modifies this`log
      ensures log == old(log) + if !committedOk && !partialOk then []
        else [Out(Transcription(fullTranscription + if partialOk then partial else "", false, true))]
    {
      if committedOk || partialOk {
        var merged := fullTranscription + if partialOk then partial else "";
        SendMessage(Transcription(merged, false, true));
      } else {
        assert log + [] == log;
      }
    }

    /** Filter hallucinations, accumulate, tell the client if there is something worth telling. */
    method AccountFor(currentSize: nat, res: SE.Transcript)
      requires Valid() && engine != null
      modifies this`fullTranscription, this`rawTranscription, this`lastTranscribedSize, this`commits, this`log
      ensures Valid() && Finish(old(View()), Texts(currentSize, res)) == (View(), Idle)
      ensures commits == old(commits) + if res.committed == "" then [] else [res.committed]
      ensures lastTranscribedSize == if res.committed == "" then currentSize else |engine.audioBuffer|
      ensures rawTranscription == old(rawTranscription) + res.committed
      ensures fullTranscription == old(fullTranscription) + if HG.Repetitive(res.committed) then "" else res.committed
      ensures log == old(log) +
        if ST.Worth(res) then [Out(Transcription(fullTranscription + ST.InFlight(res), false, true))] else []
    {
      ghost var before := View();
      var committedOk := MayBeTold(res.committed);
      var partialOk := MayBeTold(res.partial);
      Accumulate(currentSize, res, committedOk);
      TextsAreTold(before, currentSize, res, View());
      assert log + [] == log;
      Tell(res.partial, committedOk, partialOk);
    }

    /** The last chance to hear what is still in the buffer; nothing it says is filtered. */
    method LastDecode(slot: bool, pass: SE.Pass) returns (throws: bool)
      requires Valid()
      modifies Frame() - {this}, this`fullTranscription
      ensures Valid() && engine == old(engine)
      ensures throws <==> Finalized(old(View()), slot, pass).None?
      ensures throws ==> View() == old(View())
      ensures !throws ==> View() == Heard(old(View()), slot, pass)
    {
      assert fullTranscription + "" == fullTranscription;
      if engine != null && slot {
        var outcome := engine.TranscribeSlidingWindow(true, pass);
        if outcome.Threw? {
          return true;
        }
        fullTranscription := fullTranscription + outcome.result.committed;
      }
      return false;
    }

    /** Raw text if there is no other, and the final message. */
    method SendFinal(complete: bool)
      modifies this`fullTranscription, this`ended, this`log
      ensures View() == Concluded(old(View()), complete)
    {
      if fullTranscription == "" && rawTranscription != "" {
        fullTranscription := rawTranscription;
      }
      ended := true;
      SendMessage(Transcription(fullTranscription, true, complete));
    }

    /**
      Stop the flush loop, decode what is left, fall back to the raw text if nothing else is there,
      send the final message, close. An exception out of the decoder is the caller's.
    */
    method HandleEnd(slot: bool, pass: SE.Pass, closes: bool) returns (throws: bool)
      requires Valid() && configured
      modifies Frame()
      ensures Valid() && engine == old(engine) && !flushRunning
      ensures throws <==> Finalized(old(View()), slot, pass).None?
      ensures throws ==> View() == old(View()) && closed == old(closed)
      ensures !throws ==> closed == closes && View() == Ended(old(View()), slot, pass, closes).d
    {
      flushRunning := false;
      throws := LastDecode(slot, pass);
      if throws {
        return;
      }
      EndedIsHeard(old(View()), slot, pass, closes, View());
      SendFinal(engine == null || slot);
      closed := closes;
      return false;
    }
  }
}
