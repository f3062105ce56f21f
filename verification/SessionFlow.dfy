/**
  Flow control of a session configured once, read off the log of refused chunks and sent messages. It
  is kept by every run in which no chunk is refused while the flush thread is ending an episode and
  no episode is ended while the receive thread owes a message about it; where one of them happens,
  it can be broken.
*/
module SessionFlow {
  import opened Common
  import SE = StreamingEngine
  import VG = VadGate
  import opened SessionEnd
  import opened SessionText
  import opened SessionThreads

  // ---------------------------------------------------------------- reading a log

  /** A saturation episode so far: is the client paused, what was dropped, what was reported. */
  datatype Episode = Episode(paused: bool, drops: nat, warnings: seq<nat>)

  const CALM := Episode(false, 0, [])

  function After(e: Episode, item: Item): Episode {
    match item
    case Drop => e.(drops := e.drops + 1)
    case Out(Pause) => e.(paused := true)
    case Out(Resume) => CALM
    case Out(BufferFull(n)) => e.(warnings := e.warnings + [n])
    case Out(_) => e
  }

  /** The episode a log ends in. */
  function Since(log: seq<Item>): Episode {
    if log == [] then CALM else After(Since(log[..|log| - 1]), log[|log| - 1])
  }

  /** 10, 20, 30, ... up to ten times `k`. */
  function Tens(k: nat): seq<nat> {
    if k == 0 then [] else Tens(k - 1) + [10 * k]
  }

  /** What an episode with `drops` dropped chunks must have reported when it ends. */
  function AllWarnings(drops: nat): seq<nat> {
    Tens(drops / 10) + if drops % 10 == 0 then [] else [drops]
  }

  /**
    A pause comes with the first drop of an episode, a warning reports the drops so far, and a resume
    ends an episode all of whose drops have been reported.
  */
  predicate Allowed(e: Episode, item: Item) {
    match item
    case Out(Pause) => !e.paused && e.drops == 1
    case Out(Resume) => e.paused && e.drops > 0 && e.warnings == AllWarnings(e.drops)
    case Out(BufferFull(n)) => e.paused && n == e.drops
    case _ => true
  }

  predicate Orderly(log: seq<Item>) {
    log == [] || (Orderly(log[..|log| - 1]) && Allowed(Since(log[..|log| - 1]), log[|log| - 1]))
  }

  lemma OneMoreItem(log: seq<Item>, item: Item)
    ensures Since(log + [item]) == After(Since(log), item)
    ensures Orderly(log + [item]) <==> Orderly(log) && Allowed(Since(log), item)
  {
    assert (log + [item])[..|log|] == log;
  }

  /** The pauses and resumes of a log. */
  function Switches(log: seq<Item>): seq<Message> {
    if log == [] then []
    else
      var rest, last := Switches(log[..|log| - 1]), log[|log| - 1];
      if last == Out(Pause) || last == Out(Resume) then rest + [last.msg] else rest
  }

  predicate Alternates(switches: seq<Message>) {
    forall i :: 0 <= i < |switches| ==> switches[i] == if i % 2 == 0 then Pause else Resume
  }

  lemma {:induction false} OrderlyAlternates(log: seq<Item>)
    requires Orderly(log)
    ensures Alternates(Switches(log))
    ensures Since(log).paused <==> |Switches(log)| % 2 == 1
  {
    if log != [] {
      OrderlyAlternates(log[..|log| - 1]);
    }
  }

  lemma {:induction false} OrderlyAt(log: seq<Item>, i: nat)
    requires Orderly(log) && i < |log|
    ensures Allowed(Since(log[..i]), log[i])
  {
    if i < |log| - 1 {
      OrderlyAt(log[..|log| - 1], i);
      assert log[..|log| - 1][..i] == log[..i];
    }
  }

  /**
    After a commit a saturation episode is ended if and only if there is one and less than ten seconds
    are left; drops past the last warning are reported first. A decoder exception ends the process.
  */
  lemma EpisodeEndsExactlyIf(m: Machine, env: FlushEnv)
    requires Inv(m) && m.flush.Commit?
    ensures var m', left := Apply(m, FlushGo(env)), SE.Committed(m.d.engine.buffer, m.flush.action);
      && (m'.flush.Terminated? <==> m.flush.outcome.Threw?)
      && (m.flush.outcome.Done? ==>
            && m'.d == m.d.(engine := m.d.engine.(buffer := left))
            && (Ending(m'.flush) <==> m.d.overflowed && |left| < 160000)
            && (if !Ending(m'.flush) then m'.flush == FlushPc.Texts(m.flush.cur, m.flush.outcome.result)
                else if m.d.dropped % 10 != 0 then m'.flush == WarnSend(m.flush.cur, m.flush.outcome.result, m.d.dropped)
                else m'.flush == ResumeSend(m.flush.cur, m.flush.outcome.result)))
  {
  }

  // ---------------------------------------------------------------- overlaps

  /** The flush thread has decided to end the episode and has not cleared it yet. */
  predicate Ending(flush: FlushPc) {
    || flush.WarnSend? || flush.WarnRelock? || flush.Warned?
    || flush.ResumeSend? || flush.ResumeRelock? || flush.Resumed?
  }

  predicate Plain(msg: Message) {
    msg.Ready? || msg.Failure? || msg.Busy? || msg.Free? || msg.Transcription?
  }

  /** The receive thread still has to send a pause or a warning. */
  predicate Owes(recv: RecvPc) {
    recv.Sending? && recv.msgs != [] && !Plain(recv.msgs[0])
  }

  predicate Refuses(d: Data) {
    d.configured && d.hasEngine && |d.engine.buffer| >= 320000
  }

  predicate RefusedWhileEnding(m: Machine, step: Step) {
    step.RecvUnlock? && m.recv.ChunkSection? && Refuses(m.d) && Ending(m.flush)
  }

  predicate EndedWhileOwing(m: Machine, step: Step) {
    && step.FlushGo? && m.flush.Commit? && Owes(m.recv)
    && Ending(AfterDecode(m.d, m.flush.cur, m.flush.outcome, m.flush.action).1)
  }

  predicate Overlaps(m: Machine, step: Step) {
    !Dead(m) && (RefusedWhileEnding(m, step) || EndedWhileOwing(m, step))
  }

  /** From `m` on, no overlap and no second configuration. */
  ghost predicate Undisturbed(m: Machine, steps: seq<Step>) {
    forall k :: 0 <= k < |steps| ==>
      !Overlaps(Run(m, steps[..k]), steps[k]) && !Reconfigures(Run(m, steps[..k]), steps[k])
  }

  // ---------------------------------------------------------------- the log tells the state

  /** Sending `msgs` in episode `e` is allowed and leads to `e'`. */
  predicate Leads(e: Episode, msgs: seq<Message>, e': Episode)
    decreases |msgs|
  {
    if msgs == [] then e == e'
    else Allowed(e, Out(msgs[0])) && Leads(After(e, Out(msgs[0])), msgs[1..], e')
  }

  /** What the receive thread queues: one plain message, or what it owes after refusing a chunk. */
  predicate Queues(recv: RecvPc) {
    recv.Sending? ==>
      (|recv.msgs| == 1 && Plain(recv.msgs[0])) || recv.msgs == [Pause]
      || (|recv.msgs| == 1 && recv.msgs[0].BufferFull?)
      || (|recv.msgs| == 2 && recv.msgs[0] == Pause && recv.msgs[1].BufferFull?)
  }

  /** Messages about flow decided on and not sent yet. */
  function Pending(flush: FlushPc, recv: RecvPc): seq<Message> {
    if Owes(recv) then recv.msgs
    else if flush.WarnSend? then [BufferFull(flush.dropped), Resume]
    else if flush.WarnRelock? || flush.Warned? || flush.ResumeSend? then [Resume]
    else []
  }

  function EpisodeOf(overflowed: bool, dropped: nat): Episode {
    Episode(overflowed, dropped, Tens(dropped / 10))
  }

  function Settled(flush: FlushPc, d: Data): Episode {
    if Ending(flush) then CALM else EpisodeOf(d.overflowed, d.dropped)
  }

  /** Once what is pending is out, the log tells the state. */
  ghost predicate FlowInv(m: Machine) {
    && Orderly(m.d.log) && Leads(Since(m.d.log), Pending(m.flush, m.recv), Settled(m.flush, m.d))
    && (m.d.overflowed <==> m.d.dropped > 0)
    && Queues(m.recv) && (Ending(m.flush) ==> !Owes(m.recv) && m.d.overflowed)
    && (!m.d.configured ==> m.d.dropped == 0)
  }

  /** Steps that do not touch the log, the episode or what is pending. */
  lemma Unconcerned(m: Machine, m': Machine)
    requires FlowInv(m) && m'.d.log == m.d.log && Queues(m'.recv)
    requires m'.d.overflowed == m.d.overflowed && m'.d.dropped == m.d.dropped && (m.d.configured ==> m'.d.configured)
    requires Pending(m'.flush, m'.recv) == Pending(m.flush, m.recv) && Ending(m'.flush) == Ending(m.flush)
    requires Owes(m'.recv) == Owes(m.recv)
    ensures FlowInv(m')
  {
  }

  /** A message that is not about flow leaves the episode as it is. */
  lemma PlainItem(log: seq<Item>, msg: Message)
    requires Plain(msg)
    ensures Since(log + [Out(msg)]) == Since(log) && (Orderly(log) ==> Orderly(log + [Out(msg)]))
  {
    OneMoreItem(log, Out(msg));
  }

  lemma PlainSendIsUnconcerned(m: Machine, m': Machine, msg: Message)
    requires FlowInv(m) && Plain(msg) && m'.d == Emit(m.d, msg) && Queues(m'.recv)
    requires Pending(m'.flush, m'.recv) == Pending(m.flush, m.recv) && Ending(m'.flush) == Ending(m.flush)
    requires Owes(m'.recv) == Owes(m.recv)
    ensures FlowInv(m')
  {
    PlainItem(m.d.log, msg);
  }

  lemma PlainSendKeepsFlow(m: Machine)
    requires FlowInv(m) && (m.flush.BusySend? || m.flush.FreeSend? || m.flush.TextSend?)
    ensures FlowInv(SendGone(m))
  {
    PlainSendIsUnconcerned(m, SendGone(m), MessageOf(m.flush));
  }

  /** Sending the first of what is pending. */
  lemma FirstIsSent(log: seq<Item>, msg: Message, rest: seq<Message>, e: Episode)
    requires Orderly(log) && Leads(Since(log), [msg] + rest, e)
    ensures Orderly(log + [Out(msg)]) && Leads(Since(log + [Out(msg)]), rest, e)
  {
    var msgs := [msg] + rest;
    assert msgs[0] == msg && msgs[1..] == rest;
    OneMoreItem(log, Out(msg));
  }

  lemma EndingSendKeepsFlow(m: Machine)
    requires FlowInv(m) && (m.flush.WarnSend? || m.flush.ResumeSend?)
    ensures FlowInv(SendGone(m))
  {
    var msg := MessageOf(m.flush);
    var rest := Pending(Relocking(m.flush), m.recv);
    assert Pending(m.flush, m.recv) == [msg] + rest;
    FirstIsSent(m.d.log, msg, rest, CALM);
    var m' := SendGone(m);
    assert Settled(m'.flush, m'.d) == CALM;
  }

  lemma RelockKeepsFlow(m: Machine)
    requires FlowInv(m) && InRelock(m.flush)
    ensures FlowInv(RelockGone(m))
  {
    Unconcerned(m, RelockGone(m));
  }

  /** The end of an episode: any drops not reported yet, then resume. */
  lemma EndingIsOrderly(dropped: nat)
    requires dropped > 0
    ensures Leads(EpisodeOf(true, dropped),
                  if dropped % 10 != 0 then [BufferFull(dropped), Resume] else [Resume], CALM)
  {
    var e := EpisodeOf(true, dropped);
    assert [BufferFull(dropped), Resume][1..] == [Resume] && [Resume][1..] == [];
    if dropped % 10 != 0 {
      assert Leads(After(e, Out(BufferFull(dropped))), [Resume], CALM);
    } else {
      assert e.warnings + [] == e.warnings;
    }
  }

  lemma CommitKeepsFlow(m: Machine, env: FlushEnv)
    requires Inv(m) && FlowInv(m) && m.flush.Commit? && !EndedWhileOwing(m, FlushGo(env))
    ensures FlowInv(SectionGone(m))
  {
    AfterDecodeFrame(m.d, m.flush.cur, m.flush.outcome, m.flush.action);
    var m' := SectionGone(m);
    if Ending(m'.flush) {
      EndingIsOrderly(m.d.dropped);
      assert Pending(m.flush, m.recv) == [];
    } else {
      Unconcerned(m, m');
    }
  }

  /** The mutex is back after `resume`: now the episode is cleared. */
  lemma ClearingKeepsFlow(m: Machine)
    requires FlowInv(m) && m.flush.Resumed?
    ensures FlowInv(SectionGone(m))
  {
    assert Tens(0) == [];
    assert Pending(SectionGone(m).flush, m.recv) == Pending(m.flush, m.recv) == [];
  }

  lemma OtherSectionFrame(d: Data, flush: FlushPc)
    requires Held(flush) && !flush.Commit? && !flush.Resumed?
    ensures var (d', flush') := FlushSection(d, flush);
      && d'.log == d.log && d'.overflowed == d.overflowed && d'.dropped == d.dropped && d'.configured == d.configured
      && (flush.Warned? ==> flush'.ResumeSend?) && (!flush.Warned? ==> !Ending(flush'))
  {
    if flush.Texts? {
      var told := Accumulated(d, flush.cur, flush.res);
      assert told == d.(last := told.last, raw := told.raw, commits := told.commits, full := told.full);
    }
  }

  lemma SectionKeepsFlow(m: Machine)
    requires FlowInv(m) && Held(m.flush) && !m.flush.Commit? && !m.flush.Resumed?
    ensures FlowInv(SectionGone(m))
  {
    OtherSectionFrame(m.d, m.flush);
    Unconcerned(m, SectionGone(m));
  }

  lemma FlushKeepsFlow(m: Machine, env: FlushEnv)
    requires Inv(m) && FlowInv(m) && !EndedWhileOwing(m, FlushGo(env))
    ensures FlowInv(FlushGone(m, env))
  {
    if m.flush.WarnSend? || m.flush.ResumeSend? {
      EndingSendKeepsFlow(m);
    } else if InSend(m.flush) {
      PlainSendKeepsFlow(m);
    } else if InRelock(m.flush) {
      RelockKeepsFlow(m);
    } else if m.flush.Commit? {
      CommitKeepsFlow(m, env);
    } else if m.flush.Resumed? {
      ClearingKeepsFlow(m);
    } else if Held(m.flush) {
      SectionKeepsFlow(m);
    } else {
      Unconcerned(m, FlushGone(m, env));
    }
  }

  /** What is owed after one more refused chunk: a pause if it is the first, a warning if it is a tenth. */
  function OwedAfter(dropped: nat): seq<Message> {
    if dropped == 0 then [Pause]
    else if (dropped + 1) % 10 == 0 then [BufferFull(dropped + 1)]
    else []
  }

  lemma DropIsOrderly(dropped: nat)
    ensures Leads(After(EpisodeOf(dropped > 0, dropped), Drop), OwedAfter(dropped), EpisodeOf(true, dropped + 1))
  {
    var k, owed := dropped / 10, OwedAfter(dropped);
    if dropped == 0 {
      assert owed[1..] == [];
      assert (dropped + 1) / 10 == 0;
    } else if (dropped + 1) % 10 == 0 {
      assert owed[1..] == [];
      assert (dropped + 1) / 10 == k + 1 && 10 * (k + 1) == dropped + 1;
    } else {
      assert (dropped + 1) / 10 == k;
    }
  }

  /** The critical section of a refused chunk, on its own. */
  lemma ChunkSectionSays(d: Data, pcm: seq<real>)
    requires Refuses(d) && (d.overflowed <==> d.dropped > 0)
    ensures ChunkData(d, pcm) == d.(overflowed := true, dropped := d.dropped + 1, log := d.log + [Drop])
    ensures ChunkMessages(d) == OwedAfter(d.dropped)
  {
  }

  lemma DropIsLogged(log: seq<Item>, dropped: nat, owed: seq<Message>)
    requires Orderly(log) && Since(log) == EpisodeOf(dropped > 0, dropped)
    requires Leads(After(EpisodeOf(dropped > 0, dropped), Drop), owed, EpisodeOf(true, dropped + 1))
    ensures Orderly(log + [Drop]) && Leads(Since(log + [Drop]), owed, EpisodeOf(true, dropped + 1))
  {
    OneMoreItem(log, Drop);
  }

  lemma RefusalKeepsFlow(m: Machine)
    requires FlowInv(m) && m.recv.ChunkSection? && Refuses(m.d) && !Ending(m.flush)
    ensures FlowInv(UnlockGone(m))
  {
    ChunkSectionSays(m.d, m.recv.pcm);
    DropIsOrderly(m.d.dropped);
    DropIsLogged(m.d.log, m.d.dropped, OwedAfter(m.d.dropped));
    RefusedFrom(m, UnlockGone(m), OwedAfter(m.d.dropped));
  }

  lemma RefusedFrom(m: Machine, m': Machine, owed: seq<Message>)
    requires !Ending(m.flush) && m'.flush == m.flush && m'.recv == ToSend(owed)
    requires owed == [] || owed == [Pause] || (|owed| == 1 && owed[0].BufferFull?)
    requires m'.d.overflowed && m'.d.dropped > 0 && m'.d.configured && Orderly(m'.d.log)
    requires Leads(Since(m'.d.log), owed, EpisodeOf(true, m'.d.dropped))
    ensures FlowInv(m')
  {
    assert Pending(m'.flush, m'.recv) == owed;
  }

  lemma UnlockKeepsFlow(m: Machine)
    requires Inv(m) && FlowInv(m) && !Dead(m)
    requires !RefusedWhileEnding(m, RecvUnlock) && !Reconfigures(m, RecvUnlock)
    ensures FlowInv(UnlockGone(m))
  {
    if m.recv.ChunkSection? && Refuses(m.d) {
      RefusalKeepsFlow(m);
    } else if m.recv.ConfigSection? {
      assert Tens(0) == [];
      Unconcerned(m, UnlockGone(m));
    } else {
      Unconcerned(m, UnlockGone(m));
    }
  }

  lemma OwedSendKeepsFlow(m: Machine, msg: Message, rest: seq<Message>)
    requires FlowInv(m) && m.recv == Sending([msg] + rest) && !Plain(msg)
    ensures FlowInv(m.(d := Emit(m.d, msg), recv := ToSend(rest)))
  {
    var m' := m.(d := Emit(m.d, msg), recv := ToSend(rest));
    FirstIsSent(m.d.log, msg, rest, Settled(m.flush, m.d));
    assert Pending(m'.flush, m'.recv) == rest;
  }

  lemma OwnSendKeepsFlow(m: Machine)
    requires FlowInv(m)
    ensures FlowInv(RecvSendGone(m))
  {
    if m.recv.Sending? && m.recv.msgs != [] {
      var msg, rest := m.recv.msgs[0], m.recv.msgs[1..];
      if Plain(msg) {
        assert rest == [];
        PlainSendIsUnconcerned(m, RecvSendGone(m), msg);
      } else {
        assert m.recv.msgs == [msg] + rest;
        OwedSendKeepsFlow(m, msg, rest);
      }
    }
  }

  lemma FinalKeepsFlow(m: Machine, slot: bool, pass: SE.Pass)
    requires FlowInv(m)
    ensures FlowInv(FinalGone(m, slot, pass)) && FlowInv(FinalSendGone(m))
  {
    Unconcerned(m, FinalGone(m, slot, pass));
    if m.recv.FinalSend? {
      PlainSendIsUnconcerned(m, FinalSendGone(m), Transcription(m.recv.text, true, m.recv.complete));
    }
  }

  lemma ControlKeepsFlow(m: Machine, step: Step)
    requires FlowInv(m)
    ensures FlowInv(ControlGone(m, step))
  {
    Unconcerned(m, ControlGone(m, step));
  }

  lemma StepKeepsFlow(m: Machine, step: Step)
    requires Inv(m) && FlowInv(m) && !Reconfigures(m, step) && !Overlaps(m, step)
    ensures FlowInv(Apply(m, step))
  {
    if !Dead(m) {
      match step
      case FlushGo(env) => FlushKeepsFlow(m, env);
      case RecvUnlock => UnlockKeepsFlow(m);
      case RecvFinal(slot, pass) => FinalKeepsFlow(m, slot, pass);
      case RecvSend => OwnSendKeepsFlow(m);
      case RecvFinalSend => FinalKeepsFlow(m, true, NO_PASS);
      case _ => ControlKeepsFlow(m, step);
    }
  }

  lemma StartIsFlowing()
    ensures FlowInv(START)
  {
    assert Tens(0) == [];
  }

  lemma {:induction false} RunKeepsFlow(m: Machine, steps: seq<Step>)
    requires Inv(m) && FlowInv(m) && Undisturbed(m, steps)
    ensures FlowInv(Run(m, steps))
  {
    if steps != [] {
      var n := |steps| - 1;
      var init := steps[..n];
      forall k | 0 <= k < n
        ensures !Overlaps(Run(m, init[..k]), init[k]) && !Reconfigures(Run(m, init[..k]), init[k])
      {
        assert init[..k] == steps[..k];
      }
      RunKeepsFlow(m, init);
      RunKeepsInv(m, init);
      StepKeepsFlow(Run(m, init), steps[n]);
    }
  }

  /**
    Pauses and resumes strictly alternate, beginning with a pause; every resume closes an episode
    whose warnings were 10, 20, 30, ... and, if still owed, the exact number of dropped chunks; and
    while nothing about flow is being sent the open episode's warnings are up to date.
  */
  lemma FlowControl(steps: seq<Step>)
    requires ConfiguredOnce(steps) && forall k :: 0 <= k < |steps| ==> !Overlaps(Run(START, steps[..k]), steps[k])
    ensures var log := Run(START, steps).d.log;
      && Alternates(Switches(log))
      && (forall i :: 0 <= i < |log| ==> Allowed(Since(log[..i]), log[i]))
    ensures var m := Run(START, steps);
      !Owes(m.recv) && !Ending(m.flush) ==>
        Since(m.d.log) == Episode(m.d.overflowed, m.d.dropped, Tens(m.d.dropped / 10))
  {
    var log := Run(START, steps).d.log;
    forall k | 0 <= k < |steps| ensures !Reconfigures(Run(START, steps[..k]), steps[k]) {
      OnceMeansNoReconfiguration(steps, k);
    }
    StartIsFlowing();
    RunKeepsFlow(START, steps);
    OrderlyAlternates(log);
    forall i | 0 <= i < |log| ensures Allowed(Since(log[..i]), log[i]) {
      OrderlyAt(log, i);
    }
  }

  // ---------------------------------------------------------------- what an overlap can break

  lemma {:induction false} TensAre(k: nat)
    ensures |Tens(k)| == k && (k > 0 ==> Tens(k)[k - 1] == 10 * k)
  {
    if k > 0 {
      TensAre(k - 1);
    }
  }

  /** The complete report of an episode ends with its number of drops. */
  lemma ReportEndsWithDrops(drops: nat)
    requires drops > 0
    ensures var all := AllWarnings(drops); all != [] && all[|all| - 1] == drops
  {
    TensAre(drops / 10);
  }

  lemma OneMoreDropSpoils(e: Episode, item: Item)
    requires item.Out? && (item.msg.Resume? || item.msg.BufferFull?)
    requires Allowed(e, item)
    ensures !Allowed(After(e, Drop), item)
  {
    if item == Out(Resume) {
      ReportEndsWithDrops(e.drops);
      ReportEndsWithDrops(e.drops + 1);
    }
  }

  /** Some undisturbed continuation makes the log disorderly. */
  ghost predicate Breaks(m: Machine) {
    exists more :: Undisturbed(m, more) && !Orderly(Run(m, more).d.log)
  }

  /** Breaking later is breaking, if the step in between is harmless. */
  lemma BreaksLater(m: Machine, step: Step)
    requires !Overlaps(m, step) && !Reconfigures(m, step) && Breaks(Apply(m, step))
    ensures Breaks(m)
  {
    var m' := Apply(m, step);
    var more :| Undisturbed(m', more) && !Orderly(Run(m', more).d.log);
    var all := [step] + more;
    RunOne(m, step);
    RunSplit(m, [step], more);
    forall k | 0 <= k < |all| ensures !Overlaps(Run(m, all[..k]), all[k]) && !Reconfigures(Run(m, all[..k]), all[k]) {
      if k == 0 {
        assert all[..0] == [];
      } else {
        assert all[..k] == [step] + more[..k - 1];
        RunSplit(m, [step], more[..k - 1]);
        assert all[k] == more[k - 1];
      }
    }
    assert Undisturbed(m, all) && Run(m, all) == Run(m', more);
  }

  lemma BrokenAlready(m: Machine)
    requires !Orderly(m.d.log)
    ensures Breaks(m)
  {
    assert Undisturbed(m, []) && Run(m, []) == m;
  }

  /** Sending something that is not allowed breaks. */
  lemma BreaksNow(m: Machine, step: Step, msg: Message)
    requires !Overlaps(m, step) && !Reconfigures(m, step)
    requires Apply(m, step).d.log == m.d.log + [Out(msg)] && !Allowed(Since(m.d.log), Out(msg))
    ensures Breaks(m)
  {
    OneMoreItem(m.d.log, Out(msg));
    BrokenAlready(Apply(m, step));
    BreaksLater(m, step);
  }

  /** The flush thread at its next send, or on the way to it. */
  lemma EndingSendBreaks(m: Machine, env: FlushEnv)
    requires !Dead(m) && (m.flush.WarnSend? || m.flush.ResumeSend?)
    requires !Allowed(Since(m.d.log), Out(MessageOf(m.flush)))
    ensures Breaks(m)
  {
    BreaksNow(m, FlushGo(env), MessageOf(m.flush));
  }

  lemma WarnRelockBreaks(m: Machine, env: FlushEnv)
    requires m.flush.WarnRelock? && m.owner.Nobody? && !Allowed(Since(m.d.log), Out(Resume))
    ensures Breaks(m)
  {
    var go := FlushGo(env);
    var warned := Apply(m, go);
    assert warned == m.(flush := Warned(m.flush.cur, m.flush.res), owner := FlushThread);
    var resuming := Apply(warned, go);
    assert resuming == m.(flush := ResumeSend(m.flush.cur, m.flush.res));
    EndingSendBreaks(resuming, env);
    BreaksLater(warned, go);
    BreaksLater(m, go);
  }

  /** A chunk refused after `resume` but before the episode is cleared counts in no episode. */
  lemma LostDropBreaks(m: Machine, env: FlushEnv)
    requires Inv(m) && m.flush.ResumeRelock? && m.owner.Nobody? && m.recv.Reading? && !m.closed
    requires Refuses(m.d) && Since(m.d.log) == Episode(false, 1, [])
    ensures Breaks(m)
  {
    var go, cur, res := FlushGo(env), m.flush.cur, m.flush.res;
    var cleared := m.d.(overflowed := false, dropped := 0);
    var resumed := Apply(m, go);
    assert resumed == m.(flush := Resumed(cur, res), owner := FlushThread);
    var telling := Apply(resumed, go);
    assert telling == m.(d := cleared, flush := Texts(cur, res), owner := FlushThread);
    TextsLetGo(telling, env);
    NextRefusalBreaks(Apply(telling, go));
    BreaksLater(telling, go);
    BreaksLater(resumed, go);
    BreaksLater(m, go);
  }

  lemma TextsLetGo(m: Machine, env: FlushEnv)
    requires m.flush.Texts? && m.d.hasEngine
    ensures var m' := Apply(m, FlushGo(env));
      && m' == m.(d := m'.d, flush := m'.flush, owner := Nobody)
      && m'.d.log == m.d.log && m'.d.overflowed == m.d.overflowed && m'.d.dropped == m.d.dropped
      && m'.d.configured == m.d.configured && m'.d.hasEngine && m'.d.engine == m.d.engine
      && (m'.flush.Idle? || m'.flush.TextSend?)
  {
    var d := Accumulated(m.d, m.flush.cur, m.flush.res);
    assert d == m.d.(last := d.last, raw := d.raw, commits := d.commits, full := d.full);
  }

  lemma NextRefusalBreaks(m: Machine)
    requires (m.flush.Idle? || m.flush.TextSend?) && m.owner.Nobody? && m.recv.Reading? && !m.closed
    requires Refuses(m.d) && !m.d.overflowed && m.d.dropped == 0 && Since(m.d.log) == Episode(false, 1, [])
    ensures Breaks(m)
  {
    var asking, inside := m.(recv := ChunkLock([])), m.(recv := ChunkSection([]), owner := RecvThread);
    assert Apply(m, RecvChunk([])) == asking && Apply(asking, RecvLock) == inside;
    SecondPauseBreaks(inside);
    BreaksLater(asking, RecvLock);
    BreaksLater(m, RecvChunk([]));
  }

  lemma SecondPauseBreaks(m: Machine)
    requires (m.flush.Idle? || m.flush.TextSend?) && m.recv == ChunkSection([])
    requires Refuses(m.d) && !m.d.overflowed && m.d.dropped == 0 && Since(m.d.log) == Episode(false, 1, [])
    ensures Breaks(m)
  {
    ChunkSectionSays(m.d, []);
    assert ChunkMessages(m.d) == [Pause];
    var owing := m.(d := ChunkData(m.d, []), recv := Sending([Pause]), owner := Nobody);
    assert Apply(m, RecvUnlock) == owing;
    OneMoreItem(m.d.log, Drop);
    OwedPauseBreaks(owing);
    BreaksLater(m, RecvUnlock);
  }

  lemma OwedPauseBreaks(m: Machine)
    requires !Dead(m) && m.recv == Sending([Pause]) && Since(m.d.log).drops == 2
    ensures Breaks(m)
  {
    BreaksNow(m, RecvSend, Pause);
  }

  lemma OwedWarningBreaks(m: Machine)
    requires !Dead(m) && m.recv.Sending? && m.recv.msgs != [] && m.recv.msgs[0].BufferFull? && !Since(m.d.log).paused
    ensures Breaks(m)
  {
    BreaksNow(m, RecvSend, m.recv.msgs[0]);
  }

  lemma RefusalBreaks(m: Machine)
    requires Inv(m) && FlowInv(m) && !Dead(m) && RefusedWhileEnding(m, RecvUnlock)
    ensures Breaks(Apply(m, RecvUnlock))
  {
    ChunkSectionSays(m.d, m.recv.pcm);
    OneMoreItem(m.d.log, Drop);
    assert !Held(m.flush);
    StepKeepsInv(m, RecvUnlock);
    RefusedBreaks(m, Apply(m, RecvUnlock), OwedAfter(m.d.dropped));
  }

  lemma RefusedBreaks(m: Machine, m': Machine, owed: seq<Message>)
    requires Inv(m') && Ending(m.flush) && !Held(m.flush) && !m.closed && Refuses(m'.d)
    requires Leads(Since(m.d.log), Pending(m.flush, m.recv), CALM) && m.recv.ChunkSection?
    requires owed == [] || (|owed| == 1 && owed[0].BufferFull?)
    requires m' == m.(d := m'.d, recv := ToSend(owed), owner := Nobody) && Since(m'.d.log) == After(Since(m.d.log), Drop)
    ensures Breaks(m')
  {
    var pending := Pending(m.flush, m.recv);
    if m.flush.ResumeRelock? {
      assert pending == [];
      if owed != [] {
        OwedWarningBreaks(m');
      } else {
        LostDropBreaks(m', Poll(true));
      }
    } else {
      OneMoreDropSpoils(Since(m.d.log), Out(pending[0]));
      if m.flush.WarnRelock? {
        WarnRelockBreaks(m', Poll(true));
      } else {
        EndingSendBreaks(m', Poll(true));
      }
    }
  }

  /** What the flush thread is about to send is not allowed while the receive thread owes `msgs`. */
  lemma OwedFirst(e: Episode, msgs: seq<Message>, dropped: nat, msg: Message)
    requires Queues(Sending(msgs)) && Owes(Sending(msgs)) && Leads(e, msgs, EpisodeOf(true, dropped))
    requires msg == if dropped % 10 != 0 then BufferFull(dropped) else Resume
    ensures !Allowed(e, Out(msg))
  {
    if msgs[0] != Pause {
      assert msgs[1..] == [];
      var k := dropped / 10;
      TensAre(k);
      assert e.warnings + [dropped] == Tens(k);
      assert Tens(k)[|Tens(k)| - 1] == dropped;
    }
  }

  lemma EndingBreaks(m: Machine, env: FlushEnv)
    requires Inv(m) && FlowInv(m) && !Dead(m) && EndedWhileOwing(m, FlushGo(env))
    ensures Breaks(Apply(m, FlushGo(env)))
  {
    AfterDecodeFrame(m.d, m.flush.cur, m.flush.outcome, m.flush.action);
    var m' := Apply(m, FlushGo(env));
    assert m'.flush == AfterDecode(m.d, m.flush.cur, m.flush.outcome, m.flush.action).1;
    OwedFirst(Since(m.d.log), m.recv.msgs, m.d.dropped, MessageOf(m'.flush));
    EndingSendBreaks(m', env);
  }

  lemma UndisturbedDoesNotBreak(m: Machine)
    requires Inv(m) && FlowInv(m)
    ensures !Breaks(m)
  {
    forall more | Undisturbed(m, more) ensures Orderly(Run(m, more).d.log) {
      RunKeepsFlow(m, more);
    }
  }

  /**
    The two overlaps are exactly what flow control does not survive: from any state of an undisturbed
    run, after a step the log can become disorderly without further overlap if and only if that step
    is one. In particular a chunk that comes in while an episode is being ended does no harm if and
    only if it is accepted.
  */
  lemma BreaksExactlyAfterAnOverlap(m: Machine, step: Step)
    requires Inv(m) && FlowInv(m) && !Reconfigures(m, step)
    ensures Breaks(Apply(m, step)) <==> Overlaps(m, step)
  {
    if !Overlaps(m, step) {
      StepKeepsInv(m, step);
      StepKeepsFlow(m, step);
      UndisturbedDoesNotBreak(Apply(m, step));
    } else if RefusedWhileEnding(m, step) {
      RefusalBreaks(m);
    } else {
      EndingBreaks(m, step.env);
    }
  }

  // ---------------------------------------------------------------- both overlaps happen

  /** Twenty seconds decoded to one segment that ends at fifteen. */
  function LongPass(): SE.Pass {
    SE.Pass(VG.LoadFailed, SE.Decoded([SE.Segment(1500, Some("so"))]))
  }

  const SAID := SE.Transcript("so", "")

  const GO := FlushGo(FlushEnv(4000, 0, true, LongPass()))

  lemma LongPassSays(buffer: seq<real>)
    requires |buffer| == 320000
    ensures SE.OutcomeOf(None, buffer, LongPass(), false) == SE.Done(SAID)
    ensures SE.ActionOf(None, buffer, LongPass(), false) == SE.Erase(240000)
  {
    var segs := LongPass().decode.segments;
    assert SE.LastBefore(segs, 1800, 1) == 0;
    assert segs[..1] == segs && segs[1..] == [] && segs[..0] == [];
  }

  /** Twenty seconds in the buffer, one chunk refused, the flush thread idle. */
  predicate Overfull(m: Machine, recv: RecvPc) {
    && m == READY.(d := READY_DATA.(engine := m.d.engine, overflowed := true, dropped := 1, log := m.d.log), recv := recv)
    && |m.d.engine.buffer| == 320000
  }

  function FillUp(a: seq<real>, b: seq<real>): seq<Step> {
    CONFIGURE + SendAudio(a) + SendAudio(b) + SendAudio([])
  }

  /** Twenty seconds of audio in two chunks, then one more chunk, which is refused. */
  lemma OverfullIsReached(a: seq<real>, b: seq<real>)
    requires |a| == 160000 && |b| == 160000
    ensures var m := Run(START, FillUp(a, b));
      Overfull(m, Sending([Pause])) && Since(m.d.log) == Episode(false, 1, []) && Orderly(m.d.log)
  {
    LoadedIsReached(a);
    var one := Run(START, CONFIGURE + SendAudio(a));
    RunSplit(START, CONFIGURE + SendAudio(a), SendAudio(b));
    ChunkIsHandled(one, b);
    AudioIsAdded(one.d, b);
    var two := one.(d := ChunkData(one.d, b));
    RunSplit(START, CONFIGURE + SendAudio(a) + SendAudio(b), SendAudio([]));
    ChunkIsHandled(two, []);
    ChunkSectionSays(two.d, []);
    FirstDropIsLogged();
  }

  lemma FirstDropIsLogged()
    ensures Since([Out(Ready)] + [Drop]) == Episode(false, 1, []) && Orderly([Out(Ready)] + [Drop])
  {
    OneMoreItem([], Out(Ready));
    assert [] + [Out(Ready)] == [Out(Ready)];
    OneMoreItem([Out(Ready)], Drop);
  }

  /** From polling to the decision to end the episode. */
  lemma EpisodeEnds(m: Machine, recv: RecvPc)
    requires Overfull(m, recv)
    ensures var m' := Run(m, [GO, GO, GO] + [GO]);
      && m' == m.(d := m.d.(engine := m'.d.engine), flush := WarnSend(320000, SAID, 1))
      && |m'.d.engine.buffer| == 80000
  {
    LongPassSays(m.d.engine.buffer);
    assert Triggered(m.d, GO.env);
    PassIsDecoded(m, GO.env, SE.Done(SAID), SE.Erase(240000));
    RunMore(m, [GO, GO, GO], GO);
    LongPassCommits(Run(m, [GO, GO, GO]), m.d.engine.buffer);
  }

  lemma LongPassCommits(m: Machine, buffer: seq<real>)
    requires m.flush == Commit(320000, buffer, SE.Done(SAID), SE.Erase(240000)) && m.d.engine.buffer == buffer
    requires |buffer| == 320000 && m.d.overflowed && m.d.dropped == 1
    ensures var m' := Apply(m, GO);
      && m' == m.(d := m.d.(engine := m'.d.engine), flush := WarnSend(320000, SAID, 1), owner := Nobody)
      && |m'.d.engine.buffer| == 80000
  {
  }

  /** The flush thread warns and resumes before the receive thread has sent its pause. */
  lemma WarningOvertakesPause(a: seq<real>, b: seq<real>) returns (steps: seq<Step>)
    requires |a| == 160000 && |b| == 160000
    ensures !Orderly(Run(START, steps).d.log)
  {
    OverfullIsReached(a, b);
    var full := Run(START, FillUp(a, b));
    EpisodeEnds(full, Sending([Pause]));
    var ending := Run(full, [GO, GO, GO] + [GO]);
    RunSplit(START, FillUp(a, b), [GO, GO, GO] + [GO]);
    RunMore(START, FillUp(a, b) + ([GO, GO, GO] + [GO]), GO);
    OneMoreItem(ending.d.log, Out(BufferFull(1)));
    steps := FillUp(a, b) + ([GO, GO, GO] + [GO]) + [GO];
  }

  /** An episode is being ended, a pass with text is to be accounted for, and the reader is free. */
  predicate EndingAfterPass(m: Machine) {
    && m == Machine(m.d, WarnSend(320000, SAID, 1), Reading, Nobody, true, false)
    && m.d.configured && m.d.hasEngine && m.d.overflowed && m.d.dropped == 1 && |m.d.engine.buffer| == 80000
  }

  lemma EndingIsReached(a: seq<real>, b: seq<real>) returns (steps: seq<Step>)
    requires |a| == 160000 && |b| == 160000
    ensures EndingAfterPass(Run(START, steps)) && Since(Run(START, steps).d.log).drops == 1
  {
    OverfullIsReached(a, b);
    var full := Run(START, FillUp(a, b));
    RunMore(START, FillUp(a, b), RecvSend);
    var paused := Apply(full, RecvSend);
    OneMoreItem(full.d.log, Out(Pause));
    assert paused == full.(d := Emit(full.d, Pause), recv := Reading);
    EpisodeEnds(paused, Reading);
    RunSplit(START, FillUp(a, b) + [RecvSend], [GO, GO, GO] + [GO]);
    steps := FillUp(a, b) + [RecvSend] + ([GO, GO, GO] + [GO]);
  }

  /** The warning says one chunk was dropped when it was two: one was refused while it was being sent. */
  lemma RefusalFalsifiesWarning(a: seq<real>, b: seq<real>, c: seq<real>) returns (steps: seq<Step>)
    requires |a| == 160000 && |b| == 160000 && |c| == 240000
    ensures !Orderly(Run(START, steps).d.log)
  {
    var start := EndingIsReached(a, b);
    var ending := Run(START, start);
    ChunkIsHandled(ending, c);
    AudioIsAdded(ending.d, c);
    var again := Run(ending, SendAudio(c));
    RunSplit(START, start, SendAudio(c));
    RefusedInTheWindow(again);
    RunSplit(START, start + SendAudio(c), SendAudio([]) + [GO]);
    steps := start + SendAudio(c) + (SendAudio([]) + [GO]);
  }

  lemma RefusedInTheWindow(m: Machine)
    requires m.flush == WarnSend(320000, SAID, 1) && m.owner.Nobody? && m.recv.Reading? && !m.closed
    requires Refuses(m.d) && m.d.overflowed && m.d.dropped == 1 && Since(m.d.log).drops == 1
    ensures !Orderly(Run(m, SendAudio([]) + [GO]).d.log)
  {
    ChunkIsHandled(m, []);
    ChunkSectionSays(m.d, []);
    OneMoreItem(m.d.log, Drop);
    RunMore(m, SendAudio([]), GO);
    assert ChunkMessages(m.d) == [];
    WarnsWrongly(m.(d := ChunkData(m.d, [])));
  }

  lemma WarnsWrongly(m: Machine)
    requires m.flush == WarnSend(320000, SAID, 1) && Since(m.d.log).drops == 2
    ensures !Orderly(Apply(m, GO).d.log)
  {
    assert Apply(m, GO).d == Emit(m.d, BufferFull(1));
    OneMoreItem(m.d.log, Out(BufferFull(1)));
  }
}
