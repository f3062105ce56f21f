/**
  A second configuration: what the flush thread does not hold at that moment is forgotten, and the
  session goes on as a fresh one; what it does hold spills over.
*/
module SessionRestart {
  import opened Common
  import SE = StreamingEngine
  import SF = SessionFlow
  import opened SessionEnd
  import opened SessionText
  import opened SessionThreads

  // ---------------------------------------------------------------- the log is only written

  /** The same machines but for their logs. */
  predicate SameButLog(a: Machine, b: Machine) {
    a == b.(d := b.d.(log := a.d.log))
  }

  /** Both logs grow by the same items. */
  predicate GrowAlike(a: seq<Item>, a': seq<Item>, b: seq<Item>, b': seq<Item>) {
    a <= a' && b <= b' && a'[|a|..] == b'[|b|..]
  }

  lemma SectionIgnoresLog(d: Data, flush: FlushPc, log: seq<Item>)
    requires Held(flush)
    ensures var (d', flush') := FlushSection(d, flush);
      && d'.log == d.log
      && FlushSection(d.(log := log), flush) == (d'.(log := log), flush')
  {
    if flush.Texts? {
      AccumulatedFrame(d, flush.cur, flush.res);
      AccumulatedFrame(d.(log := log), flush.cur, flush.res);
    }
  }

  /** The step does the same to both. */
  predicate Alike(a: Machine, a': Machine, b: Machine, b': Machine) {
    SameButLog(a', b') && GrowAlike(a.d.log, a'.d.log, b.d.log, b'.d.log)
  }

  lemma HeldIgnoresLog(a: Machine, b: Machine)
    requires SameButLog(a, b) && Held(b.flush)
    ensures Alike(a, SectionGone(a), b, SectionGone(b))
  {
    SectionIgnoresLog(b.d, b.flush, a.d.log);
  }

  lemma SendIgnoresLog(a: Machine, b: Machine)
    requires SameButLog(a, b) && InSend(b.flush)
    ensures Alike(a, SendGone(a), b, SendGone(b))
  {
  }

  lemma RelockIgnoresLog(a: Machine, b: Machine)
    requires SameButLog(a, b) && InRelock(b.flush)
    ensures Alike(a, RelockGone(a), b, RelockGone(b))
  {
  }

  lemma FlushIgnoresLog(a: Machine, b: Machine, env: FlushEnv)
    requires SameButLog(a, b)
    ensures Alike(a, FlushGone(a, env), b, FlushGone(b, env))
  {
    if InSend(b.flush) {
      SendIgnoresLog(a, b);
    } else if InRelock(b.flush) {
      RelockIgnoresLog(a, b);
    } else if Held(b.flush) {
      HeldIgnoresLog(a, b);
    }
  }

  lemma ChunkIgnoresLog(d: Data, pcm: seq<real>, log: seq<Item>, drops: seq<Item>)
    requires drops == if d.configured && d.hasEngine && |d.engine.buffer| >= SE.HIGH_WATER_MARK then [Drop] else []
    ensures ChunkData(d, pcm).log == d.log + drops
    ensures ChunkData(d.(log := log), pcm) == ChunkData(d, pcm).(log := log + drops)
    ensures ChunkMessages(d.(log := log)) == ChunkMessages(d)
  {
    if drops == [] {
      assert d.log + drops == d.log && log + drops == log;
    }
  }

  lemma LeftAlike(a: Machine, b: Machine, d: Data, recv: RecvPc, items: seq<Item>)
    requires SameButLog(a, b) && d.log == b.d.log + items
    ensures Alike(a, a.(d := d.(log := a.d.log + items), recv := recv, owner := Nobody),
                  b, b.(d := d, recv := recv, owner := Nobody))
  {
  }

  lemma ChunkUnlockIgnoresLog(a: Machine, b: Machine, items: seq<Item>)
    requires SameButLog(a, b) && b.recv.ChunkSection?
    requires items == if b.d.configured && b.d.hasEngine && |b.d.engine.buffer| >= SE.HIGH_WATER_MARK then [Drop] else []
    ensures Alike(a, UnlockGone(a), b, UnlockGone(b))
  {
    var d, recv := ChunkData(b.d, b.recv.pcm), ToSend(ChunkMessages(b.d));
    ChunkIgnoresLog(b.d, b.recv.pcm, a.d.log, items);
    assert UnlockGone(b) == b.(d := d, recv := recv, owner := Nobody);
    assert UnlockGone(a) == a.(d := d.(log := a.d.log + items), recv := recv, owner := Nobody);
    LeftAlike(a, b, d, recv, items);
  }

  lemma ConfigUnlockIgnoresLog(a: Machine, b: Machine)
    requires SameButLog(a, b) && (b.recv.ConfigSection? || b.recv.ReleaseSection?)
    ensures Alike(a, UnlockGone(a), b, UnlockGone(b))
  {
  }

  lemma UnlockIgnoresLog(a: Machine, b: Machine)
    requires SameButLog(a, b)
    ensures Alike(a, UnlockGone(a), b, UnlockGone(b))
  {
    if b.recv.ChunkSection? {
      var refused := b.d.configured && b.d.hasEngine && |b.d.engine.buffer| >= SE.HIGH_WATER_MARK;
      ChunkUnlockIgnoresLog(a, b, if refused then [Drop] else []);
    } else if b.recv.ConfigSection? || b.recv.ReleaseSection? {
      ConfigUnlockIgnoresLog(a, b);
    } else {
      assert UnlockGone(a) == a && UnlockGone(b) == b;
    }
  }

  lemma LastDecodeIgnoresLog(d: Data, slot: bool, pass: SE.Pass, log: seq<Item>)
    ensures var final := Finalized(d, slot, pass);
      && (final.Some? ==> final.value.log == d.log)
      && Finalized(d.(log := log), slot, pass) == if final.None? then None else Some(final.value.(log := log))
  {
  }

  lemma FinalIgnoresLog(a: Machine, b: Machine, slot: bool, pass: SE.Pass)
    requires SameButLog(a, b)
    ensures Alike(a, FinalGone(a, slot, pass), b, FinalGone(b, slot, pass))
  {
    LastDecodeIgnoresLog(b.d, slot, pass, a.d.log);
  }

  lemma SentAlike(a: Machine, b: Machine, msg: Message, recv: RecvPc)
    requires SameButLog(a, b)
    ensures Alike(a, a.(d := Emit(a.d, msg), recv := recv), b, b.(d := Emit(b.d, msg), recv := recv))
  {
  }

  lemma OwnSendIgnoresLog(a: Machine, b: Machine)
    requires SameButLog(a, b)
    ensures Alike(a, RecvSendGone(a), b, RecvSendGone(b)) && Alike(a, FinalSendGone(a), b, FinalSendGone(b))
  {
    if b.recv.Sending? && b.recv.msgs != [] {
      SentAlike(a, b, b.recv.msgs[0], ToSend(b.recv.msgs[1..]));
    } else if b.recv.FinalSend? {
      SentAlike(a, b, Transcription(b.recv.text, true, b.recv.complete), Closing);
    }
  }

  lemma ControlIgnoresLog(a: Machine, b: Machine, step: Step)
    requires SameButLog(a, b)
    ensures Alike(a, ControlGone(a, step), b, ControlGone(b, step))
  {
  }

  lemma StepIgnoresLog(a: Machine, b: Machine, step: Step)
    requires SameButLog(a, b)
    ensures Alike(a, Apply(a, step), b, Apply(b, step))
  {
    if !Dead(a) {
      match step
      case FlushGo(env) => FlushIgnoresLog(a, b, env);
      case RecvUnlock => UnlockIgnoresLog(a, b);
      case RecvFinal(slot, pass) => FinalIgnoresLog(a, b, slot, pass);
      case RecvSend => OwnSendIgnoresLog(a, b);
      case RecvFinalSend => OwnSendIgnoresLog(a, b);
      case _ => ControlIgnoresLog(a, b, step);
    }
  }

  lemma GrowOn(a: seq<Item>, a': seq<Item>, a'': seq<Item>, b: seq<Item>, b': seq<Item>, b'': seq<Item>)
    requires GrowAlike(a, a', b, b') && GrowAlike(a', a'', b', b'')
    ensures GrowAlike(a, a'', b, b'')
  {
    assert a''[|a|..] == a'[|a|..] + a''[|a'|..] && b''[|b|..] == b'[|b|..] + b''[|b'|..];
  }

  lemma {:induction false} RunIgnoresLog(a: Machine, b: Machine, steps: seq<Step>)
    requires SameButLog(a, b)
    ensures Alike(a, Run(a, steps), b, Run(b, steps))
  {
    if steps != [] {
      var init, last := steps[..|steps| - 1], steps[|steps| - 1];
      RunIgnoresLog(a, b, init);
      StepIgnoresLog(Run(a, init), Run(b, init), last);
      GrowOn(a.d.log, Run(a, init).d.log, Run(a, steps).d.log, b.d.log, Run(b, init).d.log, Run(b, steps).d.log);
    }
  }

  /**
    A configuration between two turns of the flush loop starts the session over: whatever happens from
    then on, it is in the same state as a session just opened and configured in the same way, and sends
    the same messages.
  */
  lemma ConfigurationStartsOver(m: Machine, gating: SE.Gating, steps: seq<Step>)
    requires m.flush.Idle? && m.owner.Nobody? && m.recv.Reading? && m.running && !m.closed
    ensures var again, first := Run(m, Configure(gating)), Run(START, Configure(gating));
      SameButLog(Run(again, steps), Run(first, steps))
      && GrowAlike(again.d.log, Run(again, steps).d.log, first.d.log, Run(first, steps).d.log)
    ensures Run(START, Configure(gating)).d ==
      Data(true, true, gating, SE.State([], SE.AP.FilterState(0.0, 0.0), []),
           false, 0, false, 0, "", "", [], false, [Out(Ready)])
  {
    ConfigIsHandled(m, gating);
    ConfigIsHandled(START, gating);
    RunIgnoresLog(Run(m, Configure(gating)), Run(START, Configure(gating)), steps);
  }

  // ---------------------------------------------------------------- what spills over

  /** The flush thread still has to account for committed text of its pass. */
  predicate HoldsText(flush: FlushPc) {
    || ((flush.WarnSend? || flush.WarnRelock? || flush.Warned?) && flush.res.committed != "")
    || ((flush.ResumeSend? || flush.ResumeRelock? || flush.Resumed? || flush.Texts?) && flush.res.committed != "")
  }

  predicate FlushAlone(turns: seq<Step>) {
    forall i :: 0 <= i < |turns| ==> turns[i].FlushGo?
  }

  /** Without new audio nothing will be committed. */
  ghost predicate Barren(m: Machine) {
    && m.d.commits == [] && m.d.engine.buffer == [] && !HoldsText(m.flush)
    && (m.flush.Commit? ==> m.flush.outcome == SE.Done(SE.NOTHING) && m.flush.action == SE.Keep)
  }

  lemma BarrenSection(m: Machine)
    requires Barren(m) && Held(m.flush)
    ensures Barren(SectionGone(m))
  {
  }

  lemma BarrenStaysSo(m: Machine, env: FlushEnv)
    requires Barren(m)
    ensures Barren(Apply(m, FlushGo(env)))
  {
    if Held(m.flush) {
      BarrenSection(m);
    } else if !Dead(m) {
      assert Apply(m, FlushGo(env)).d == if InSend(m.flush) then Emit(m.d, MessageOf(m.flush)) else m.d;
    }
  }

  lemma {:induction false} TurnsStayBarren(m: Machine, turns: seq<Step>)
    requires Barren(m) && FlushAlone(turns)
    ensures Run(m, turns).d.commits == [] && Barren(Run(m, turns))
  {
    if turns != [] {
      var init, last := turns[..|turns| - 1], turns[|turns| - 1];
      TurnsStayBarren(m, init);
      BarrenStaysSo(Run(m, init), last.env);
    }
  }

  /** How many turns away the accounting is. */
  function TurnsToTell(flush: FlushPc): nat {
    match flush
    case Texts(_, _) => 1
    case Resumed(_, _) => 2
    case ResumeRelock(_, _) => 3
    case ResumeSend(_, _) => 4
    case Warned(_, _) => 5
    case WarnRelock(_, _) => 6
    case WarnSend(_, _, _) => 7
    case _ => 0
  }

  /** One turn nearer to the accounting, or it is done. */
  ghost predicate NearerToTelling(m: Machine, m': Machine)
    requires HoldsText(m.flush)
  {
    if TurnsToTell(m.flush) == 1 then m'.d.commits == m.d.commits + [m.flush.res.committed]
    else
      && m'.d.hasEngine && m'.d.commits == m.d.commits && m'.owner.Nobody? == !Held(m'.flush)
      && HoldsText(m'.flush) && m'.flush.res == m.flush.res && TurnsToTell(m'.flush) == TurnsToTell(m.flush) - 1
  }

  lemma SendIsNearer(m: Machine)
    requires m.d.hasEngine && HoldsText(m.flush) && InSend(m.flush) && m.owner.Nobody?
    ensures NearerToTelling(m, SendGone(m))
  {
  }

  lemma RelockIsNearer(m: Machine)
    requires m.d.hasEngine && HoldsText(m.flush) && InRelock(m.flush) && m.owner.Nobody?
    ensures NearerToTelling(m, RelockGone(m))
  {
  }

  lemma HeldIsNearer(m: Machine)
    requires m.d.hasEngine && HoldsText(m.flush) && Held(m.flush) && !m.owner.Nobody?
    ensures NearerToTelling(m, SectionGone(m))
  {
  }

  lemma TellingIsNearer(m: Machine, env: FlushEnv)
    requires m.d.hasEngine && HoldsText(m.flush) && m.owner.Nobody? == !Held(m.flush)
    ensures NearerToTelling(m, Apply(m, FlushGo(env)))
  {
    if InSend(m.flush) {
      SendIsNearer(m);
    } else if InRelock(m.flush) {
      RelockIsNearer(m);
    } else {
      HeldIsNearer(m);
    }
  }

  lemma {:induction false} TellingIsReached(m: Machine, env: FlushEnv, n: nat) returns (turns: seq<Step>)
    requires m.d.hasEngine && HoldsText(m.flush) && m.owner.Nobody? == !Held(m.flush) && n == TurnsToTell(m.flush)
    ensures Run(m, turns).d.commits == m.d.commits + [m.flush.res.committed]
    ensures FlushAlone(turns)
    decreases n
  {
    TellingIsNearer(m, env);
    RunOne(m, FlushGo(env));
    turns := [FlushGo(env)];
    if n > 1 {
      var rest := TellingIsReached(Apply(m, FlushGo(env)), env, n - 1);
      RunSplit(m, [FlushGo(env)], rest);
      turns := [FlushGo(env)] + rest;
    }
  }

  ghost predicate SpillsOver(m: Machine) {
    exists turns :: FlushAlone(turns) && Run(m, turns).d.commits != []
  }

  /**
    Just after a configuration, text of the audio before it can get into the new session's text, without
    any new audio, if and only if the flush thread was caught in a send between a commit with text and
    the accounting for it.
  */
  lemma OldTextSpillsOverExactlyIf(m: Machine)
    requires Inv(m) && m.recv.ConfigSection? && !Dead(m)
    ensures SpillsOver(Apply(m, RecvUnlock)) <==> HoldsText(m.flush)
  {
    var again := Apply(m, RecvUnlock);
    if HoldsText(m.flush) {
      var turns := TellingIsReached(again, Poll(false), TurnsToTell(m.flush));
    } else {
      forall turns | FlushAlone(turns) ensures Run(again, turns).d.commits == [] {
        TurnsStayBarren(again, turns);
      }
    }
  }

  /** A run in which it does: the session is configured again while it warns of a refused chunk. */
  lemma OldTextSpillsOver(a: seq<real>, b: seq<real>) returns (before: seq<Step>, turns: seq<Step>)
    requires |a| == 160000 && |b| == 160000
    ensures FlushAlone(turns) && Run(START, before + Configure(None) + turns).d.commits == ["so"]
  {
    before := SF.EndingIsReached(a, b);
    var m := Run(START, before);
    ConfigIsHandled(m, None);
    RunSplit(START, before, Configure(None));
    turns := TellingIsReached(Run(m, Configure(None)), Poll(false), 7);
    RunSplit(START, before + Configure(None), turns);
  }
}
