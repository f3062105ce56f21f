/**
  The text a session sends, for sessions configured once: committed text is never taken back, the
  filtered text is the committed text without the hallucinated commits, and the final message is
  empty only if nothing was ever committed.
*/
module SessionText {
  import HG = HallucinationGuard
  import SE = StreamingEngine
  import opened SessionThreads

  function Joined(texts: seq<string>): string {
    if texts == [] then "" else Joined(texts[..|texts| - 1]) + texts[|texts| - 1]
  }

  /** The commits that pass the hallucination guard, in order. */
  ghost function Shown(texts: seq<string>): seq<string> {
    if texts == [] then []
    else
      var last := texts[|texts| - 1];
      Shown(texts[..|texts| - 1]) + if Presentable(last) then [last] else []
  }

  /** How many configurations a run begins. */
  function Configs(steps: seq<Step>): nat {
    if steps == [] then 0
    else Configs(steps[..|steps| - 1]) + if steps[|steps| - 1].RecvConfig? then 1 else 0
  }

  predicate ConfiguredOnce(steps: seq<Step>) {
    Configs(steps) <= 1
  }

  predicate Configuring(recv: RecvPc) {
    recv.ConfigLock? || recv.ConfigSection?
  }

  /** The step that would configure a configured session. */
  predicate Reconfigures(m: Machine, step: Step) {
    step.RecvUnlock? && m.recv.ConfigSection? && m.d.configured
  }

  function ConfigsSeen(m: Machine): nat {
    (if m.d.configured then 1 else 0) + if Configuring(m.recv) then 1 else 0
  }

  lemma OneStepOneConfig(m: Machine, step: Step)
    requires Inv(m)
    ensures ConfigsSeen(Apply(m, step)) <= ConfigsSeen(m) + if step.RecvConfig? then 1 else 0
  {
    if step.FlushGo? && Held(m.flush) {
      SectionKeepsConfigured(m.d, m.flush);
    }
  }

  lemma {:induction false} ConfigsAreCounted(steps: seq<Step>)
    ensures ConfigsSeen(Run(START, steps)) <= Configs(steps)
  {
    if steps != [] {
      var init := steps[..|steps| - 1];
      ConfigsAreCounted(init);
      RunKeepsInv(START, init);
      OneStepOneConfig(Run(START, init), steps[|steps| - 1]);
    }
  }

  lemma {:induction false} ConfigsGrow(steps: seq<Step>, k: nat)
    requires k <= |steps|
    ensures Configs(steps[..k]) <= Configs(steps)
  {
    if k < |steps| {
      ConfigsGrow(steps[..|steps| - 1], k);
      assert steps[..|steps| - 1][..k] == steps[..k];
    } else {
      assert steps[..k] == steps;
    }
  }

  lemma OnceMeansNoReconfiguration(steps: seq<Step>, k: nat)
    requires ConfiguredOnce(steps) && k < |steps|
    ensures !Reconfigures(Run(START, steps[..k]), steps[k])
    ensures ConfiguredOnce(steps[..k])
  {
    ConfigsAreCounted(steps[..k]);
    ConfigsGrow(steps, k);
  }

  // ---------------------------------------------------------------- what the texts are

  ghost predicate TextsOf(d: Data) {
    && d.raw == Joined(d.commits)
    && (!d.ended ==> d.full == Joined(Shown(d.commits)))
    && (!d.configured ==> d.full == "" && d.commits == [] && !d.ended)
    && NoneEmpty(d.commits)
  }

  predicate NoneEmpty(texts: seq<string>) {
    forall i :: 0 <= i < |texts| ==> texts[i] != ""
  }

  /** A text composed and not sent yet starts with what is committed now. */
  ghost predicate TextInv(m: Machine) {
    && TextsOf(m.d)
    && (m.flush.TextSend? ==> m.d.full <= m.flush.text && !m.d.ended)
    && (m.recv.FinalSend? ==> m.recv.text == m.d.full)
    && (m.d.ended ==> m.flush.Exited?)
  }

  /** Every transcription logged from index `from` on starts with `text`. */
  predicate StartWith(log: seq<Item>, from: nat, text: string) {
    forall i :: from <= i < |log| && log[i].Out? && log[i].msg.Transcription? ==> text <= log[i].msg.text
  }

  /** What one step may do: extend the committed text, and send texts that start with it. */
  predicate Extends(d: Data, d': Data) {
    && d.full <= d'.full
    && d.log <= d'.log && StartWith(d'.log, |d.log|, d.full)
  }

  lemma JoinedOneMore(texts: seq<string>, text: string)
    ensures Joined(texts + [text]) == Joined(texts) + text
  {
    assert (texts + [text])[..|texts|] == texts;
  }

  lemma ShownOneMore(texts: seq<string>, text: string, shown: bool)
    requires shown == Presentable(text)
    ensures Shown(texts + [text]) == if shown then Shown(texts) + [text] else Shown(texts)
  {
    var all := texts + [text];
    assert all[..|all| - 1] == texts && all[|all| - 1] == text;
    assert Shown(texts) + [] == Shown(texts);
  }

  /** What one commit adds to the filtered text. */
  lemma FilteredOneMore(texts: seq<string>, text: string, shown: bool, filtered: string)
    requires Shown(texts + [text]) == if shown then Shown(texts) + [text] else Shown(texts)
    requires filtered == Joined(Shown(texts))
    ensures Joined(Shown(texts + [text])) == if shown then filtered + text else filtered
  {
    if shown {
      JoinedOneMore(Shown(texts), text);
    }
  }

  lemma AccumulatedIsRight(d: Data, cur: nat, res: SE.Transcript)
    requires TextsOf(d) && !d.ended && d.configured
    ensures TextsOf(Accumulated(d, cur, res)) && d.full <= Accumulated(d, cur, res).full
  {
    if res.committed != "" {
      var shown := Presentable(res.committed);
      ShownOneMore(d.commits, res.committed, shown);
      FilteredOneMore(d.commits, res.committed, shown, d.full);
      CommitIsRight(d, Accumulated(d, cur, res), res.committed);
    }
  }

  lemma CommitIsRight(d: Data, d': Data, text: string)
    requires d.raw == Joined(d.commits) && NoneEmpty(d.commits) && text != ""
    requires d'.commits == d.commits + [text] && d'.raw == d.raw + text
    requires d'.full == Joined(Shown(d'.commits)) && d'.configured && !d'.ended
    ensures TextsOf(d')
  {
    JoinedOneMore(d.commits, text);
  }

  lemma AccumulatedFrame(d: Data, cur: nat, res: SE.Transcript)
    ensures var d' := Accumulated(d, cur, res);
      d' == d.(last := d'.last, raw := d'.raw, commits := d'.commits, full := d'.full)
  {
  }

  lemma AfterTextsSays(d: Data, cur: nat, res: SE.Transcript)
    ensures var (d', flush) := AfterTexts(d, cur, res);
      && d' == (if flush.NoEngine? then d else Accumulated(d, cur, res))
      && (flush.NoEngine? || flush.Idle? || (flush.TextSend? && d'.full <= flush.text))
  {
  }

  lemma TextsExtend(m: Machine)
    requires Inv(m) && TextInv(m) && m.flush.Texts?
    ensures TextInv(SectionGone(m)) && Extends(m.d, SectionGone(m).d)
  {
    AccumulatedIsRight(m.d, m.flush.cur, m.flush.res);
    AccumulatedFrame(m.d, m.flush.cur, m.flush.res);
    AfterTextsSays(m.d, m.flush.cur, m.flush.res);
    TextsFrom(m, SectionGone(m), Accumulated(m.d, m.flush.cur, m.flush.res));
  }

  lemma TextsFrom(m: Machine, m': Machine, told: Data)
    requires Inv(m) && TextInv(m) && m.flush.Texts? && m'.recv == m.recv
    requires TextsOf(told) && m.d.full <= told.full && told.log == m.d.log && told.ended == m.d.ended
    requires m'.d == m.d || m'.d == told
    requires m'.flush.NoEngine? || m'.flush.Idle? || (m'.flush.TextSend? && m'.d.full <= m'.flush.text)
    ensures TextInv(m') && Extends(m.d, m'.d)
  {
  }

  lemma SectionExtends(m: Machine)
    requires Inv(m) && TextInv(m) && Held(m.flush) && !m.flush.Texts?
    ensures TextInv(SectionGone(m)) && Extends(m.d, SectionGone(m).d)
  {
    SectionFrame(m.d, m.flush);
  }

  /** Only the accounting for a pass touches texts. */
  lemma SectionFrame(d: Data, flush: FlushPc)
    requires Held(flush) && !flush.Texts? && |d.engine.buffer| <= SE.MAX_BUFFER
    ensures var (d', flush') := FlushSection(d, flush);
      && d' == d.(engine := d'.engine, overflowed := d'.overflowed, dropped := d'.dropped, degraded := d'.degraded)
      && !flush'.TextSend? && !flush'.Exited?
  {
    if flush.Commit? {
      AfterDecodeFrame(d, flush.cur, flush.outcome, flush.action);
    }
  }

  lemma FlushSendExtends(m: Machine)
    requires TextInv(m) && InSend(m.flush)
    ensures TextInv(SendGone(m)) && Extends(m.d, SendGone(m).d)
  {
    assert SendGone(m).d.log == m.d.log + [Out(MessageOf(m.flush))];
  }

  lemma RelockExtends(m: Machine)
    requires TextInv(m) && InRelock(m.flush)
    ensures TextInv(RelockGone(m)) && Extends(m.d, RelockGone(m).d)
  {
  }

  lemma FlushExtends(m: Machine, env: FlushEnv)
    requires Inv(m) && TextInv(m)
    ensures TextInv(FlushGone(m, env)) && Extends(m.d, FlushGone(m, env).d)
  {
    if InSend(m.flush) {
      FlushSendExtends(m);
    } else if InRelock(m.flush) {
      RelockExtends(m);
    } else if m.flush.Texts? {
      TextsExtend(m);
    } else if Held(m.flush) {
      SectionExtends(m);
    }
  }

  lemma FinalExtends(m: Machine, slot: bool, pass: SE.Pass)
    requires Inv(m) && TextInv(m)
    ensures TextInv(FinalGone(m, slot, pass)) && Extends(m.d, FinalGone(m, slot, pass).d)
  {
  }

  lemma OwnSendExtends(m: Machine)
    requires TextInv(m) && PlainSends(m.recv)
    ensures TextInv(RecvSendGone(m)) && Extends(m.d, RecvSendGone(m).d)
  {
  }

  lemma FinalSendExtends(m: Machine)
    requires TextInv(m)
    ensures TextInv(FinalSendGone(m)) && Extends(m.d, FinalSendGone(m).d)
  {
  }

  lemma ChunkFrame(d: Data, pcm: seq<real>)
    ensures var d' := ChunkData(d, pcm);
      && (d'.log == d.log || d'.log == d.log + [Drop])
      && d' == d.(engine := d'.engine, overflowed := d'.overflowed, dropped := d'.dropped, log := d'.log)
  {
  }

  lemma UnlockExtends(m: Machine)
    requires Inv(m) && TextInv(m) && !Reconfigures(m, RecvUnlock)
    ensures TextInv(UnlockGone(m)) && Extends(m.d, UnlockGone(m).d)
  {
    if m.recv.ChunkSection? {
      ChunkFrame(m.d, m.recv.pcm);
    }
  }

  lemma ControlExtends(m: Machine, step: Step)
    requires TextInv(m)
    ensures TextInv(ControlGone(m, step)) && Extends(m.d, ControlGone(m, step).d)
  {
    assert ControlGone(m, step).d == m.d && ControlGone(m, step).flush == m.flush;
  }

  /** What the receive thread queues is never a transcription. */
  predicate PlainSends(recv: RecvPc) {
    recv.Sending? ==> forall i :: 0 <= i < |recv.msgs| ==> !recv.msgs[i].Transcription?
  }

  lemma StepExtends(m: Machine, step: Step)
    requires Inv(m) && TextInv(m) && PlainSends(m.recv) && !Reconfigures(m, step)
    ensures TextInv(Apply(m, step)) && Extends(m.d, Apply(m, step).d)
  {
    if !Dead(m) {
      match step
      case FlushGo(env) => FlushExtends(m, env);
      case RecvUnlock => UnlockExtends(m);
      case RecvFinal(slot, pass) => FinalExtends(m, slot, pass);
      case RecvSend => OwnSendExtends(m);
      case RecvFinalSend => FinalSendExtends(m);
      case _ => ControlExtends(m, step);
    }
  }

  lemma SendsStayPlain(m: Machine, step: Step)
    requires PlainSends(m.recv)
    ensures PlainSends(Apply(m, step).recv)
  {
  }

  lemma {:induction false} RunKeepsText(steps: seq<Step>)
    requires ConfiguredOnce(steps)
    ensures TextInv(Run(START, steps)) && PlainSends(Run(START, steps).recv)
  {
    if steps != [] {
      var n := |steps| - 1;
      OnceMeansNoReconfiguration(steps, n);
      RunKeepsText(steps[..n]);
      RunKeepsInv(START, steps[..n]);
      StepExtends(Run(START, steps[..n]), steps[n]);
      SendsStayPlain(Run(START, steps[..n]), steps[n]);
    }
  }

  /**
    Committed text is never retracted: whatever is committed after the first `k` steps of a run
    starts the committed text and every transcription from then on, the final one included, be it raw
    fallback or cut short by a missing decoder slot.
  */
  lemma {:induction false} CommittedTextIsNeverRetracted(steps: seq<Step>, k: nat)
    requires ConfiguredOnce(steps) && k <= |steps|
    ensures Extends(Run(START, steps[..k]).d, Run(START, steps).d)
    decreases |steps|
  {
    if k == |steps| {
      assert steps[..k] == steps;
    } else {
      var n := |steps| - 1;
      var init := steps[..n];
      OnceMeansNoReconfiguration(steps, n);
      CommittedTextIsNeverRetracted(init, k);
      assert init[..k] == steps[..k];
      RunKeepsText(init);
      RunKeepsInv(START, init);
      StepExtends(Run(START, init), steps[n]);
      ExtendsIsTransitive(Run(START, steps[..k]).d, Run(START, init).d, Run(START, steps).d);
    }
  }

  lemma ExtendsIsTransitive(a: Data, b: Data, c: Data)
    requires Extends(a, b) && Extends(b, c)
    ensures Extends(a, c)
  {
    forall i | |a.log| <= i < |c.log| && c.log[i].Out? && c.log[i].msg.Transcription?
      ensures a.full <= c.log[i].msg.text
    {
      if i < |b.log| {
        assert b.log[i] == c.log[i];
      }
    }
  }

  /**
    Until the end of the stream the raw text is all commits and the filtered text is exactly the
    commits that are not hallucinated.
  */
  lemma FilteredIsRawWithoutHallucinations(steps: seq<Step>)
    requires ConfiguredOnce(steps)
    ensures var d := Run(START, steps).d;
      d.raw == Joined(d.commits) && (!d.ended ==> d.full == Joined(Shown(d.commits)))
  {
    RunKeepsText(steps);
  }

  // ---------------------------------------------------------------- every pass is told

  lemma AccumulatedSays(d: Data, cur: nat, res: SE.Transcript, d': Data)
    requires TextsOf(d) && !d.ended && d.configured && d' == Accumulated(d, cur, res)
    ensures d'.commits == d.commits + (if res.committed == "" then [] else [res.committed])
    ensures d'.raw == Joined(d'.commits) && d'.full == Joined(Shown(d'.commits))
    ensures d' == d.(last := d'.last, raw := d'.raw, commits := d'.commits, full := d'.full)
    ensures d'.last == if res.committed == "" then cur else |d.engine.buffer|
  {
    AccumulatedIsRight(d, cur, res);
    AccumulatedFrame(d, cur, res);
    assert d.commits + [] == d.commits;
  }

  lemma AfterTextsTells(d: Data, cur: nat, res: SE.Transcript, flush: FlushPc, d': Data)
    requires (d.hasEngine || res.committed == "") && (d', flush) == AfterTexts(d, cur, res)
    ensures d' == Accumulated(d, cur, res)
    ensures if Worth(res) then flush == TextSend(d'.full + InFlight(res)) else flush.Idle?
  {
  }

  /** What accounting for a pass leaves to be sent, if anything. */
  lemma AccountingSays(d: Data, cur: nat, res: SE.Transcript, flush: FlushPc, d': Data)
    requires TextsOf(d) && !d.ended && d.configured && (d.hasEngine || res.committed == "")
    requires (d', flush) == FlushSection(d, FlushPc.Texts(cur, res))
    ensures d'.commits == d.commits + (if res.committed == "" then [] else [res.committed])
    ensures d'.raw == Joined(d'.commits) && d'.full == Joined(Shown(d'.commits))
    ensures d' == d.(last := d'.last, raw := d'.raw, commits := d'.commits, full := d'.full)
    ensures d'.last == if res.committed == "" then cur else |d.engine.buffer|
    ensures if Worth(res) then flush == TextSend(Merged(d'.commits, res)) else flush.Idle?
  {
    AfterTextsTells(d, cur, res, flush, d');
    AccumulatedSays(d, cur, res, d');
  }

  /** Some text of the pass is neither empty nor repetitive. */
  ghost predicate Worth(res: SE.Transcript) {
    (res.committed != "" && !HG.Repetitive(res.committed)) || (res.partial != "" && !HG.Repetitive(res.partial))
  }

  /** The partial text, unless it is repetitive. */
  ghost function InFlight(res: SE.Transcript): string {
    if HG.Repetitive(res.partial) then "" else res.partial
  }

  /** All that is committed and shown, and then the words still in flight unless they are repetitive. */
  ghost function Merged(commits: seq<string>, res: SE.Transcript): string {
    Joined(Shown(commits)) + InFlight(res)
  }

  lemma AccountingGoesOn(m: Machine, go: FlushEnv, told: Machine)
    requires Inv(m) && TextInv(m) && m.flush.Texts? && told == Apply(m, FlushGo(go)) && !Dead(told)
    ensures told.d.log == m.d.log
    ensures told.d.commits == m.d.commits + (if m.flush.res.committed == "" then [] else [m.flush.res.committed])
    ensures if Worth(m.flush.res) then told.flush == TextSend(Merged(told.d.commits, m.flush.res)) else told.flush.Idle?
  {
    assert (told.d, told.flush) == FlushSection(m.d, m.flush);
    AccountingSays(m.d, m.flush.cur, m.flush.res, told.flush, told.d);
  }

  /**
    A pass with text worth telling is told in the flush thread's next step, whatever the receive thread
    does before it: one transcription that is not final, of the shown commits and the partial text. A
    pass without is not told.
  */
  lemma PassIsTold(steps: seq<Step>, go: FlushEnv, more: seq<Step>, env: FlushEnv)
    requires ConfiguredOnce(steps) && Run(START, steps).flush.Texts? && !Dead(Apply(Run(START, steps), FlushGo(go)))
    requires forall i :: 0 <= i < |more| ==> !more[i].FlushGo?
    ensures var m, told := Run(START, steps), Apply(Run(START, steps), FlushGo(go));
      && told.d.log == m.d.log
      && told.d.commits == m.d.commits + (if m.flush.res.committed == "" then [] else [m.flush.res.committed])
      && (!Worth(m.flush.res) ==> told.flush.Idle?)
      && (Worth(m.flush.res) ==> var next := Run(told, more);
            Apply(next, FlushGo(env)).d.log ==
              next.d.log + [Out(Transcription(Merged(told.d.commits, m.flush.res), false, true))])
  {
    var m := Run(START, steps);
    var told := Apply(m, FlushGo(go));
    RunKeepsInv(START, steps);
    RunKeepsText(steps);
    AccountingGoesOn(m, go, told);
    if Worth(m.flush.res) {
      OthersKeepLeavingFlush(told, more);
      TextIsSent(Run(told, more), env);
    }
  }

  lemma TextIsSent(m: Machine, env: FlushEnv)
    requires m.flush.TextSend?
    ensures Apply(m, FlushGo(env)).d.log == m.d.log + [Out(Transcription(m.flush.text, false, true))]
  {
  }

  /** How many transcriptions that are not final a log holds. */
  function Tellings(log: seq<Item>): nat {
    if log == [] then 0
    else
      var last := log[|log| - 1];
      Tellings(log[..|log| - 1]) + if last.Out? && last.msg.Transcription? && !last.msg.isFinal then 1 else 0
  }

  /** The step accounts for a pass with text worth telling. */
  ghost predicate TellsOf(m: Machine, step: Step) {
    && !Dead(m) && step.FlushGo? && m.flush.Texts? && Worth(m.flush.res)
    && (m.d.hasEngine || m.flush.res.committed == "")
  }

  /** How many passes with text worth telling a run has accounted for. */
  ghost function WorthTelling(steps: seq<Step>): nat {
    if steps == [] then 0
    else
      var init := steps[..|steps| - 1];
      WorthTelling(init) + if TellsOf(Run(START, init), steps[|steps| - 1]) then 1 else 0
  }

  /** Told, or about to be. */
  function ToldBy(m: Machine): nat {
    Tellings(m.d.log) + if m.flush.TextSend? then 1 else 0
  }

  lemma OneMoreTelling(log: seq<Item>, item: Item)
    ensures Tellings(log + [item]) ==
      Tellings(log) + if item.Out? && item.msg.Transcription? && !item.msg.isFinal then 1 else 0
  {
    assert (log + [item])[..|log|] == log;
  }

  lemma FlushTells(m: Machine, env: FlushEnv)
    requires Inv(m) && !Dead(m)
    ensures ToldBy(FlushGone(m, env)) == ToldBy(m) + if TellsOf(m, FlushGo(env)) then 1 else 0
  {
    if InSend(m.flush) {
      OneMoreTelling(m.d.log, Out(MessageOf(m.flush)));
    } else if m.flush.Texts? {
      AccumulatedFrame(m.d, m.flush.cur, m.flush.res);
    } else if Held(m.flush) {
      SectionFrame(m.d, m.flush);
    }
  }

  lemma OthersTellNothing(m: Machine, step: Step)
    requires !Dead(m) && !step.FlushGo? && PlainSends(m.recv)
    ensures ToldBy(Apply(m, step)) == ToldBy(m)
  {
    OthersLeaveFlush(m, step);
    if step.RecvUnlock? && m.recv.ChunkSection? {
      ChunkFrame(m.d, m.recv.pcm);
      OneMoreTelling(m.d.log, Drop);
    } else if step.RecvSend? && m.recv.Sending? && m.recv.msgs != [] {
      OneMoreTelling(m.d.log, Out(m.recv.msgs[0]));
    } else if step.RecvFinalSend? && m.recv.FinalSend? {
      OneMoreTelling(m.d.log, Out(Transcription(m.recv.text, true, m.recv.complete)));
    }
  }

  /**
    Over every run, configured however often, the transcriptions sent that are not final are as many as
    the passes accounted for that had text worth telling, but for one that may be about to be sent.
  */
  lemma {:induction false} EachPassIsToldOnce(steps: seq<Step>)
    ensures PlainSends(Run(START, steps).recv) && ToldBy(Run(START, steps)) == WorthTelling(steps)
  {
    if steps != [] {
      var init, last := steps[..|steps| - 1], steps[|steps| - 1];
      var m := Run(START, init);
      EachPassIsToldOnce(init);
      RunKeepsInv(START, init);
      SendsStayPlain(m, last);
      if !Dead(m) {
        if last.FlushGo? {
          FlushTells(m, last.env);
        } else {
          OthersTellNothing(m, last);
        }
      }
    }
  }

  // ---------------------------------------------------------------- the final text

  lemma {:induction false} JoinedIsEmptyExactlyIfEmpty(texts: seq<string>)
    requires NoneEmpty(texts)
    ensures Joined(texts) == "" <==> texts == []
  {
    if texts != [] {
      assert Joined(texts)[|Joined(texts)| - 1] == texts[|texts| - 1][|texts[|texts| - 1]| - 1];
    }
  }

  /** The text the last decode adds, if it happens. */
  function LastWords(d: Data, slot: bool, pass: SE.Pass): string {
    if !d.hasEngine || !slot then ""
    else
      var outcome := SE.OutcomeOf(d.gating, d.engine.buffer, pass, true);
      if outcome.Done? then outcome.result.committed else ""
  }

  /**
    The client is left with nothing if and only if nothing was ever committed and the last decode adds
    nothing. Commits that the guard has kept back are sent exactly if there is nothing else; what the
    last decode adds is sent as it is, guard or no guard.
  */
  lemma FinalTextIsEmptyOnlyIfNothingWasHeard(steps: seq<Step>, slot: bool, pass: SE.Pass)
    requires ConfiguredOnce(steps) && !Run(START, steps).d.ended
    requires Finalized(Run(START, steps).d, slot, pass).Some?
    ensures var d := Run(START, steps).d;
      var text, words := Finalized(d, slot, pass).value.full, LastWords(d, slot, pass);
      && (text == "" <==> d.commits == [] && words == "")
      && text == (if Shown(d.commits) == [] && words == "" then Joined(d.commits) else Joined(Shown(d.commits)) + words)
  {
    var d := Run(START, steps).d;
    RunKeepsText(steps);
    ShownAreNotEmpty(d.commits);
    JoinedIsEmptyExactlyIfEmpty(d.commits);
    JoinedIsEmptyExactlyIfEmpty(Shown(d.commits));
  }

  lemma {:induction false} ShownAreNotEmpty(texts: seq<string>)
    ensures NoneEmpty(Shown(texts))
    ensures Shown(texts) != [] ==> texts != []
  {
    if texts != [] {
      ShownAreNotEmpty(texts[..|texts| - 1]);
    }
  }

  /** The last decode fails: there is an engine and a slot, and the decoder or the gate throws. */
  predicate LastDecodeThrows(d: Data, slot: bool, pass: SE.Pass) {
    d.hasEngine && slot && SE.OutcomeOf(d.gating, d.engine.buffer, pass, true).Threw?
  }

  /**
    The critical section of the end handler: if the last decode throws, the session ends without a final
    message; otherwise the final message follows. It says it is complete if and only if the last decode
    had a slot or there was nothing to decode with; and the buffer is empty then, if anything was decoded.
  */
  lemma FinalSays(m: Machine, slot: bool, pass: SE.Pass)
    requires Inv(m) && !Dead(m) && m.recv.FinalSection?
    ensures var m' := Apply(m, RecvFinal(slot, pass));
      if LastDecodeThrows(m.d, slot, pass) then m' == m.(recv := ReleaseLock, owner := Nobody)
      else
        && m'.recv == FinalSend(Finalized(m.d, slot, pass).value.full, !m.d.hasEngine || slot)
        && m'.d.ended && m'.d.log == m.d.log && m'.owner.Nobody?
        && m'.d.engine.buffer ==
             (if m.d.hasEngine && slot && SE.Reaches(m.d.gating, m.d.engine.buffer, pass) && pass.decode.segments != []
              then [] else m.d.engine.buffer)
        && Apply(m', RecvFinalSend).d.log == m.d.log + [Out(Transcription(m'.recv.text, true, m'.recv.complete))]
  {
    if m.d.hasEngine && slot && !LastDecodeThrows(m.d, slot, pass) && m.d.engine.buffer != [] {
      SE.ForcedPassClears(m.d.gating, m.d.engine.buffer, pass);
      SE.CommitErasesExactlyIf(m.d.gating, m.d.engine.buffer, pass, true);
    }
  }
}
