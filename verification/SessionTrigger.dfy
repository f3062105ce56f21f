/**
  The unsigned subtraction by which the flush loop decides that there is enough new audio. It stays
  exact over a whole run if and only if every pass of it commits text or erases no more than has come
  in since it measured the buffer.
*/
module SessionTrigger {
  import opened Common
  import SE = StreamingEngine
  import VG = VadGate
  import opened SessionEnd
  import opened SessionText
  import opened SessionThreads

  /** Before the commit of a pass. */
  predicate Measured(flush: FlushPc) {
    flush.FreeSend? || flush.FreeRelock? || flush.Infer? || flush.Commit?
  }

  /** Between the commit of a pass and the accounting for it. */
  predicate Unaccounted(flush: FlushPc) {
    || flush.WarnSend? || flush.WarnRelock? || flush.Warned?
    || flush.ResumeSend? || flush.ResumeRelock? || flush.Resumed? || flush.Texts?
  }

  predicate Counting(m: Machine) {
    !Dead(m) && !m.flush.Exited? && !Unaccounted(m.flush)
  }

  /** The subtraction of the last size from the buffer's size is exact. */
  predicate Exact(m: Machine) {
    SubSize(|m.d.engine.buffer|, m.d.last) == |m.d.engine.buffer| - m.d.last
  }

  lemma ExactMeansNotShorter(m: Machine)
    ensures Exact(m) <==> m.d.last <= |m.d.engine.buffer|
  {
  }

  // ---------------------------------------------------------------- single steps

  predicate MeasuredInv(m: Machine) {
    && (Measured(m.flush) ==> m.flush.cur <= |m.d.engine.buffer|)
    && (!m.d.configured ==> m.d.last == 0)
  }

  /** Nothing but committing, and the end, makes the buffer shorter; only accounting writes the last size. */
  predicate Grows(m: Machine, m': Machine) {
    && |m.d.engine.buffer| <= |m'.d.engine.buffer|
    && m'.d.last == m.d.last && m'.d.configured == m.d.configured
  }

  lemma SectionGrows(m: Machine)
    requires Held(m.flush) && !m.flush.Commit? && !m.flush.Texts?
    ensures Grows(m, SectionGone(m))
  {
  }

  lemma ChunkGrows(d: Data, pcm: seq<real>)
    requires |d.engine.buffer| <= SE.MAX_BUFFER
    ensures |d.engine.buffer| <= |ChunkData(d, pcm).engine.buffer|
    ensures ChunkData(d, pcm).last == d.last && ChunkData(d, pcm).configured == d.configured
  {
  }

  lemma StepGrows(m: Machine, step: Step)
    requires Inv(m) && !m.flush.Exited? && !(step.RecvUnlock? && m.recv.ConfigSection?)
    requires step.FlushGo? ==> !m.flush.Commit? && !m.flush.Texts?
    ensures Grows(m, Apply(m, step))
  {
    if !Dead(m) {
      if step.FlushGo? && Held(m.flush) {
        SectionGrows(m);
      } else if step.RecvUnlock? && m.recv.ChunkSection? {
        ChunkGrows(m.d, m.recv.pcm);
      }
    }
  }

  lemma CommitGoes(m: Machine, env: FlushEnv)
    requires Inv(m) && m.flush.Commit?
    ensures var m' := Apply(m, FlushGo(env));
      && m'.d.last == m.d.last && m'.d.configured == m.d.configured
      && (Dead(m') || (Unaccounted(m'.flush) && m.flush.outcome.Done?
          && m'.flush.cur == m.flush.cur && m'.flush.res == m.flush.outcome.result
          && m'.d.engine.buffer == SE.Committed(m.d.engine.buffer, m.flush.action)))
  {
  }

  lemma AccountingGoes(m: Machine, env: FlushEnv)
    requires Inv(m) && m.flush.Texts?
    ensures var m' := Apply(m, FlushGo(env));
      && m'.d.configured == m.d.configured && m'.d.engine == m.d.engine
      && (Dead(m') || (Counting(m') && !Measured(m'.flush)
          && m'.d.last == if m.flush.res.committed == "" then m.flush.cur else |m.d.engine.buffer|))
  {
    var d := Accumulated(m.d, m.flush.cur, m.flush.res);
    assert d.engine == m.d.engine && d.configured == m.d.configured;
  }

  /** The flush thread's own part of a step, as far as it matters here. */
  lemma FlushMoves(m: Machine, env: FlushEnv)
    requires Inv(m) && !Dead(m) && !m.flush.Commit? && !m.flush.Texts?
    ensures var m' := Apply(m, FlushGo(env));
      && (Measured(m'.flush) ==>
            if Measured(m.flush) then m'.flush.cur == m.flush.cur else m'.flush.cur == |m.d.engine.buffer|)
      && (Unaccounted(m'.flush) <==> Unaccounted(m.flush))
      && (Unaccounted(m.flush) ==> m'.flush.cur == m.flush.cur && m'.flush.res == m.flush.res)
  {
    if Held(m.flush) {
      SectionMoves(m.d, m.flush);
    }
  }

  lemma SectionMoves(d: Data, flush: FlushPc)
    requires Held(flush) && !flush.Commit? && !flush.Texts?
    ensures var flush' := FlushSection(d, flush).1;
      && (Measured(flush') ==> if Measured(flush) then flush'.cur == flush.cur else flush'.cur == |d.engine.buffer|)
      && (Unaccounted(flush') <==> Unaccounted(flush))
      && (Unaccounted(flush) ==> flush'.cur == flush.cur && flush'.res == flush.res)
  {
  }

  lemma StepKeepsMeasured(m: Machine, step: Step)
    requires Inv(m) && MeasuredInv(m) && !Reconfigures(m, step)
    ensures MeasuredInv(Apply(m, step))
  {
    if Dead(m) {
    } else if step.FlushGo? && m.flush.Commit? {
      CommitGoes(m, step.env);
    } else if step.FlushGo? && m.flush.Texts? {
      AccountingGoes(m, step.env);
    } else if step.FlushGo? {
      FlushKeepsMeasured(m, step.env);
    } else if !m.flush.Exited? && !(step.RecvUnlock? && m.recv.ConfigSection?) {
      StepGrows(m, step);
      OthersLeaveFlush(m, step);
    } else {
      OthersLeaveFlush(m, step);
      EndKeepsMeasured(m, step);
    }
  }

  lemma FlushKeepsMeasured(m: Machine, env: FlushEnv)
    requires Inv(m) && MeasuredInv(m) && !Dead(m) && !m.flush.Commit? && !m.flush.Texts?
    ensures MeasuredInv(Apply(m, FlushGo(env)))
  {
    FlushMoves(m, env);
    if !m.flush.Exited? {
      StepGrows(m, FlushGo(env));
    }
  }

  lemma EndKeepsMeasured(m: Machine, step: Step)
    requires Inv(m) && MeasuredInv(m) && !step.FlushGo? && !Reconfigures(m, step)
    requires m.flush.Exited? || (step.RecvUnlock? && m.recv.ConfigSection?)
    ensures MeasuredInv(Apply(m, step))
  {
  }

  lemma {:induction false} RunKeepsMeasured(steps: seq<Step>, k: nat)
    requires ConfiguredOnce(steps) && k <= |steps|
    ensures Inv(Run(START, steps[..k])) && MeasuredInv(Run(START, steps[..k]))
    ensures k < |steps| ==>
      && !Reconfigures(Run(START, steps[..k]), steps[k])
      && Run(START, steps[..k + 1]) == Apply(Run(START, steps[..k]), steps[k])
  {
    if k > 0 {
      RunKeepsMeasured(steps, k - 1);
      assert steps[..k][..k - 1] == steps[..k - 1];
      StepKeepsInv(Run(START, steps[..k - 1]), steps[k - 1]);
      StepKeepsMeasured(Run(START, steps[..k - 1]), steps[k - 1]);
    }
    if k < |steps| {
      OnceMeansNoReconfiguration(steps, k);
      assert steps[..k + 1][..k] == steps[..k];
    }
  }

  // ---------------------------------------------------------------- when a pass begins

  /** More than two seconds in the buffer, and enough of it new, or a pause with anything new. */
  predicate Due(m: Machine, env: FlushEnv) {
    var cur, last := |m.d.engine.buffer|, m.d.last;
    && cur >= 32000
    && (cur - last >= env.minNew || (env.silenceMs > 400 && cur > last)
        || (cur < last && 0x1_0000_0000_0000_0000 - (last - cur) >= env.minNew))
  }

  /**
    A poll begins a pass if and only if the session is configured, a pass is due and there is a decoder
    slot; a denied one is told once, and so is the next one that is not.
  */
  lemma PassBeginsExactlyIf(m: Machine, env: FlushEnv)
    requires Inv(m) && m.flush.Polling? && m.d.last <= 480000
    ensures var m', due := Apply(m, FlushGo(env)), m.d.configured && m.d.hasEngine && Due(m, m.flush.env);
      && (m'.flush.Infer? <==> due && m.flush.env.slot && !m.d.degraded)
      && (m'.flush.FreeSend? <==> due && m.flush.env.slot && m.d.degraded)
      && (m'.flush.BusySend? <==> due && !m.flush.env.slot && !m.d.degraded)
      && (m'.flush.Infer? || m'.flush.FreeSend? ==>
            !m'.d.degraded && m'.flush.cur == |m.d.engine.buffer| && m'.flush.pass == m.flush.env.pass)
      && (m'.flush.Infer? || m'.flush.FreeSend? || m'.flush.BusySend? || (m'.flush.Idle? && m'.owner.Nobody?))
      && m'.d == m.d.(degraded := if due then !m.flush.env.slot else m.d.degraded)
  {
    if m.d.last > |m.d.engine.buffer| {
      assert (|m.d.engine.buffer| - m.d.last) % SIZE_T == SIZE_T - (m.d.last - |m.d.engine.buffer|);
    }
  }

  /** What is decoded is at least two seconds long, and the size it was measured by too. */
  predicate LongEnough(m: Machine) {
    && (Measured(m.flush) ==> 32000 <= m.flush.cur)
    && (m.flush.Infer? ==> 32000 <= |m.d.engine.buffer|)
    && (m.flush.Commit? ==> 32000 <= |m.flush.snapshot|)
  }

  lemma StepKeepsLongEnough(m: Machine, step: Step)
    requires Inv(m) && MeasuredInv(m) && LongEnough(m) && !Reconfigures(m, step)
    ensures LongEnough(Apply(m, step))
  {
    StepKeepsInv(m, step);
    StepKeepsMeasured(m, step);
    if Dead(m) {
    } else if step.FlushGo? && m.flush.Commit? {
      CommitGoes(m, step.env);
    } else if step.FlushGo? && m.flush.Texts? {
      AccountingGoes(m, step.env);
    } else if step.FlushGo? {
      FlushMoves(m, step.env);
    } else {
      OthersLeaveFlush(m, step);
    }
  }

  /** In no run of a session configured once is anything shorter than two seconds decoded before the end. */
  lemma {:induction false} NothingShortIsDecoded(steps: seq<Step>)
    requires ConfiguredOnce(steps)
    ensures LongEnough(Run(START, steps))
  {
    if steps != [] {
      var n := |steps| - 1;
      OnceMeansNoReconfiguration(steps, n);
      NothingShortIsDecoded(steps[..n]);
      RunKeepsMeasured(steps, n);
      StepKeepsLongEnough(Run(START, steps[..n]), steps[n]);
    }
  }

  // ---------------------------------------------------------------- one pass

  /** The state after `k` steps. */
  ghost function After(steps: seq<Step>, k: nat): Machine
    requires k <= |steps|
  {
    Run(START, steps[..k])
  }

  /** A step of the run, as values. */
  lemma Moment(steps: seq<Step>, k: nat, next: nat) returns (m: Machine, m': Machine)
    requires ConfiguredOnce(steps) && k < |steps| && next == k + 1
    ensures m == After(steps, k) && m' == After(steps, next) && m' == Apply(m, steps[k])
    ensures Inv(m) && MeasuredInv(m) && !Reconfigures(m, steps[k])
  {
    RunKeepsMeasured(steps, k);
    m, m' := After(steps, k), After(steps, next);
  }

  /** Step `j` commits a pass and step `a` accounts for it. */
  ghost predicate PassOf(steps: seq<Step>, j: nat, a: nat) {
    && j < a < |steps|
    && After(steps, j).flush.Commit? && steps[j].FlushGo?
    && After(steps, a).flush.Texts? && steps[a].FlushGo?
    && forall i :: j < i <= a ==> Unaccounted(After(steps, i).flush)
  }

  /** The pass commits text, or erases no more than came in from its measurement to its accounting. */
  ghost predicate PaysItsWay(steps: seq<Step>, j: nat, a: nat)
    requires PassOf(steps, j, a)
  {
    var before, after := |After(steps, j).d.engine.buffer|, |After(steps, j + 1).d.engine.buffer|;
    var accounted := |After(steps, a).d.engine.buffer|;
    var erased, sinceMeasured, sinceCommitted := before - after, before - After(steps, j).flush.cur, accounted - after;
    var outcome := After(steps, j).flush.outcome;
    (outcome.Done? && outcome.result.committed != "") || erased <= sinceMeasured + sinceCommitted
  }

  /** The flush thread is accounting for the pass that it committed in `commit`. */
  predicate SamePass(commit: Machine, m: Machine) {
    && commit.flush.Commit? && commit.flush.outcome.Done? && Unaccounted(m.flush)
    && m.flush.cur == commit.flush.cur && m.flush.res == commit.flush.outcome.result
  }

  lemma PassStaysOne(commit: Machine, m: Machine, step: Step, m': Machine)
    requires Inv(m) && SamePass(commit, m) && m' == Apply(m, step) && Unaccounted(m'.flush)
    ensures SamePass(commit, m')
  {
    if !step.FlushGo? {
      OthersLeaveFlush(m, step);
    } else if m.flush.Texts? {
      AccountingGoes(m, step.env);
    } else {
      FlushMoves(m, step.env);
    }
  }

  lemma PassBegins(commit: Machine, step: Step, m': Machine)
    requires Inv(commit) && commit.flush.Commit? && step.FlushGo? && m' == Apply(commit, step) && Unaccounted(m'.flush)
    ensures SamePass(commit, m')
  {
    CommitGoes(commit, step.env);
  }

  lemma {:induction false} PassStays(steps: seq<Step>, j: nat, i: nat)
    requires ConfiguredOnce(steps) && j < i <= |steps| && After(steps, j).flush.Commit? && steps[j].FlushGo?
    requires forall k :: j < k <= i ==> Unaccounted(After(steps, k).flush)
    ensures SamePass(After(steps, j), After(steps, i))
    decreases i
  {
    var m, m' := Moment(steps, i - 1, i);
    assert Unaccounted(m'.flush);
    if i == j + 1 {
      PassBegins(m, steps[j], m');
    } else {
      PassStays(steps, j, i - 1);
      PassStaysOne(After(steps, j), m, steps[i - 1], m');
    }
  }

  /** Accounting for a pass leaves an exact subtraction if and only if the pass pays its way. */
  lemma PassIsExactExactlyIfItPays(steps: seq<Step>, j: nat, a: nat)
    requires ConfiguredOnce(steps) && PassOf(steps, j, a) && !Dead(After(steps, a + 1))
    ensures Exact(After(steps, a + 1)) <==> PaysItsWay(steps, j, a)
    ensures Counting(After(steps, a + 1))
  {
    PassStays(steps, j, a);
    RunKeepsMeasured(steps, a);
    AccountingGoes(After(steps, a), steps[a].env);
    ExactMeansNotShorter(After(steps, a + 1));
  }

  // ---------------------------------------------------------------- whole runs

  lemma {:induction false} CommitBefore(steps: seq<Step>, a: nat) returns (j: nat)
    requires ConfiguredOnce(steps) && a < |steps| && Unaccounted(After(steps, a).flush)
    ensures j < a && After(steps, j).flush.Commit? && steps[j].FlushGo?
    ensures forall i :: j < i <= a ==> Unaccounted(After(steps, i).flush)
  {
    assert steps[..0] == [];
    var m, m' := Moment(steps, a - 1, a);
    j := a - 1;
    if Unaccounted(m.flush) {
      j := CommitBefore(steps, a - 1);
    } else {
      UnaccountedComesFromCommit(m, steps[j]);
    }
  }

  lemma UnaccountedComesFromCommit(m: Machine, step: Step)
    requires Inv(m) && !Unaccounted(m.flush) && Unaccounted(Apply(m, step).flush)
    ensures m.flush.Commit? && step.FlushGo?
  {
    if !step.FlushGo? {
      OthersLeaveFlush(m, step);
    } else if !m.flush.Commit? {
      FlushMoves(m, step.env);
    }
  }

  /** Whenever no pass is on its way to its accounting, the subtraction is exact. */
  ghost predicate ExactThroughout(steps: seq<Step>) {
    forall k :: 0 <= k <= |steps| && Counting(After(steps, k)) ==> Exact(After(steps, k))
  }

  ghost predicate AllPay(steps: seq<Step>) {
    forall j: nat, a: nat :: PassOf(steps, j, a) && !Dead(After(steps, a + 1)) ==> PaysItsWay(steps, j, a)
  }

  lemma {:induction false} PayingKeepsExact(steps: seq<Step>, k: nat)
    requires ConfiguredOnce(steps) && AllPay(steps) && k <= |steps|
    ensures Counting(After(steps, k)) ==> Exact(After(steps, k))
  {
    if k == 0 {
      assert steps[..0] == [];
    } else {
      PayingKeepsExact(steps, k - 1);
      var m, m' := Moment(steps, k - 1, k);
      var step := steps[k - 1];
      if m.flush.Texts? && step.FlushGo? {
        var j := CommitBefore(steps, k - 1);
        assert PassOf(steps, j, k - 1);
        if !Dead(m') {
          PassIsExactExactlyIfItPays(steps, j, k - 1);
        }
      } else {
        CountingStaysExact(m, step);
      }
    }
  }

  lemma CountingStaysExact(m: Machine, step: Step)
    requires Inv(m) && MeasuredInv(m) && !Reconfigures(m, step)
    requires Counting(m) ==> Exact(m)
    requires !(m.flush.Texts? && step.FlushGo?)
    ensures Counting(Apply(m, step)) ==> Exact(Apply(m, step))
  {
    var m' := Apply(m, step);
    if Counting(m') && !Dead(m) {
      ExactMeansNotShorter(m);
      ExactMeansNotShorter(m');
      if step.FlushGo? {
        if m.flush.Commit? {
          CommitGoes(m, step.env);
        } else {
          FlushMoves(m, step.env);
          StepGrows(m, step);
        }
      } else {
        OthersLeaveFlush(m, step);
        if step.RecvUnlock? && m.recv.ConfigSection? {
          assert m'.d.last == 0;
        } else {
          StepGrows(m, step);
        }
      }
    }
  }

  /**
    In a run of a session configured once, with appends in every window where the mutex is free, the
    subtraction is exact throughout if and only if every pass pays its way.
  */
  lemma ExactExactlyIfAllPay(steps: seq<Step>)
    requires ConfiguredOnce(steps)
    ensures ExactThroughout(steps) <==> AllPay(steps)
  {
    if AllPay(steps) {
      forall k | 0 <= k <= |steps| ensures Counting(After(steps, k)) ==> Exact(After(steps, k)) {
        PayingKeepsExact(steps, k);
      }
    }
    if ExactThroughout(steps) {
      forall j: nat, a: nat | PassOf(steps, j, a) && !Dead(After(steps, a + 1)) ensures PaysItsWay(steps, j, a) {
        PassIsExactExactlyIfItPays(steps, j, a);
      }
    }
  }

  /** The pass about to commit erases nothing, or commits some text. */
  predicate Talks(m: Machine) {
    m.flush.Commit? && m.flush.outcome.Done? && SE.Committed(m.d.engine.buffer, m.flush.action) != m.d.engine.buffer ==>
      m.flush.outcome.result.committed != ""
  }

  /** In particular, it is exact if every commit that erases audio carries text. */
  lemma TriggerArithmeticIsExact(steps: seq<Step>)
    requires ConfiguredOnce(steps) && forall k :: 0 <= k < |steps| ==> Talks(After(steps, k))
    ensures ExactThroughout(steps)
  {
    forall j: nat, a: nat | PassOf(steps, j, a) && !Dead(After(steps, a + 1)) ensures PaysItsWay(steps, j, a) {
      PassStays(steps, j, a);
      RunKeepsMeasured(steps, j);
      CommitGoes(After(steps, j), steps[j].env);
      BufferGrowsAfterCommit(steps, j, a);
    }
    ExactExactlyIfAllPay(steps);
  }

  lemma {:induction false} BufferGrowsAfterCommit(steps: seq<Step>, j: nat, i: nat)
    requires ConfiguredOnce(steps) && j < i < |steps|
    requires forall k :: j < k <= i ==> Unaccounted(After(steps, k).flush)
    ensures |After(steps, j + 1).d.engine.buffer| <= |After(steps, i).d.engine.buffer|
    decreases i
  {
    if i > j + 1 {
      BufferGrowsAfterCommit(steps, j, i - 1);
      var m, m' := Moment(steps, i - 1, i);
      var step := steps[i - 1];
      if m.flush.Texts? && step.FlushGo? {
        AccountingGoes(m, step.env);
      } else {
        StepGrows(m, step);
      }
    }
  }

  // ---------------------------------------------------------------- a run in which it wraps

  /** Ten seconds decoded to one segment without text that ends at five seconds. */
  function SilentPass(): SE.Pass {
    SE.Pass(VG.LoadFailed, SE.Decoded([SE.Segment(500, None)]))
  }

  const GO := FlushGo(FlushEnv(4000, 0, true, SilentPass()))

  /**
    The condition matters: ten seconds of audio, then a pass whose one segment has no text, erase
    five seconds but leave the last size at ten. The subtraction is now close to 2^64, so the flush
    loop starts another pass without any new audio at all.
  */
  lemma EmptyCommitWraps(pcm: seq<real>, env: FlushEnv)
    requires |pcm| == SE.MAX_WINDOW && env.minNew < SIZE_T / 2
    ensures var d := Run(START, CONFIGURE + SendAudio(pcm) + [GO, GO, GO] + [GO, GO]).d;
      && d.last == 160000 && |d.engine.buffer| == 80000
      && SubSize(|d.engine.buffer|, d.last) == SIZE_T - 80000 && Triggered(d, env)
  {
    LoadedIsReached(pcm);
    var start := CONFIGURE + SendAudio(pcm);
    var m := Run(START, start);
    SilentPassSays(m.d.engine.buffer);
    assert Triggered(m.d, GO.env);
    PassIsDecoded(m, GO.env, SE.Done(SE.NOTHING), SE.Erase(80000));
    var decoded := Run(m, [GO, GO, GO]);
    RunSplit(START, start, [GO, GO, GO]);
    RunOne(decoded, GO);
    RunMore(decoded, [GO], GO);
    assert [GO] + [GO] == [GO, GO];
    ErasedAndAccounted(decoded);
    RunSplit(START, start + [GO, GO, GO], [GO, GO]);
    assert (80000 - 160000) % SIZE_T == SIZE_T - 80000;
  }

  lemma ErasedAndAccounted(m: Machine)
    requires m.flush == Commit(160000, m.d.engine.buffer, SE.Done(SE.NOTHING), SE.Erase(80000))
    requires |m.d.engine.buffer| == 160000 && m.d.configured && m.d.hasEngine && !m.d.overflowed
    ensures var d := Apply(Apply(m, GO), GO).d;
      d.configured && d.hasEngine && |d.engine.buffer| == 80000 && d.last == 160000
  {
  }

  lemma SilentPassSays(buffer: seq<real>)
    requires |buffer| == 160000
    ensures SE.OutcomeOf(None, buffer, SilentPass(), false) == SE.Done(SE.NOTHING)
    ensures SE.ActionOf(None, buffer, SilentPass(), false) == SE.Erase(80000)
  {
    var segs := SilentPass().decode.segments;
    assert SE.LastBefore(segs, 800, 1) == 0;
    assert segs[..1] == segs && segs[1..] == [] && segs[..0] == [];
  }
}
