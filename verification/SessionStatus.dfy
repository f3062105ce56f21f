/**
  What the client is told about decoder capacity, for sessions configured once: `busy` and `ok` strictly
  alternate, and nothing is decoded while the last word was `busy`.
*/
module SessionStatus {
  import SE = StreamingEngine
  import opened SessionText
  import opened SessionThreads

  /** The status messages of a log. */
  function Statuses(log: seq<Item>): seq<Message> {
    if log == [] then []
    else
      var rest, last := Statuses(log[..|log| - 1]), log[|log| - 1];
      if last == Out(Busy) || last == Out(Free) then rest + [last.msg] else rest
  }

  predicate Alternating(statuses: seq<Message>) {
    forall i :: 0 <= i < |statuses| ==> statuses[i] == if i % 2 == 0 then Busy else Free
  }

  /** The last word was `busy`. */
  predicate SaidBusy(log: seq<Item>) {
    log != [] && (log[|log| - 1] == Out(Busy) || (log[|log| - 1] != Out(Free) && SaidBusy(log[..|log| - 1])))
  }

  /** `busy` comes only after `ok` or at first, and `ok` only after `busy`. */
  predicate InTurn(log: seq<Item>) {
    log == [] ||
      var init, last := log[..|log| - 1], log[|log| - 1];
      InTurn(init) && (last == Out(Busy) ==> !SaidBusy(init)) && (last == Out(Free) ==> SaidBusy(init))
  }

  lemma {:induction false} InTurnAlternates(log: seq<Item>)
    requires InTurn(log)
    ensures Alternating(Statuses(log)) && (SaidBusy(log) <==> |Statuses(log)| % 2 == 1)
  {
    if log != [] {
      InTurnAlternates(log[..|log| - 1]);
    }
  }

  predicate NoStatus(recv: RecvPc) {
    recv.Sending? ==> forall i :: 0 <= i < |recv.msgs| ==> recv.msgs[i] != Busy && recv.msgs[i] != Free
  }

  /** Between the poll that gets a slot and the commit. */
  predicate Decoding(flush: FlushPc) {
    flush.FreeRelock? || flush.Infer? || flush.Commit?
  }

  /** The flag is what the client was told last, but for a status that is just being sent. */
  predicate Tallies(flush: FlushPc, degraded: bool, saidBusy: bool) {
    && (if flush.BusySend? then degraded && !saidBusy
        else if flush.FreeSend? then !degraded && saidBusy
        else degraded == saidBusy)
    && (Decoding(flush) ==> !degraded)
  }

  ghost predicate StatusInv(m: Machine) {
    && InTurn(m.d.log) && NoStatus(m.recv) && Tallies(m.flush, m.d.degraded, SaidBusy(m.d.log))
    && (!m.d.configured ==> !m.d.degraded)
  }

  lemma OneMoreItem(log: seq<Item>, item: Item)
    ensures SaidBusy(log + [item]) <==> item == Out(Busy) || (item != Out(Free) && SaidBusy(log))
    ensures InTurn(log + [item]) <==>
      InTurn(log) && (item == Out(Busy) ==> !SaidBusy(log)) && (item == Out(Free) ==> SaidBusy(log))
  {
    assert (log + [item])[..|log|] == log;
  }

  lemma SendTallies(flush: FlushPc, degraded: bool, saidBusy: bool)
    requires InSend(flush) && Tallies(flush, degraded, saidBusy)
    ensures MessageOf(flush) == Busy ==> !saidBusy
    ensures MessageOf(flush) == Free ==> saidBusy
    ensures Tallies(Relocking(flush), degraded, MessageOf(flush) == Busy || (MessageOf(flush) != Free && saidBusy))
  {
  }

  lemma SendKeepsStatus(m: Machine)
    requires StatusInv(m) && InSend(m.flush)
    ensures StatusInv(SendGone(m))
  {
    SendTallies(m.flush, m.d.degraded, SaidBusy(m.d.log));
    OneMoreItem(m.d.log, Out(MessageOf(m.flush)));
  }

  lemma SectionTallies(d: Data, flush: FlushPc, saidBusy: bool)
    requires Held(flush) && Tallies(flush, d.degraded, saidBusy)
    ensures var (d', flush') := FlushSection(d, flush);
      && Tallies(flush', d'.degraded, saidBusy) && d'.log == d.log && d'.configured == d.configured
      && (!d.configured ==> d'.degraded == d.degraded)
  {
    if flush.Texts? {
      AccumulatedFrame(d, flush.cur, flush.res);
    }
  }

  lemma RelockKeepsStatus(m: Machine)
    requires StatusInv(m) && InRelock(m.flush)
    ensures StatusInv(RelockGone(m))
  {
  }

  lemma FlushKeepsStatus(m: Machine, env: FlushEnv)
    requires StatusInv(m)
    ensures StatusInv(FlushGone(m, env))
  {
    if InSend(m.flush) {
      SendKeepsStatus(m);
    } else if InRelock(m.flush) {
      RelockKeepsStatus(m);
    } else if Held(m.flush) {
      SectionTallies(m.d, m.flush, SaidBusy(m.d.log));
    }
  }

  lemma ChunkOwesNoStatus(d: Data)
    ensures NoStatus(ToSend(ChunkMessages(d)))
  {
  }

  lemma ChunkKeepsStatus(m: Machine)
    requires StatusInv(m) && m.recv.ChunkSection?
    ensures StatusInv(UnlockGone(m))
  {
    ChunkFrame(m.d, m.recv.pcm);
    ChunkOwesNoStatus(m.d);
    OneMoreItem(m.d.log, Drop);
    var d := ChunkData(m.d, m.recv.pcm);
    assert UnlockGone(m) == m.(d := d, recv := ToSend(ChunkMessages(m.d)), owner := Nobody);
    assert SaidBusy(d.log) == SaidBusy(m.d.log) && InTurn(d.log);
  }

  lemma UnlockKeepsStatus(m: Machine)
    requires Inv(m) && StatusInv(m) && !Reconfigures(m, RecvUnlock)
    ensures StatusInv(UnlockGone(m))
  {
    if m.recv.ChunkSection? {
      ChunkKeepsStatus(m);
    } else if m.recv.ConfigSection? {
      assert !m.flush.BusySend? && !m.flush.FreeSend?;
    }
  }

  lemma OwnSendKeepsStatus(m: Machine)
    requires StatusInv(m)
    ensures StatusInv(RecvSendGone(m))
  {
    if m.recv.Sending? && m.recv.msgs != [] {
      OneMoreItem(m.d.log, Out(m.recv.msgs[0]));
    }
  }

  lemma FinalSendKeepsStatus(m: Machine)
    requires StatusInv(m)
    ensures StatusInv(FinalSendGone(m))
  {
    if m.recv.FinalSend? {
      OneMoreItem(m.d.log, Out(Transcription(m.recv.text, true, m.recv.complete)));
    }
  }

  lemma FinalKeepsStatus(m: Machine, slot: bool, pass: SE.Pass)
    requires StatusInv(m)
    ensures StatusInv(FinalGone(m, slot, pass))
  {
  }

  lemma ControlKeepsStatus(m: Machine, step: Step)
    requires StatusInv(m)
    ensures StatusInv(ControlGone(m, step))
  {
  }

  lemma StepKeepsStatus(m: Machine, step: Step)
    requires Inv(m) && StatusInv(m) && !Reconfigures(m, step)
    ensures StatusInv(Apply(m, step))
  {
    if !Dead(m) {
      match step
      case FlushGo(env) => FlushKeepsStatus(m, env);
      case RecvUnlock => UnlockKeepsStatus(m);
      case RecvFinal(slot, pass) => FinalKeepsStatus(m, slot, pass);
      case RecvSend => OwnSendKeepsStatus(m);
      case RecvFinalSend => FinalSendKeepsStatus(m);
      case _ => ControlKeepsStatus(m, step);
    }
  }

  lemma {:induction false} RunKeepsStatus(steps: seq<Step>)
    requires ConfiguredOnce(steps)
    ensures StatusInv(Run(START, steps))
  {
    if steps != [] {
      var n := |steps| - 1;
      OnceMeansNoReconfiguration(steps, n);
      RunKeepsStatus(steps[..n]);
      RunKeepsInv(START, steps[..n]);
      StepKeepsStatus(Run(START, steps[..n]), steps[n]);
    }
  }

  /**
    `busy` and `ok` strictly alternate, beginning with `busy`; and whenever the flush thread decodes, the
    last of them the client was sent is `ok`, or there has been none.
  */
  lemma StatusesAlternate(steps: seq<Step>)
    requires ConfiguredOnce(steps)
    ensures Alternating(Statuses(Run(START, steps).d.log))
    ensures var m := Run(START, steps); m.flush.Infer? || m.flush.Commit? ==> |Statuses(m.d.log)| % 2 == 0
  {
    RunKeepsStatus(steps);
    InTurnAlternates(Run(START, steps).d.log);
  }
}
