/**
  The two threads of a streaming session (src/server/StreamingSession.h): a receive thread that runs
  the message handlers and a flush thread that runs all inference. They share state under one mutex,
  which the flush thread gives up around every send and takes again afterwards.

  A step is what a thread does between two points where the other can get in. The mutex is part of
  the state: who asks for it waits until nobody owns it, and nothing else keeps one thread out of
  the other's critical sections. That they are kept out is proved. Decoder, voice activity, decoder
  slots, the clock and the peer are environment choices.
*/
module SessionThreads {
  import opened Common
  import SE = StreamingEngine
  import HG = HallucinationGuard

  const MIN_BUFFER := 32000        // 2 s before the first inference
  const LOW_WATER_MARK := 160000   // 10 s
  const WARNING_INTERVAL := 10
  const SIZE_T := 0x1_0000_0000_0000_0000

  datatype Message =
    | Ready
    | Failure(code: string)
    | Pause
    | Resume
    | BufferFull(dropped: nat)
    | Busy
    | Free
    | Transcription(text: string, isFinal: bool, complete: bool)

  /** What happened, in order: chunks refused and messages sent. */
  datatype Item = Drop | Out(msg: Message)

  /** The state under the mutex. `commits` are the commits since configuration, hallucinated or not. */
  datatype Data = Data(
    configured: bool, hasEngine: bool, gating: SE.Gating, engine: SE.State,
    overflowed: bool, dropped: nat, degraded: bool, last: nat,
    full: string, raw: string, commits: seq<string>, ended: bool, log: seq<Item>)

  datatype Owner = Nobody | FlushThread | RecvThread

  datatype FlushEnv = FlushEnv(minNew: nat, silenceMs: nat, slot: bool, pass: SE.Pass)

  /**
    Where the flush thread is; `cur` is its measured buffer size, `res` the pass's result. `Commit`
    is the pass after decoding a snapshot without the engine's lock, about to erase.
  */
  datatype FlushPc =
    | Idle
    | Exited
    | NoEngine    // it used an engine that is gone
    | Terminated  // an exception left the thread
    // owning the mutex
    | Polling(env: FlushEnv)
    | Leaving(slot: bool)  // at the end of the cycle, with a decoder slot or without
    | Infer(cur: nat, pass: SE.Pass)
    | Commit(cur: nat, snapshot: seq<real>, outcome: SE.Outcome, action: SE.Action)
    | Warned(cur: nat, res: SE.Transcript)
    | Resumed(cur: nat, res: SE.Transcript)
    | Texts(cur: nat, res: SE.Transcript)
    // sending without it
    | BusySend
    | FreeSend(cur: nat, pass: SE.Pass)
    | WarnSend(cur: nat, res: SE.Transcript, dropped: nat)
    | ResumeSend(cur: nat, res: SE.Transcript)
    | TextSend(text: string)
    // asking for it again
    | BusyRelock
    | FreeRelock(cur: nat, pass: SE.Pass)
    | WarnRelock(cur: nat, res: SE.Transcript)
    | ResumeRelock(cur: nat, res: SE.Transcript)
    | TextRelock

  /** Where the receive thread is, from reading messages to the end of the session's destructor. */
  datatype RecvPc =
    | Reading
    | ChunkLock(pcm: seq<real>)
    | ChunkSection(pcm: seq<real>)
    | ConfigLock(gating: SE.Gating)
    | ConfigSection(gating: SE.Gating)
    | Sending(msgs: seq<Message>)
    | Joining
    | FinalLock
    | FinalSection
    | FinalSend(text: string, complete: bool)
    | Closing
    | ReleaseLock
    | ReleaseSection
    | Gone
    | Stopping
    | Destroyed

  datatype Machine = Machine(d: Data, flush: FlushPc, recv: RecvPc, owner: Owner, running: bool, closed: bool)

  datatype Step =
    | FlushGo(env: FlushEnv)               // the flush thread's next step; `env` is used only by a new cycle
    | RecvChunk(pcm: seq<real>)
    | RecvConfig(gating: SE.Gating)
    | RecvBad(code: string)
    | RecvEnd
    | RecvClose(ok: bool)
    | RecvThrows
    | RecvLock
    | RecvUnlock                           // a critical section of the receive thread, and unlocking
    | RecvFinal(slot: bool, pass: SE.Pass) // the one with the last decode
    | RecvSend
    | RecvJoin
    | RecvFinalSend
    | RecvFinalClose(ok: bool)
    | RecvDestroy

  const FRESH_DATA :=
    Data(false, false, None, SE.EMPTY, false, 0, false, 0, "", "", [], false, [])

  const START := Machine(FRESH_DATA, Idle, Reading, Nobody, true, false)

  // ---------------------------------------------------------------- critical sections

  function Emit(d: Data, msg: Message): Data {
    d.(log := d.log + [Out(msg)])
  }

  /** `size_t` subtraction. */
  function SubSize(a: nat, b: nat): nat {
    if b <= a then a - b else (a - b) % SIZE_T
  }

  predicate Triggered(d: Data, env: FlushEnv) {
    var cur := |d.engine.buffer|;
    && d.configured && d.hasEngine && cur >= MIN_BUFFER
    && (SubSize(cur, d.last) >= env.minNew || (env.silenceMs > 400 && cur > d.last))
  }

  function Begun(d: Data, env: FlushEnv): (Data, FlushPc) {
    if !Triggered(d, env) then (d, Idle)
    else if !env.slot then (if d.degraded then (d, Idle) else (d.(degraded := true), BusySend))
    else if d.degraded then (d.(degraded := false), FreeSend(|d.engine.buffer|, env.pass))
    else (d, Infer(|d.engine.buffer|, env.pass))
  }

  /** The pass up to the erasure: copy the buffer, decode the copy, choose what to commit. */
  function Decoded(d: Data, cur: nat, pass: SE.Pass): FlushPc {
    Commit(cur, d.engine.buffer,
           SE.OutcomeOf(d.gating, d.engine.buffer, pass, false), SE.ActionOf(d.gating, d.engine.buffer, pass, false))
  }

  /** Erase what was committed on the snapshot, then see whether a saturation episode is over. */
  function AfterDecode(d: Data, cur: nat, outcome: SE.Outcome, action: SE.Action): (Data, FlushPc) {
    if outcome.Threw? then (d, Terminated)
    else
      var d1 := d.(engine := SE.Apply(d.engine, SE.Commit(action)));
      if d1.overflowed && |d1.engine.buffer| < LOW_WATER_MARK then
        if d1.dropped % WARNING_INTERVAL != 0 then (d1, WarnSend(cur, outcome.result, d1.dropped))
        else (d1, ResumeSend(cur, outcome.result))
      else (d1, Texts(cur, outcome.result))
  }

  ghost predicate Presentable(text: string) {
    text != "" && !HG.Repetitive(text)
  }

  ghost function Accumulated(d: Data, cur: nat, res: SE.Transcript): Data {
    if res.committed == "" then d.(last := cur)
    else
      d.(raw := d.raw + res.committed, commits := d.commits + [res.committed],
         full := if Presentable(res.committed) then d.full + res.committed else d.full,
         last := |d.engine.buffer|)
  }

  ghost function AfterTexts(d: Data, cur: nat, res: SE.Transcript): (Data, FlushPc) {
    if res.committed != "" && !d.hasEngine then (d, NoEngine)
    else
      var d1 := Accumulated(d, cur, res);
      if Presentable(res.committed) || Presentable(res.partial) then
        (d1, TextSend(d1.full + if Presentable(res.partial) then res.partial else ""))
      else (d1, Idle)
  }

  function ChunkData(d: Data, pcm: seq<real>): Data {
    if !d.configured || !d.hasEngine then d
    else
      var d1 := d.(engine := SE.Apply(d.engine, SE.Chunk(pcm)));
      if |d.engine.buffer| >= SE.HIGH_WATER_MARK
      then d1.(overflowed := true, dropped := d.dropped + 1, log := d.log + [Drop])
      else d1
  }

  /** Messages owed after a chunk: pause on entering an episode, a warning on every tenth drop. */
  function ChunkMessages(d: Data): seq<Message> {
    if !d.configured || !d.hasEngine || |d.engine.buffer| < SE.HIGH_WATER_MARK then []
    else
      (if d.overflowed then [] else [Pause]) +
      (if (d.dropped + 1) % WARNING_INTERVAL == 0 then [BufferFull(d.dropped + 1)] else [])
  }

  function Configured(d: Data, gating: SE.Gating): Data {
    FRESH_DATA.(configured := true, hasEngine := true, gating := gating, log := d.log)
  }

  /** The last decode, the fallback to raw text, and what will be sent; None if the decoder throws. */
  function Finalized(d: Data, slot: bool, pass: SE.Pass): Option<Data> {
    var outcome := if d.hasEngine && slot then SE.OutcomeOf(d.gating, d.engine.buffer, pass, true) else SE.Done(SE.NOTHING);
    if outcome.Threw? then None
    else
      var action := if d.hasEngine && slot then SE.ActionOf(d.gating, d.engine.buffer, pass, true) else SE.Keep;
      var full := d.full + outcome.result.committed;
      Some(d.(engine := SE.Apply(d.engine, SE.Commit(action)), ended := true,
                 full := if full == "" then d.raw else full))
  }

  // ---------------------------------------------------------------- the flush thread

  /** The flush thread is in a critical section. */
  predicate Held(flush: FlushPc) {
    || flush.Polling? || flush.Leaving? || flush.Infer? || flush.Commit?
    || flush.Warned? || flush.Resumed? || flush.Texts?
  }

  predicate InSend(flush: FlushPc) {
    flush.BusySend? || flush.FreeSend? || flush.WarnSend? || flush.ResumeSend? || flush.TextSend?
  }

  predicate InRelock(flush: FlushPc) {
    flush.BusyRelock? || flush.FreeRelock? || flush.WarnRelock? || flush.ResumeRelock? || flush.TextRelock?
  }

  function MessageOf(flush: FlushPc): Message
    requires InSend(flush)
  {
    match flush
    case BusySend => Busy
    case FreeSend(_, _) => Free
    case WarnSend(_, _, dropped) => BufferFull(dropped)
    case ResumeSend(_, _) => Resume
    case TextSend(text) => Transcription(text, false, true)
  }

  function Relocking(flush: FlushPc): FlushPc
    requires InSend(flush)
  {
    match flush
    case BusySend => BusyRelock
    case FreeSend(cur, pass) => FreeRelock(cur, pass)
    case WarnSend(cur, res, _) => WarnRelock(cur, res)
    case ResumeSend(cur, res) => ResumeRelock(cur, res)
    case TextSend(_) => TextRelock
  }

  function Relocked(flush: FlushPc): FlushPc
    requires InRelock(flush)
  {
    match flush
    case BusyRelock => Leaving(false)
    case FreeRelock(cur, pass) => Infer(cur, pass)
    case WarnRelock(cur, res) => Warned(cur, res)
    case ResumeRelock(cur, res) => Resumed(cur, res)
    case TextRelock => Leaving(true)
  }

  /** A stretch of a critical section; having sent `resume`, the thread clears the episode only now. */
  ghost function FlushSection(d: Data, flush: FlushPc): (Data, FlushPc)
    requires Held(flush)
  {
    match flush
    case Polling(env) => Begun(d, env)
    case Leaving(_) => (d, Idle)
    case Infer(cur, pass) => (d, if d.hasEngine then Decoded(d, cur, pass) else NoEngine)
    case Commit(cur, _, outcome, action) => AfterDecode(d, cur, outcome, action)
    case Warned(cur, res) => (d, ResumeSend(cur, res))
    case Resumed(cur, res) => (d.(overflowed := false, dropped := 0), Texts(cur, res))
    case Texts(cur, res) => AfterTexts(d, cur, res)
  }

  ghost function SendGone(m: Machine): Machine
    requires InSend(m.flush)
  {
    m.(d := Emit(m.d, MessageOf(m.flush)), flush := Relocking(m.flush))
  }

  function RelockGone(m: Machine): Machine
    requires InRelock(m.flush)
  {
    if m.owner.Nobody? then m.(owner := FlushThread, flush := Relocked(m.flush)) else m
  }

  /** The mutex goes with the critical section. */
  ghost function SectionGone(m: Machine): Machine
    requires Held(m.flush)
  {
    var (d, flush) := FlushSection(m.d, m.flush);
    m.(d := d, flush := flush, owner := if Held(flush) then FlushThread else Nobody)
  }

  /** Between cycles: leave if told to, or try the mutex. */
  function IdleGone(m: Machine, env: FlushEnv): Machine {
    if !m.running then m.(flush := Exited)
    else if m.owner.Nobody? then m.(owner := FlushThread, flush := Polling(env))
    else m
  }

  ghost function FlushGone(m: Machine, env: FlushEnv): Machine {
    if m.flush.Idle? then IdleGone(m, env)
    else if InSend(m.flush) then SendGone(m)
    else if InRelock(m.flush) then RelockGone(m)
    else if Held(m.flush) then SectionGone(m)
    else m
  }

  /** The process is gone. */
  predicate Dead(m: Machine) {
    m.flush.NoEngine? || m.flush.Terminated?
  }

  // ---------------------------------------------------------------- the receive thread

  predicate WantsLock(recv: RecvPc) {
    recv.ChunkLock? || recv.ConfigLock? || recv.FinalLock? || recv.ReleaseLock?
  }

  /** The receive thread is in a critical section. */
  predicate InSection(recv: RecvPc) {
    recv.ChunkSection? || recv.ConfigSection? || recv.FinalSection? || recv.ReleaseSection?
  }

  function Entered(recv: RecvPc): RecvPc
    requires WantsLock(recv)
  {
    match recv
    case ChunkLock(pcm) => ChunkSection(pcm)
    case ConfigLock(gating) => ConfigSection(gating)
    case FinalLock => FinalSection
    case ReleaseLock => ReleaseSection
  }

  function ToSend(msgs: seq<Message>): RecvPc {
    if msgs == [] then Reading else Sending(msgs)
  }

  function RecvSection(d: Data, recv: RecvPc): (Data, RecvPc)
    requires InSection(recv) && !recv.FinalSection?
  {
    match recv
    case ChunkSection(pcm) => (ChunkData(d, pcm), ToSend(ChunkMessages(d)))
    case ConfigSection(gating) => (Configured(d, gating), Sending([Ready]))
    case ReleaseSection => (d.(hasEngine := false), Gone)
  }

  function UnlockGone(m: Machine): Machine {
    if InSection(m.recv) && !m.recv.FinalSection? then
      var (d, recv) := RecvSection(m.d, m.recv);
      m.(d := d, recv := recv, owner := Nobody)
    else m
  }

  /** An exception out of the last decode ends the session. */
  function FinalGone(m: Machine, slot: bool, pass: SE.Pass): Machine {
    if m.recv.FinalSection? then
      var final := Finalized(m.d, slot, pass);
      if final.None? then m.(recv := ReleaseLock, owner := Nobody)
      else m.(d := final.value, recv := FinalSend(final.value.full, !m.d.hasEngine || slot), owner := Nobody)
    else m
  }

  /** What does not touch the shared state; after a successful close a read can only throw. */
  function ControlGone(m: Machine, step: Step): Machine {
    match step
    case RecvChunk(pcm) => if m.recv.Reading? && !m.closed then m.(recv := ChunkLock(pcm)) else m
    case RecvConfig(gating) => if m.recv.Reading? && !m.closed then m.(recv := ConfigLock(gating)) else m
    case RecvBad(code) => if m.recv.Reading? && !m.closed then m.(recv := Sending([Failure(code)])) else m
    case RecvEnd =>
      if m.recv.Reading? && !m.closed && m.d.configured then m.(running := false, recv := Joining) else m
    case RecvClose(ok) => if m.recv.Reading? && !m.closed then m.(closed := ok) else m
    case RecvThrows => if m.recv.Reading? then m.(recv := ReleaseLock) else m
    case RecvLock =>
      if WantsLock(m.recv) && m.owner.Nobody? then m.(owner := RecvThread, recv := Entered(m.recv)) else m
    case RecvJoin =>
      if !m.flush.Exited? then m
      else if m.recv.Joining? then m.(recv := FinalLock)
      else if m.recv.Stopping? then m.(recv := Destroyed)
      else m
    case RecvFinalClose(ok) => if m.recv.Closing? then m.(closed := ok, recv := Reading) else m
    case RecvDestroy => if m.recv.Gone? then m.(running := false, recv := Stopping) else m
    case _ => m
  }

  function RecvSendGone(m: Machine): Machine {
    if m.recv.Sending? && m.recv.msgs != []
    then m.(d := Emit(m.d, m.recv.msgs[0]), recv := ToSend(m.recv.msgs[1..])) else m
  }

  function FinalSendGone(m: Machine): Machine {
    if m.recv.FinalSend?
    then m.(d := Emit(m.d, Transcription(m.recv.text, true, m.recv.complete)), recv := Closing) else m
  }

  // ---------------------------------------------------------------- runs

  /** A step that is not possible changes nothing. */
  ghost function Apply(m: Machine, step: Step): Machine {
    if Dead(m) then m
    else
      match step
      case FlushGo(env) => FlushGone(m, env)
      case RecvUnlock => UnlockGone(m)
      case RecvFinal(slot, pass) => FinalGone(m, slot, pass)
      case RecvSend => RecvSendGone(m)
      case RecvFinalSend => FinalSendGone(m)
      case _ => ControlGone(m, step)
  }

  ghost function Run(m: Machine, steps: seq<Step>): Machine {
    if steps == [] then m else Apply(Run(m, steps[..|steps| - 1]), steps[|steps| - 1])
  }

  lemma {:induction false} RunSplit(m: Machine, a: seq<Step>, b: seq<Step>)
    ensures Run(m, a + b) == Run(Run(m, a), b)
    decreases |b|
  {
    if b == [] {
      assert a + b == a;
    } else {
      assert (a + b)[..|a + b| - 1] == a + b[..|b| - 1];
      RunSplit(m, a, b[..|b| - 1]);
    }
  }

  lemma RunOne(m: Machine, step: Step)
    ensures Run(m, [step]) == Apply(m, step)
  {
    assert [step][..0] == [];
  }

  lemma RunMore(m: Machine, steps: seq<Step>, step: Step)
    ensures Run(m, steps + [step]) == Apply(Run(m, steps), step)
  {
    assert (steps + [step])[..|steps|] == steps;
  }

  lemma RunFrom(m: Machine, step: Step, rest: seq<Step>)
    ensures Run(m, [step] + rest) == Run(Apply(m, step), rest)
  {
    RunOne(m, step);
    RunSplit(m, [step], rest);
  }

  /** Three steps, one after the other. */
  lemma RunThree(m: Machine, a: Step, b: Step, c: Step)
    ensures Run(m, [a, b, c]) == Apply(Apply(Apply(m, a), b), c)
  {
    RunOne(m, a);
    RunMore(m, [a], b);
    RunMore(m, [a] + [b], c);
    assert [a] + [b] + [c] == [a, b, c];
  }

  function SendAudio(pcm: seq<real>): seq<Step> {
    [RecvChunk(pcm), RecvLock, RecvUnlock]
  }

  /** A chunk that finds the mutex free. */
  lemma ChunkIsHandled(m: Machine, pcm: seq<real>)
    requires !Dead(m) && m.owner.Nobody? && m.recv.Reading? && !m.closed
    ensures Run(m, SendAudio(pcm)) == m.(d := ChunkData(m.d, pcm), recv := ToSend(ChunkMessages(m.d)))
  {
    var asking, inside := m.(recv := ChunkLock(pcm)), m.(recv := ChunkSection(pcm), owner := RecvThread);
    RunThree(m, RecvChunk(pcm), RecvLock, RecvUnlock);
    assert Apply(m, RecvChunk(pcm)) == asking && Apply(asking, RecvLock) == inside;
    assert Apply(inside, RecvUnlock) == m.(d := ChunkData(m.d, pcm), recv := ToSend(ChunkMessages(m.d)));
  }

  function Configure(gating: SE.Gating): seq<Step> {
    [RecvConfig(gating), RecvLock, RecvUnlock] + [RecvSend]
  }

  /** A configuration that finds the mutex free, wherever the flush thread is. */
  lemma ConfigIsHandled(m: Machine, gating: SE.Gating)
    requires !Dead(m) && m.owner.Nobody? && m.recv.Reading? && !m.closed
    ensures Run(m, Configure(gating)) == m.(d := Emit(Configured(m.d, gating), Ready))
  {
    var asking, inside := m.(recv := ConfigLock(gating)), m.(recv := ConfigSection(gating), owner := RecvThread);
    var owing := m.(d := Configured(m.d, gating), recv := Sending([Ready]));
    RunThree(m, RecvConfig(gating), RecvLock, RecvUnlock);
    assert Apply(m, RecvConfig(gating)) == asking && Apply(asking, RecvLock) == inside;
    assert Apply(inside, RecvUnlock) == owing;
    RunMore(m, [RecvConfig(gating), RecvLock, RecvUnlock], RecvSend);
    assert Apply(owing, RecvSend) == m.(d := Emit(Configured(m.d, gating), Ready));
  }

  /** An idle flush thread that finds enough audio and a slot decodes it. */
  lemma PassIsDecoded(m: Machine, env: FlushEnv, outcome: SE.Outcome, action: SE.Action)
    requires m.flush.Idle? && m.running && m.owner.Nobody? && Triggered(m.d, env) && env.slot && !m.d.degraded
    requires outcome == SE.OutcomeOf(m.d.gating, m.d.engine.buffer, env.pass, false)
    requires action == SE.ActionOf(m.d.gating, m.d.engine.buffer, env.pass, false)
    ensures Run(m, [FlushGo(env), FlushGo(env), FlushGo(env)]) ==
      m.(flush := Commit(|m.d.engine.buffer|, m.d.engine.buffer, outcome, action), owner := FlushThread)
  {
    var go, cur := FlushGo(env), |m.d.engine.buffer|;
    var polling := m.(flush := Polling(env), owner := FlushThread);
    var infer := m.(flush := Infer(cur, env.pass), owner := FlushThread);
    RunThree(m, go, go, go);
    assert Apply(m, go) == polling && Apply(polling, go) == infer;
    InferDecodes(infer, env, outcome, action);
  }

  lemma InferDecodes(m: Machine, env: FlushEnv, outcome: SE.Outcome, action: SE.Action)
    requires m.flush.Infer? && m.owner.FlushThread? && m.d.hasEngine
    requires outcome == SE.OutcomeOf(m.d.gating, m.d.engine.buffer, m.flush.pass, false)
    requires action == SE.ActionOf(m.d.gating, m.d.engine.buffer, m.flush.pass, false)
    ensures Apply(m, FlushGo(env)) == m.(flush := Commit(m.flush.cur, m.d.engine.buffer, outcome, action))
  {
    assert !Dead(m) && Apply(m, FlushGo(env)) == SectionGone(m);
  }

  // ---------------------------------------------------------------- structure of every run

  /** `run` has returned. */
  predicate Left(recv: RecvPc) {
    recv.Gone? || recv.Stopping? || recv.Destroyed?
  }

  /** After a successful close. */
  predicate CanBeClosed(recv: RecvPc) {
    recv.Reading? || recv.ReleaseLock? || recv.ReleaseSection? || Left(recv)
  }

  /** From the join of the end handler to its close. */
  predicate Finishing(recv: RecvPc) {
    recv.FinalLock? || recv.FinalSection? || recv.FinalSend? || recv.Closing?
  }

  /** The mutex is owned exactly by the thread that is in a critical section, so never by both. */
  predicate Exclusive(m: Machine) {
    && (m.owner.FlushThread? <==> Held(m.flush))
    && (m.owner.RecvThread? <==> InSection(m.recv))
  }

  ghost predicate Inv(m: Machine) {
    && Exclusive(m)
    && |m.d.engine.buffer| <= SE.MAX_BUFFER
    && (m.flush.Exited? || m.recv.Joining? || m.recv.Stopping? || m.recv.Destroyed? ==> !m.running)
    && (m.recv.Joining? || Finishing(m.recv) ==> m.d.configured)
    && (Finishing(m.recv) ==> m.flush.Exited?)
    && (m.closed ==> CanBeClosed(m.recv))
    && (m.d.hasEngine <==> m.d.configured && !Left(m.recv))
    && (m.flush.NoEngine? ==> Left(m.recv))
    && (!m.d.configured ==> m.flush.Idle? || m.flush.Exited? || m.flush.Polling?)
    && (m.flush.Commit? ==> m.d.hasEngine && m.flush.snapshot == m.d.engine.buffer)
  }

  lemma EngineStaysBounded(s: SE.State, op: SE.Op)
    requires |s.buffer| <= SE.MAX_BUFFER
    ensures |SE.Apply(s, op).buffer| <= SE.MAX_BUFFER
  {
  }

  /** A commit touches nothing but the engine. */
  lemma AfterDecodeFrame(d: Data, cur: nat, outcome: SE.Outcome, action: SE.Action)
    requires |d.engine.buffer| <= SE.MAX_BUFFER
    ensures var (d', flush) := AfterDecode(d, cur, outcome, action);
      && d' == d.(engine := d'.engine) && |d'.engine.buffer| <= SE.MAX_BUFFER
      && (flush.Terminated? || flush.WarnSend? || flush.ResumeSend? || flush.Texts?)
  {
    EngineStaysBounded(d.engine, SE.Commit(action));
  }

  lemma SectionKeepsConfigured(d: Data, flush: FlushPc)
    requires Held(flush)
    ensures FlushSection(d, flush).0.configured == d.configured
  {
  }

  lemma SendKeepsInv(m: Machine)
    requires Inv(m) && InSend(m.flush)
    ensures Inv(SendGone(m))
  {
  }

  lemma RelockKeepsInv(m: Machine)
    requires Inv(m) && InRelock(m.flush)
    ensures Inv(RelockGone(m))
  {
  }

  lemma SectionKeepsInv(m: Machine)
    requires Inv(m) && Held(m.flush)
    ensures Inv(SectionGone(m))
  {
    if m.flush.Commit? {
      AfterDecodeFrame(m.d, m.flush.cur, m.flush.outcome, m.flush.action);
    }
  }

  lemma FlushKeepsInv(m: Machine, env: FlushEnv)
    requires Inv(m)
    ensures Inv(FlushGone(m, env))
  {
    if InSend(m.flush) {
      SendKeepsInv(m);
    } else if InRelock(m.flush) {
      RelockKeepsInv(m);
    } else if Held(m.flush) {
      SectionKeepsInv(m);
    }
  }

  lemma UnlockKeepsInv(m: Machine)
    requires Inv(m)
    ensures Inv(UnlockGone(m))
  {
    if m.recv.ChunkSection? {
      EngineStaysBounded(m.d.engine, SE.Chunk(m.recv.pcm));
    }
  }

  lemma FinalKeepsInv(m: Machine, slot: bool, pass: SE.Pass)
    requires Inv(m)
    ensures Inv(FinalGone(m, slot, pass))
  {
    EngineStaysBounded(m.d.engine, SE.Commit(SE.ActionOf(m.d.gating, m.d.engine.buffer, pass, true)));
    EngineStaysBounded(m.d.engine, SE.Commit(SE.Keep));
  }

  lemma ControlKeepsInv(m: Machine, step: Step)
    requires Inv(m) && !Dead(m)
    ensures Inv(ControlGone(m, step))
  {
  }

  lemma OwnSendKeepsInv(m: Machine)
    requires Inv(m)
    ensures Inv(RecvSendGone(m)) && Inv(FinalSendGone(m))
  {
  }

  lemma StepKeepsInv(m: Machine, step: Step)
    requires Inv(m)
    ensures Inv(Apply(m, step))
  {
    if !Dead(m) {
      match step
      case FlushGo(env) => FlushKeepsInv(m, env);
      case RecvUnlock => UnlockKeepsInv(m);
      case RecvFinal(slot, pass) => FinalKeepsInv(m, slot, pass);
      case RecvSend => OwnSendKeepsInv(m);
      case RecvFinalSend => OwnSendKeepsInv(m);
      case _ => ControlKeepsInv(m, step);
    }
  }

  lemma {:induction false} RunKeepsInv(m: Machine, steps: seq<Step>)
    requires Inv(m)
    ensures Inv(Run(m, steps))
  {
    if steps != [] {
      RunKeepsInv(m, steps[..|steps| - 1]);
      StepKeepsInv(Run(m, steps[..|steps| - 1]), steps[|steps| - 1]);
    }
  }

  lemma OthersLeaveFlush(m: Machine, step: Step)
    requires !step.FlushGo?
    ensures Apply(m, step).flush == m.flush
  {
  }

  lemma {:induction false} OthersKeepLeavingFlush(m: Machine, more: seq<Step>)
    requires forall i :: 0 <= i < |more| ==> !more[i].FlushGo?
    ensures Run(m, more).flush == m.flush
  {
    if more != [] {
      OthersKeepLeavingFlush(m, more[..|more| - 1]);
      OthersLeaveFlush(Run(m, more[..|more| - 1]), more[|more| - 1]);
    }
  }

  // ---------------------------------------------------------------- what the mutex gives

  lemma OwnerIsUntouched(m: Machine, step: Step)
    requires Exclusive(m) && Held(m.flush) && !step.FlushGo?
    ensures var m' := Apply(m, step);
      m'.flush == m.flush && m'.owner == m.owner && m'.d == m.d.(log := m'.d.log)
  {
    assert !InSection(m.recv);
  }

  /**
    While the flush thread is in a critical section, however the receive thread is scheduled, the
    shared state stays as it is but for messages it had already decided to send.
  */
  lemma {:induction false} OwnerIsUndisturbed(m: Machine, more: seq<Step>)
    requires Inv(m) && Held(m.flush) && forall i :: 0 <= i < |more| ==> !more[i].FlushGo?
    ensures var m' := Run(m, more);
      Inv(m') && m'.flush == m.flush && m'.owner == m.owner && m'.d == m.d.(log := m'.d.log)
  {
    if more != [] {
      var init := more[..|more| - 1];
      OwnerIsUndisturbed(m, init);
      StepKeepsInv(Run(m, init), more[|more| - 1]);
      OwnerIsUntouched(Run(m, init), more[|more| - 1]);
    }
  }

  lemma CommitApplies(m: Machine, env: FlushEnv)
    requires m.flush.Commit?
    ensures var m' := Apply(m, FlushGo(env));
      m'.flush.Terminated? || m'.d.engine == SE.Apply(m.d.engine, SE.Commit(m.flush.action))
  {
  }

  /**
    A pass commits on exactly the buffer it decoded, however the receive thread is scheduled between
    snapshot and erasure and however large its chunks: they wait for the mutex.
  */
  lemma PassCommitsOnItsSnapshot(m: Machine, more: seq<Step>, env: FlushEnv)
    requires Inv(m) && m.flush.Commit? && forall i :: 0 <= i < |more| ==> !more[i].FlushGo?
    ensures var m' := Apply(Run(m, more), FlushGo(env));
      m'.flush.Terminated? ||
        (m'.d.engine.buffer == SE.Committed(m.flush.snapshot, m.flush.action) && m'.d.engine.accepted == m.d.engine.accepted)
  {
    OwnerIsUndisturbed(m, more);
    CommitApplies(Run(m, more), env);
  }
}
