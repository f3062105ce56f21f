/**
  Sliding-window engine (src/whisper/StreamingWhisperEngine.cpp): a sample buffer that one thread
  appends to while another copies it, decodes the copy without a lock, and then erases what it has
  committed from the front of a buffer that may have grown meanwhile.

  The decoder and the voice-activity model are foreign: their outcomes are arguments.
*/
module StreamingEngine {
  import opened Common
  import AP = AudioPreprocessor
  import VG = VadGate

  const HIGH_WATER_MARK := 320000  // 20 s
  const MAX_BUFFER := 480000       // 30 s
  const MAX_WINDOW := 160000       // 10 s
  const OVERLAP := 32000           // 2 s

  /** A decoded segment: its end in centiseconds of the decoded buffer, and its text (may be null). */
  datatype Segment = Segment(t1: int, text: Option<string>)

  datatype DecodeOutcome = DecodeFailed | Decoded(segments: seq<Segment>)

  datatype Transcript = Transcript(committed: string, partial: string)

  datatype Outcome = Threw | Done(result: Transcript)

  /** What a pass does to the buffer once it has the lock again. */
  datatype Action = Keep | Erase(count: nat) | Clear

  const NOTHING := Transcript("", "")

  // ---------------------------------------------------------------- the buffer

  function LastN(s: seq<real>, n: nat): seq<real> {
    if |s| <= n then s else s[|s| - n..]
  }

  function Appended(buffer: seq<real>, prepared: seq<real>): seq<real> {
    LastN(buffer + prepared, MAX_BUFFER)
  }

  function Committed(buffer: seq<real>, action: Action): seq<real> {
    match action
    case Keep => buffer
    case Erase(count) => if count < |buffer| then buffer[count..] else []
    case Clear => []
  }

  function Kept(buffer: seq<real>, keep: nat): seq<real> {
    if keep == 0 || keep >= |buffer| then [] else buffer[|buffer| - keep..]
  }

  /** `accepted` is everything ever appended, after preprocessing. */
  datatype State = State(buffer: seq<real>, filter: AP.FilterState, accepted: seq<real>)

  datatype Op = Chunk(pcm: seq<real>) | Commit(action: Action) | Reset(keep: nat)

  const EMPTY := State([], AP.REST, [])

  /** A chunk is refused, leaving no trace, if 20 s are waiting already. */
  function Chunked(s: State, pcm: seq<real>): State {
    if |s.buffer| >= HIGH_WATER_MARK then s
    else
      var prepared := AP.Prepared(s.filter, pcm);
      State(Appended(s.buffer, prepared), AP.Advance(s.filter, pcm), s.accepted + prepared)
  }

  function Apply(s: State, op: Op): State {
    match op
    case Chunk(pcm) => Chunked(s, pcm)
    case Commit(action) => s.(buffer := Committed(s.buffer, action))
    case Reset(keep) => s.(buffer := Kept(s.buffer, keep))
  }

  function Run(s: State, ops: seq<Op>): State {
    if ops == [] then s else Apply(Run(s, ops[..|ops| - 1]), ops[|ops| - 1])
  }

  predicate IsSuffix(s: seq<real>, whole: seq<real>) {
    |s| <= |whole| && whole[|whole| - |s|..] == s
  }

  predicate Inv(s: State) {
    IsSuffix(s.buffer, s.accepted) && |s.buffer| <= MAX_BUFFER
  }

  lemma SuffixOfAppend(s: seq<real>, whole: seq<real>, more: seq<real>)
    requires IsSuffix(s, whole)
    ensures IsSuffix(s + more, whole + more)
  {
    assert (whole + more)[|whole| - |s|..] == whole[|whole| - |s|..] + more;
  }

  lemma SuffixOfSuffix(s: seq<real>, whole: seq<real>, k: nat)
    requires IsSuffix(s, whole) && k <= |s|
    ensures IsSuffix(s[k..], whole)
  {
    assert whole[|whole| - |s|..][k..] == whole[|whole| - |s| + k..];
  }

  lemma StepKeepsInv(s: State, op: Op)
    requires Inv(s)
    ensures Inv(Apply(s, op))
  {
    match op
    case Chunk(pcm) =>
      if |s.buffer| < HIGH_WATER_MARK {
        var prepared := AP.Prepared(s.filter, pcm);
        SuffixOfAppend(s.buffer, s.accepted, prepared);
        var grown := s.buffer + prepared;
        SuffixOfSuffix(grown, s.accepted + prepared, if |grown| <= MAX_BUFFER then 0 else |grown| - MAX_BUFFER);
      }
    case Commit(action) =>
      if action.Erase? && action.count < |s.buffer| {
        SuffixOfSuffix(s.buffer, s.accepted, action.count);
      }
    case Reset(keep) =>
      if 0 < keep < |s.buffer| {
        SuffixOfSuffix(s.buffer, s.accepted, |s.buffer| - keep);
      }
  }

  /**
    In every run of chunks, commits and resets the buffer is the most recent part of the accepted
    stream, never more than 30 s of it: nothing is reordered, repeated or lost from the middle.
  */
  lemma {:induction false} BufferIsRecentStream(ops: seq<Op>)
    ensures Inv(Run(EMPTY, ops))
  {
    if ops != [] {
      BufferIsRecentStream(ops[..|ops| - 1]);
      StepKeepsInv(Run(EMPTY, ops[..|ops| - 1]), ops[|ops| - 1]);
    }
  }

  function Chunks(pcms: seq<seq<real>>): (ops: seq<Op>)
    ensures |ops| == |pcms|
  {
    if pcms == [] then [] else Chunks(pcms[..|pcms| - 1]) + [Chunk(pcms[|pcms| - 1])]
  }

  /** The samples accepted between two states. */
  function Since(s: State, s': State): seq<real>
    requires |s.accepted| <= |s'.accepted|
  {
    s'.accepted[|s.accepted|..]
  }

  /** Appending chunk by chunk, with head trimming and refusals, keeps the last 30 s of it all. */
  lemma {:induction false} AppendsKeepLast(s: State, pcms: seq<seq<real>>)
    requires |s.buffer| <= MAX_BUFFER
    ensures var s' := Run(s, Chunks(pcms));
      && s.accepted <= s'.accepted
      && s'.buffer == LastN(s.buffer + Since(s, s'), MAX_BUFFER)
  {
    if pcms == [] {
      assert s.buffer + Since(s, s) == s.buffer;
    } else {
      var init, n := pcms[..|pcms| - 1], |pcms| - 1;
      AppendsKeepLast(s, init);
      assert Chunks(pcms)[..n] == Chunks(init);
      OneMoreChunk(s, Run(s, Chunks(init)), pcms[n]);
    }
  }

  lemma OneMoreChunk(s: State, mid: State, pcm: seq<real>)
    requires s.accepted <= mid.accepted && mid.buffer == LastN(s.buffer + Since(s, mid), MAX_BUFFER)
    ensures s.accepted <= Chunked(mid, pcm).accepted
    ensures Chunked(mid, pcm).buffer == LastN(s.buffer + Since(s, Chunked(mid, pcm)), MAX_BUFFER)
  {
    if |mid.buffer| < HIGH_WATER_MARK {
      var prepared := AP.Prepared(mid.filter, pcm);
      assert Since(s, Chunked(mid, pcm)) == Since(s, mid) + prepared;
      LastOfLast(s.buffer + Since(s, mid), prepared, MAX_BUFFER);
      assert s.buffer + (Since(s, mid) + prepared) == s.buffer + Since(s, mid) + prepared;
    }
  }

  lemma LastOfLast(a: seq<real>, b: seq<real>, n: nat)
    ensures LastN(LastN(a, n) + b, n) == LastN(a + b, n)
  {
  }

  lemma EraseFromGrown(snapshot: seq<real>, recent: seq<real>, e: nat)
    requires |snapshot| <= MAX_BUFFER
    ensures Committed(LastN(snapshot + recent, MAX_BUFFER), Erase(e)) == Committed(snapshot, Erase(e)) + recent <==>
      |snapshot| + |recent| <= MAX_BUFFER && (e <= |snapshot| || recent == [])
  {
    var left, wanted := Committed(LastN(snapshot + recent, MAX_BUFFER), Erase(e)), Committed(snapshot, Erase(e)) + recent;
    if |snapshot| + |recent| > MAX_BUFFER || (e > |snapshot| && recent != []) {
      assert |left| < |wanted|;
    } else {
      assert left == wanted;
    }
  }

  /**
    A commit of `e` samples decided on a snapshot, applied after more chunks have arrived, leaves
    exactly the uncommitted rest of the snapshot followed by the new audio if and only if nothing
    was trimmed from the head and the count stays inside the snapshot (or nothing arrived).
  */
  lemma CommitAfterAppends(s: State, pcms: seq<seq<real>>, e: nat)
    requires |s.buffer| <= MAX_BUFFER
    ensures s.accepted <= Run(s, Chunks(pcms)).accepted
    ensures var s' := Run(s, Chunks(pcms));
      var recent := Since(s, s');
      Committed(s'.buffer, Erase(e)) == Committed(s.buffer, Erase(e)) + recent <==>
        |s.buffer| + |recent| <= MAX_BUFFER && (e <= |s.buffer| || recent == [])
  {
    AppendsKeepLast(s, pcms);
    EraseFromGrown(s.buffer, Since(s, Run(s, Chunks(pcms))), e);
  }

  lemma ChunkAdds(s: State, pcm: seq<real>)
    requires |s.buffer| < HIGH_WATER_MARK && |s.buffer| + |pcm| <= MAX_BUFFER
    ensures |Chunked(s, pcm).buffer| == |s.buffer| + |pcm|
  {
  }

  lemma RunOfChunk(s: State, pcms: seq<seq<real>>, pcm: seq<real>)
    ensures Run(s, Chunks(pcms + [pcm])) == Chunked(Run(s, Chunks(pcms)), pcm)
  {
    var all := pcms + [pcm];
    assert all[..|all| - 1] == pcms && Chunks(all)[..|pcms|] == Chunks(pcms);
  }

  /**
    The condition matters: with 300000 samples waiting, a frame of a megabyte trims the head, and a
    commit decided before it erases more than it decoded.
  */
  lemma TrimSpoilsCommit(a: seq<real>, b: seq<real>, c: seq<real>)
    requires |a| == 150000 && |b| == 150000 && |c| == 262144
    ensures var s, s' := Run(EMPTY, Chunks([a, b])), Run(Run(EMPTY, Chunks([a, b])), Chunks([c]));
      && |s.buffer| == 300000 && s.accepted <= s'.accepted
      && Committed(s'.buffer, Erase(1600)) != Committed(s.buffer, Erase(1600)) + Since(s, s')
  {
    var s := Run(EMPTY, Chunks([a, b]));
    RunOfChunk(EMPTY, [], a);
    RunOfChunk(EMPTY, [a], b);
    assert [] + [a] == [a] && [a] + [b] == [a, b] && Run(EMPTY, Chunks([])) == EMPTY;
    ChunkAdds(EMPTY, a);
    ChunkAdds(Chunked(EMPTY, a), b);
    RunOfChunk(s, [], c);
    assert [] + [c] == [c] && Run(s, Chunks([])) == s;
    CommitAfterAppends(s, [c], 1600);
    assert |Since(s, Chunked(s, c))| == 262144;
  }

  /** Chunks of at most 10 s cannot trim the head: the high-water mark refuses them first. */
  lemma {:induction false} SmallChunksNeverTrim(s: State, pcms: seq<seq<real>>)
    requires |s.buffer| <= MAX_BUFFER && forall pcm :: pcm in pcms ==> |pcm| <= MAX_BUFFER - HIGH_WATER_MARK
    ensures s.accepted <= Run(s, Chunks(pcms)).accepted
    ensures |s.buffer| + |Since(s, Run(s, Chunks(pcms)))| <= MAX_BUFFER
  {
    AppendsKeepLast(s, pcms);
    if pcms != [] {
      var init := pcms[..|pcms| - 1];
      AppendsKeepLast(s, init);
      SmallChunksNeverTrim(s, init);
      assert Chunks(pcms)[..|pcms| - 1] == Chunks(init);
    }
  }

  /** The raw chunks a run accepts, joined. */
  function AcceptedRaw(s: State, ops: seq<Op>): seq<real> {
    if ops == [] then []
    else
      var init, last := ops[..|ops| - 1], ops[|ops| - 1];
      AcceptedRaw(s, init) +
      if last.Chunk? && |Run(s, init).buffer| < HIGH_WATER_MARK then last.pcm else []
  }

  /**
    In every run of chunks, refusals, commits and resets the filter is where one pass over all accepted
    audio would have left it: neither a refused chunk nor anything done to the buffer disturbs it.
  */
  lemma {:induction false} FilterSeesOneStream(ops: seq<Op>)
    ensures Run(EMPTY, ops).filter == AP.Advance(AP.REST, AcceptedRaw(EMPTY, ops))
    ensures |Run(EMPTY, ops).accepted| == |AcceptedRaw(EMPTY, ops)|
  {
    if ops != [] {
      var init, last := ops[..|ops| - 1], ops[|ops| - 1];
      FilterSeesOneStream(init);
      var s, raw := Run(EMPTY, init), AcceptedRaw(EMPTY, init);
      if last.Chunk? && |s.buffer| < HIGH_WATER_MARK {
        AP.FilterSplits(AP.REST, raw, last.pcm);
      } else {
        assert raw + [] == raw;
      }
    }
  }

  /**
    Whatever a run did before, an accepted chunk is appended as the single pass of the filter over all
    accepted audio leaves it, normalised as a chunk; and a chunk is accepted exactly below 320000
    waiting samples.
  */
  lemma AcceptedIsFilteredStream(ops: seq<Op>, pcm: seq<real>)
    ensures var s, s' := Run(EMPTY, ops), Apply(Run(EMPTY, ops), Chunk(pcm));
      var heard := AP.Filtered(AP.REST, AcceptedRaw(EMPTY, ops) + pcm);
      if |s.buffer| < 320000
      then |heard| == |s.accepted| + |pcm| && s'.accepted == s.accepted + AP.Normalized(heard[|s.accepted|..])
      else s' == s
  {
    var s, raw := Run(EMPTY, ops), AcceptedRaw(EMPTY, ops);
    FilterSeesOneStream(ops);
    AP.FilterSplits(AP.REST, raw, pcm);
    assert AP.Filtered(AP.REST, raw + pcm)[|raw|..] == AP.Filtered(s.filter, pcm);
  }

  /** A reset leaves the last `keep` samples; asked for none, or for all there are, it leaves none. */
  lemma ResetKeepsLast(buffer: seq<real>, keep: nat)
    ensures IsSuffix(Kept(buffer, keep), buffer)
    ensures |Kept(buffer, keep)| == if keep < |buffer| then keep else 0
  {
    if 0 < keep < |buffer| {
      assert buffer[|buffer| - |Kept(buffer, keep)|..] == Kept(buffer, keep);
    }
  }

  // ---------------------------------------------------------------- choosing what to commit

  function OverlapBound(decodedSize: int): int {
    TruncDiv(decodedSize - OVERLAP, VG.SAMPLES_PER_CS)
  }

  datatype Choice = Choice(index: int, t1: int)

  const NO_CHOICE := Choice(-1, 0)

  predicate AllEndAtOrPast(segs: seq<Segment>, from: int, bound: int)
    requires 0 <= from
  {
    forall j :: from <= j < |segs| ==> segs[j].t1 >= bound
  }

  /** Which segments to commit, and up to what time (0 for a forced commit). */
  method ChooseCommit(segs: seq<Segment>, force: bool, decodedSize: int) returns (c: Choice)
    ensures -1 <= c.index < |segs|
    ensures c == Chosen(segs, force, decodedSize)
    ensures force ==> c == Choice(|segs| - 1, 0)
    ensures !force && !AllEndAtOrPast(segs, 0, OverlapBound(decodedSize)) ==>
      c.index >= 0 && c.t1 == segs[c.index].t1 < OverlapBound(decodedSize)
      && AllEndAtOrPast(segs, c.index + 1, OverlapBound(decodedSize))
    ensures !force && AllEndAtOrPast(segs, 0, OverlapBound(decodedSize)) ==>
      c == if |segs| > 1 then Choice(|segs| - 2, segs[|segs| - 2].t1) else NO_CHOICE
  {
    c := NO_CHOICE;
    if force {
      return Choice(|segs| - 1, 0);
    }
    var bound := OverlapBound(decodedSize);
    var i := |segs| - 1;
    while i >= 0
      invariant -1 <= i < |segs|
      invariant AllEndAtOrPast(segs, i + 1, bound)
      invariant LastBefore(segs, bound, |segs|) == LastBefore(segs, bound, i + 1)
    {
      if segs[i].t1 < bound {
        return Choice(i, segs[i].t1);
      }
      i := i - 1;
    }
    if |segs| > 1 {
      c := Choice(|segs| - 2, segs[|segs| - 2].t1);
    }
  }

  /** Largest index below `n` whose segment ends before `bound`, or -1. */
  function LastBefore(segs: seq<Segment>, bound: int, n: nat): (i: int)
    requires n <= |segs|
    ensures -1 <= i < n
  {
    if n == 0 then -1 else if segs[n - 1].t1 < bound then n - 1 else LastBefore(segs, bound, n - 1)
  }

  function Chosen(segs: seq<Segment>, force: bool, decodedSize: int): (c: Choice)
    ensures -1 <= c.index < |segs|
  {
    if force then Choice(|segs| - 1, 0)
    else
      var i := LastBefore(segs, OverlapBound(decodedSize), |segs|);
      if i >= 0 then Choice(i, segs[i].t1)
      else if |segs| > 1 then Choice(|segs| - 2, segs[|segs| - 2].t1)
      else NO_CHOICE
  }

  function Texts(segs: seq<Segment>): string {
    if segs == [] then ""
    else
      var last := segs[|segs| - 1].text;
      Texts(segs[..|segs| - 1]) + if last.Some? then last.value else ""
  }

  method JoinTexts(segs: seq<Segment>, from: nat, to: nat) returns (text: string)
    requires from <= to <= |segs|
    ensures text == Texts(segs[from..to])
  {
    text := "";
    for i := from to to
      invariant text == Texts(segs[from..i])
    {
      assert segs[from..i + 1][..i - from] == segs[from..i];
      if segs[i].text.Some? {
        text := text + segs[i].text.value;
      }
    }
  }

  method ChooseAndSplit(segs: seq<Segment>, force: bool, snapshotSize: nat, decodedSize: nat)
    returns (c: Choice, texts: Transcript)
    ensures c == if force || snapshotSize >= MAX_WINDOW then Chosen(segs, force, decodedSize) else NO_CHOICE
    ensures -1 <= c.index < |segs| && texts == Transcript(Texts(segs[..c.index + 1]), Texts(segs[c.index + 1..]))
  {
    c := NO_CHOICE;
    if force || snapshotSize >= MAX_WINDOW {
      c := ChooseCommit(segs, force, decodedSize);
    }
    texts := SplitTexts(segs, c.index + 1);
  }

  method SplitTexts(segs: seq<Segment>, k: nat) returns (texts: Transcript)
    requires k <= |segs|
    ensures texts == Transcript(Texts(segs[..k]), Texts(segs[k..]))
  {
    assert segs[0..k] == segs[..k] && segs[k..|segs|] == segs[k..];
    var committed := JoinTexts(segs, 0, k);
    var partial := JoinTexts(segs, k, |segs|);
    texts := Transcript(committed, partial);
  }

  lemma {:induction false} TextsConcat(a: seq<Segment>, b: seq<Segment>)
    ensures Texts(a + b) == Texts(a) + Texts(b)
    decreases |b|
  {
    if b == [] {
      assert a + b == a;
    } else {
      assert (a + b)[..|a + b| - 1] == a + b[..|b| - 1];
      TextsConcat(a, b[..|b| - 1]);
    }
  }

  // ---------------------------------------------------------------- one pass, on a snapshot

  /** Everything the environment decides during a pass. */
  datatype Pass = Pass(vad: VG.VadOutcome, decode: DecodeOutcome)

  /** Padding of the silence gate, if there is one. */
  type Gating = Option<int>

  predicate Silent(gating: Gating, snapshot: seq<real>, vad: VG.VadOutcome) {
    gating.Some? && VG.MappingAfter(snapshot, vad, gating.value) == []
  }

  function DecodedSize(gating: Gating, snapshot: seq<real>, vad: VG.VadOutcome): nat {
    if gating.Some? then |VG.SamplesAfter(snapshot, vad, gating.value)| else |snapshot|
  }

  /** Original samples that a commit up to time `t1` of the decoded buffer covers. */
  function SamplesToErase(gating: Gating, snapshot: seq<real>, vad: VG.VadOutcome, t1: int): int {
    var g := t1 * VG.SAMPLES_PER_CS;
    if gating.Some? then VG.MapBack(VG.MappingAfter(snapshot, vad, gating.value), g, |snapshot|) else g
  }

  /** The pass reaches the decoder and the decoder answers. */
  predicate Reaches(gating: Gating, snapshot: seq<real>, pass: Pass) {
    && snapshot != [] && pass.decode.Decoded?
    && (gating.Some? ==> pass.vad.Detected?) && !Silent(gating, snapshot, pass.vad)
  }

  function OutcomeOf(gating: Gating, snapshot: seq<real>, pass: Pass, force: bool): Outcome {
    if snapshot == [] then Done(NOTHING)
    else if gating.Some? && !pass.vad.Detected? then Threw
    else if Silent(gating, snapshot, pass.vad) then Done(NOTHING)
    else if pass.decode.DecodeFailed? then Threw
    else
      var segs := pass.decode.segments;
      var c := ChoiceOf(gating, snapshot, pass, force);
      Done(Transcript(Texts(segs[..c.index + 1]), Texts(segs[c.index + 1..])))
  }

  /** No commit before the window is full, unless forced. */
  function ChoiceOf(gating: Gating, snapshot: seq<real>, pass: Pass, force: bool): (c: Choice)
    requires pass.decode.Decoded?
    ensures -1 <= c.index < |pass.decode.segments|
  {
    if force || |snapshot| >= MAX_WINDOW
    then Chosen(pass.decode.segments, force, DecodedSize(gating, snapshot, pass.vad))
    else NO_CHOICE
  }

  function ActionOf(gating: Gating, snapshot: seq<real>, pass: Pass, force: bool): Action {
    if !Reaches(gating, snapshot, pass) then Keep
    else ActionFor(gating, snapshot, pass.vad, ChoiceOf(gating, snapshot, pass, force), force)
  }

  function ActionFor(gating: Gating, snapshot: seq<real>, vad: VG.VadOutcome, c: Choice, force: bool): Action {
    if c.index < 0 then Keep
    else if c.t1 > 0 then
      EraseCountInRange(gating, snapshot, vad, c.t1);
      Erase(SamplesToErase(gating, snapshot, vad, c.t1))
    else if force then Clear
    else Keep
  }

  lemma GateMapsInside(snapshot: seq<real>, vad: VG.VadOutcome, pad: int, g: int)
    ensures VG.WellFormed(VG.MappingAfter(snapshot, vad, pad), |snapshot|)
    ensures 0 <= VG.MapBack(VG.MappingAfter(snapshot, vad, pad), g, |snapshot|) <= |snapshot|
  {
    if vad.Detected? && snapshot != [] {
      var ivs := VG.PaddedAll(vad.segments, pad, |snapshot|);
      VG.KeptIsOrdered(ivs, |snapshot|);
      VG.LayoutIsWellFormed(VG.Kept(ivs), |snapshot|);
    }
    VG.MapBackAt(VG.MappingAfter(snapshot, vad, pad), g, |snapshot|);
  }

  /** The erase count is never negative, and with a gate it never leaves the snapshot. */
  lemma EraseCountInRange(gating: Gating, snapshot: seq<real>, vad: VG.VadOutcome, t1: int)
    requires t1 > 0
    ensures 0 <= SamplesToErase(gating, snapshot, vad, t1)
    ensures gating.Some? ==> SamplesToErase(gating, snapshot, vad, t1) <= |snapshot|
  {
    if gating.Some? {
      GateMapsInside(snapshot, vad, gating.value, t1 * VG.SAMPLES_PER_CS);
    }
  }

  lemma ReachedPass(gating: Gating, snapshot: seq<real>, pass: Pass, force: bool, c: Choice)
    requires Reaches(gating, snapshot, pass) && c == ChoiceOf(gating, snapshot, pass, force)
    ensures OutcomeOf(gating, snapshot, pass, force) ==
      Done(Transcript(Texts(pass.decode.segments[..c.index + 1]), Texts(pass.decode.segments[c.index + 1..])))
    ensures ActionOf(gating, snapshot, pass, force) == ActionFor(gating, snapshot, pass.vad, c, force)
  {
  }

  // ---------------------------------------------------------------- what a pass promises

  /** Whatever is committed and whatever stays in flight, together they are everything decoded. */
  lemma NoTextLost(gating: Gating, snapshot: seq<real>, pass: Pass, force: bool)
    requires Reaches(gating, snapshot, pass)
    ensures var o := OutcomeOf(gating, snapshot, pass, force);
      o.Done? && o.result.committed + o.result.partial == Texts(pass.decode.segments)
  {
    var segs, c := pass.decode.segments, ChoiceOf(gating, snapshot, pass, force);
    TextsConcat(segs[..c.index + 1], segs[c.index + 1..]);
    assert segs[..c.index + 1] + segs[c.index + 1..] == segs;
  }

  /** When a pass gets an answer from the decoder: the gate, if there is one, must hear something. */
  lemma ReachesExactlyIf(gating: Gating, snapshot: seq<real>, pass: Pass)
    ensures Reaches(gating, snapshot, pass) <==>
      snapshot != [] && pass.decode.Decoded? && (gating.None? || GateHears(gating.value, snapshot, pass.vad))
    ensures OutcomeOf(gating, snapshot, pass, false).Threw? == OutcomeOf(gating, snapshot, pass, true).Threw?
    ensures OutcomeOf(gating, snapshot, pass, false).Threw? <==>
      snapshot != [] && ((gating.Some? && !pass.vad.Detected?) ||
        (pass.decode.DecodeFailed? && (gating.None? || GateHears(gating.value, snapshot, pass.vad))))
    ensures !Reaches(gating, snapshot, pass) ==> forall force ::
      var o := OutcomeOf(gating, snapshot, pass, force); o.Threw? || o == Done(Transcript("", ""))
  {
    if snapshot != [] && pass.vad.Detected? {
      HearsExactlyIf(gating, snapshot, pass.vad);
    }
  }

  lemma HearsExactlyIf(gating: Gating, snapshot: seq<real>, vad: VG.VadOutcome)
    requires snapshot != [] && vad.Detected?
    ensures Silent(gating, snapshot, vad) <==> gating.Some? && !GateHears(gating.value, snapshot, vad)
  {
    if gating.Some? {
      VG.MappingIsOfSpeech(vad.segments, gating.value, |snapshot|);
    }
  }

  ghost predicate GateHears(pad: int, snapshot: seq<real>, vad: VG.VadOutcome) {
    vad.Detected? && exists x :: VG.Heard(vad.segments, pad, |snapshot|, x)
  }

  /** The time lies before the last two seconds of `size` decoded samples; division rounds to zero. */
  predicate EndsEarly(t1: int, size: nat) {
    if size >= 32000 then 160 * (t1 + 1) <= size - 32000 else 160 * t1 < size - 32000
  }

  lemma BoundIsTwoSecondsBack(t1: int, size: nat)
    ensures t1 < OverlapBound(size) <==> EndsEarly(t1, size)
  {
  }

  predicate NoneEndsEarly(segs: seq<Segment>, from: nat, size: nat) {
    forall j :: from <= j < |segs| ==> !EndsEarly(segs[j].t1, size)
  }

  /**
    A pass commits if and only if it is forced, or ten seconds are there and there is a segment to
    spare; it commits up to the last segment that ends before the last two seconds of what was decoded,
    or else all but the last, and up to the end if forced.
  */
  lemma CommitsExactlyIf(gating: Gating, snapshot: seq<real>, pass: Pass, force: bool, size: nat)
    requires Reaches(gating, snapshot, pass)
    requires size == if gating.Some? then |VG.SamplesAfter(snapshot, pass.vad, gating.value)| else |snapshot|
    ensures var segs, k := pass.decode.segments, ChoiceOf(gating, snapshot, pass, force).index;
      && (k >= 0 <==> segs != [] && (force || (|snapshot| >= 160000 && (|segs| > 1 || EndsEarly(segs[0].t1, size)))))
      && (k >= 0 && force ==> k == |segs| - 1)
      && (k >= 0 && !force ==>
            if NoneEndsEarly(segs, 0, size) then k == |segs| - 2
            else EndsEarly(segs[k].t1, size) && NoneEndsEarly(segs, k + 1, size))
  {
    var segs := pass.decode.segments;
    LastBeforeIsLast(segs, OverlapBound(size), |segs|);
    forall j | 0 <= j < |segs| ensures segs[j].t1 < OverlapBound(size) <==> EndsEarly(segs[j].t1, size) {
      BoundIsTwoSecondsBack(segs[j].t1, size);
    }
  }

  /**
    When some segment ends before the last two seconds, the cut leaves at least 32160 decoded samples,
    and without a gate so many original samples stay.
  */
  lemma OverlapIsKept(gating: Gating, snapshot: seq<real>, pass: Pass, size: nat)
    requires Reaches(gating, snapshot, pass) && |snapshot| >= 160000
    requires size == if gating.Some? then |VG.SamplesAfter(snapshot, pass.vad, gating.value)| else |snapshot|
    requires !NoneEndsEarly(pass.decode.segments, 0, size)
    ensures var c := ChoiceOf(gating, snapshot, pass, false);
      c.index >= 0 && (c.t1 > 0 ==> size - 160 * c.t1 >= 32160)
    ensures gating.None? ==> |Committed(snapshot, ActionOf(gating, snapshot, pass, false))| >= 32160
  {
    var segs := pass.decode.segments;
    LastBeforeIsLast(segs, OverlapBound(size), |segs|);
    forall j | 0 <= j < |segs| ensures segs[j].t1 < OverlapBound(size) <==> EndsEarly(segs[j].t1, size) {
      BoundIsTwoSecondsBack(segs[j].t1, size);
    }
  }

  lemma {:induction false} LastBeforeIsLast(segs: seq<Segment>, bound: int, n: nat)
    requires n <= |segs|
    ensures var i := LastBefore(segs, bound, n);
      && (i >= 0 ==> segs[i].t1 < bound)
      && forall j :: i < j < n ==> segs[j].t1 >= bound
  {
    if n > 0 && segs[n - 1].t1 >= bound {
      LastBeforeIsLast(segs, bound, n - 1);
    }
  }

  /**
    A forced pass empties the buffer exactly if the decoder was reached and returned something, and then
    commits all of its text.
  */
  lemma ForcedPassClears(gating: Gating, snapshot: seq<real>, pass: Pass)
    requires snapshot != []
    ensures Committed(snapshot, ActionOf(gating, snapshot, pass, true)) == [] <==>
      Reaches(gating, snapshot, pass) && pass.decode.segments != []
    ensures Reaches(gating, snapshot, pass) ==>
      OutcomeOf(gating, snapshot, pass, true) == Done(Transcript(Texts(pass.decode.segments), ""))
  {
    if Reaches(gating, snapshot, pass) {
      var segs := pass.decode.segments;
      assert segs[..|segs|] == segs && segs[|segs|..] == [];
    }
  }

  /**
    A pass takes audio out of the buffer if and only if it commits segments and is forced or the last of
    them ends after zero. If it commits them without, another pass with the same answer commits the same
    text again.
  */
  lemma CommitErasesExactlyIf(gating: Gating, snapshot: seq<real>, pass: Pass, force: bool)
    ensures var left := Committed(snapshot, ActionOf(gating, snapshot, pass, force));
      && (left != snapshot <==>
            Reaches(gating, snapshot, pass) && var k := ChoiceOf(gating, snapshot, pass, force).index;
            k >= 0 && (force || pass.decode.segments[k].t1 > 0))
      && (left == snapshot ==> OutcomeOf(gating, left, pass, force) == OutcomeOf(gating, snapshot, pass, force))
  {
    if Reaches(gating, snapshot, pass) {
      var c := ChoiceOf(gating, snapshot, pass, force);
      ReachedPass(gating, snapshot, pass, force, c);
      if c.t1 > 0 {
        PositiveTimeErases(gating, snapshot, pass.vad, c.t1);
      }
    }
  }

  /** Such a pass: ten seconds decoded to one segment that ends at zero. */
  lemma CommitWithoutErasing(buffer: seq<real>, pass: Pass)
    requires |buffer| == MAX_WINDOW && pass.decode == Decoded([Segment(0, Some("a"))])
    ensures OutcomeOf(None, buffer, pass, false) == Done(Transcript("a", ""))
    ensures ActionOf(None, buffer, pass, false) == Keep
  {
    var segs := pass.decode.segments;
    assert LastBefore(segs, 800, 1) == 0;
    assert segs[..1] == segs && segs[1..] == [] && segs[..0] == [];
    assert Texts(segs) == Texts([]) + "a";
  }

  lemma PositiveTimeErases(gating: Gating, snapshot: seq<real>, vad: VG.VadOutcome, t1: int)
    requires snapshot != [] && t1 > 0 && !Silent(gating, snapshot, vad)
    ensures SamplesToErase(gating, snapshot, vad, t1) > 0
  {
    if gating.Some? {
      var mapping, g := VG.MappingAfter(snapshot, vad, gating.value), t1 * VG.SAMPLES_PER_CS;
      GateMapsInside(snapshot, vad, gating.value, g);
      VG.PositiveMapsToPositive(mapping, g, |snapshot|);
    }
  }

  /** What a pass will do that has chosen to commit up to segment `k`, which ends after zero. */
  lemma ChosenIsErased(gating: Gating, snapshot: seq<real>, pass: Pass, k: nat, e: int)
    requires Reaches(gating, snapshot, pass) && ChoiceOf(gating, snapshot, pass, false).index == k
    requires pass.decode.segments[k].t1 > 0
    requires e == SamplesToErase(gating, snapshot, pass.vad, pass.decode.segments[k].t1)
    ensures 0 <= e && (gating.Some? ==> e <= |snapshot|)
    ensures ActionOf(gating, snapshot, pass, false) == Erase(e)
    ensures OutcomeOf(gating, snapshot, pass, false) ==
      Done(Transcript(Texts(pass.decode.segments[..k + 1]), Texts(pass.decode.segments[k + 1..])))
  {
    EraseCountInRange(gating, snapshot, pass.vad, pass.decode.segments[k].t1);
    ReachedPass(gating, snapshot, pass, false, ChoiceOf(gating, snapshot, pass, false));
  }

  /**
    Of the kept samples the first `n` of the original are those whose place in the gated buffer is
    before `g`; the last one is kept, unless a region begins at `g`: then they end where it begins.
  */
  ghost predicate CutsAt(mapping: seq<VG.SegmentMapping>, n: int, g: int) {
    && (forall i, h :: VG.InRegionOf(mapping, i, h) ==> (VG.OriginalOf(mapping, i, h) < n <==> h < g))
    && (VG.Mapped(mapping, n - 1) || VG.BeginsAt(mapping, g, n))
    && (forall x :: VG.BeginsAt(mapping, g, x) ==> n == x)
  }

  lemma ImageCuts(mapping: seq<VG.SegmentMapping>, g: int, total: nat, n: int)
    requires VG.WellFormed(mapping, total) && mapping != [] && g > 0 && n == VG.MapBack(mapping, g, total)
    ensures CutsAt(mapping, n, g)
  {
    forall i, h | VG.InRegionOf(mapping, i, h) ensures VG.OriginalOf(mapping, i, h) < n <==> h < g {
      VG.CutsAgree(mapping, g, total, i, h);
    }
    VG.ImageIsAtRegion(mapping, g, total);
  }

  lemma MappedBackIsCut(snapshot: seq<real>, vad: VG.VadOutcome, pad: int, g: int, n: int)
    requires VG.MappingAfter(snapshot, vad, pad) != [] && g > 0
    requires n == VG.MapBack(VG.MappingAfter(snapshot, vad, pad), g, |snapshot|)
    ensures CutsAt(VG.MappingAfter(snapshot, vad, pad), n, g)
  {
    GateMapsInside(snapshot, vad, pad, g);
    ImageCuts(VG.MappingAfter(snapshot, vad, pad), g, |snapshot|, n);
  }

  /**
    End to end through gate and map, small chunks arriving meanwhile: a pass that commits up to segment
    `k` tells exactly the texts up to it and takes exactly `n` samples of the snapshot, up to the last
    kept one whose place in the gated buffer is before the segment's end; the rest of the snapshot and
    everything accepted since stay; and what was not kept by the gate was never decoded.
  */
  lemma CommitSafety(s: State, pcms: seq<seq<real>>, pad: int, pass: Pass, k: nat) returns (n: nat)
    requires |s.buffer| <= 480000 && forall pcm :: pcm in pcms ==> |pcm| <= 160000
    requires Reaches(Some(pad), s.buffer, pass) && ChoiceOf(Some(pad), s.buffer, pass, false).index == k
    requires pass.decode.segments[k].t1 > 0
    ensures n <= |s.buffer| && s.accepted <= Run(s, Chunks(pcms)).accepted
    ensures Committed(Run(s, Chunks(pcms)).buffer, ActionOf(Some(pad), s.buffer, pass, false)) ==
      s.buffer[n..] + Since(s, Run(s, Chunks(pcms)))
    ensures CutsAt(VG.MappingAfter(s.buffer, pass.vad, pad), n, 160 * pass.decode.segments[k].t1)
    ensures OutcomeOf(Some(pad), s.buffer, pass, false) ==
      Done(Transcript(Texts(pass.decode.segments[..k + 1]), Texts(pass.decode.segments[k + 1..])))
    ensures forall x :: 0 <= x < |s.buffer| && !VG.Mapped(VG.MappingAfter(s.buffer, pass.vad, pad), x) ==>
      NeverDecoded(s.buffer, pass.vad, pad, x)
  {
    EraseCountInRange(Some(pad), s.buffer, pass.vad, pass.decode.segments[k].t1);
    n := SamplesToErase(Some(pad), s.buffer, pass.vad, pass.decode.segments[k].t1);
    ChosenIsErased(Some(pad), s.buffer, pass, k, n);
    MappedBackIsCut(s.buffer, pass.vad, pad, 160 * pass.decode.segments[k].t1, n);
    SmallChunksNeverTrim(s, pcms);
    CommitAfterAppends(s, pcms, n);
    UnmappedAreNeverDecoded(s.buffer, pass.vad, pad);
  }

  lemma UnmappedAreNeverDecoded(snapshot: seq<real>, vad: VG.VadOutcome, pad: int)
    requires vad.Detected? && snapshot != []
    ensures forall x :: 0 <= x < |snapshot| && !VG.Mapped(VG.MappingAfter(snapshot, vad, pad), x) ==>
      NeverDecoded(snapshot, vad, pad, x)
  {
    forall x | 0 <= x < |snapshot| && !VG.Mapped(VG.MappingAfter(snapshot, vad, pad), x)
      ensures NeverDecoded(snapshot, vad, pad, x)
    {
      UnmappedIsNeverDecoded(snapshot, vad, pad, x);
    }
  }

  /** Without a gate the cut is at the segment's end, or at the end of the buffer if that comes first. */
  lemma UngatedCommitSafety(s: State, pcms: seq<seq<real>>, pass: Pass, k: nat)
    requires |s.buffer| <= 480000 && forall pcm :: pcm in pcms ==> |pcm| <= 160000
    requires Reaches(None, s.buffer, pass) && ChoiceOf(None, s.buffer, pass, false).index == k
    requires pass.decode.segments[k].t1 > 0
    ensures s.accepted <= Run(s, Chunks(pcms)).accepted
    ensures var all, e := s.buffer + Since(s, Run(s, Chunks(pcms))), 160 * pass.decode.segments[k].t1;
      Committed(Run(s, Chunks(pcms)).buffer, ActionOf(None, s.buffer, pass, false)) == all[VG.Min(e, |all|)..]
    ensures OutcomeOf(None, s.buffer, pass, false) ==
      Done(Transcript(Texts(pass.decode.segments[..k + 1]), Texts(pass.decode.segments[k + 1..])))
  {
    ChosenIsErased(None, s.buffer, pass, k, 160 * pass.decode.segments[k].t1);
    SmallChunksNeverTrim(s, pcms);
    AppendsKeepLast(s, pcms);
  }

  /** Every sample handed to the decoder is gap silence or a copy of an original sample other than `x`. */
  ghost predicate NeverDecoded(snapshot: seq<real>, vad: VG.VadOutcome, pad: int, x: int) {
    forall g :: 0 <= g < |VG.SamplesAfter(snapshot, vad, pad)| ==> DecodedWithout(snapshot, vad, pad, g, x)
  }

  ghost predicate DecodedWithout(snapshot: seq<real>, vad: VG.VadOutcome, pad: int, g: nat, x: int)
    requires g < |VG.SamplesAfter(snapshot, vad, pad)|
  {
    var samples, mapping := VG.SamplesAfter(snapshot, vad, pad), VG.MappingAfter(snapshot, vad, pad);
    if VG.InRegion(mapping, g) then
      exists i :: VG.InRegionOf(mapping, i, g) && 0 <= VG.OriginalOf(mapping, i, g) < |snapshot|
        && VG.OriginalOf(mapping, i, g) != x && samples[g] == snapshot[VG.OriginalOf(mapping, i, g)]
    else samples[g] == 0.0
  }

  lemma UnmappedIsNeverDecoded(snapshot: seq<real>, vad: VG.VadOutcome, pad: int, x: int)
    requires vad.Detected? && snapshot != [] && !VG.Mapped(VG.MappingAfter(snapshot, vad, pad), x)
    ensures NeverDecoded(snapshot, vad, pad, x)
  {
    var kept := VG.Kept(VG.PaddedAll(vad.segments, pad, |snapshot|));
    VG.KeptIsOrdered(VG.PaddedAll(vad.segments, pad, |snapshot|), |snapshot|);
    VG.LayoutIsWellFormed(kept, |snapshot|);
    VG.RecordsCovers(VG.Layout(kept), kept, x);
    UncoveredIsNeverDecoded(snapshot, vad, pad, x);
  }

  lemma UncoveredIsNeverDecoded(snapshot: seq<real>, vad: VG.VadOutcome, pad: int, x: int)
    requires vad.Detected? && snapshot != []
    requires !VG.Covers(VG.Kept(VG.PaddedAll(vad.segments, pad, |snapshot|)), x)
    ensures NeverDecoded(snapshot, vad, pad, x)
  {
    if vad.segments != [] {
      forall g: nat | g < |VG.SamplesAfter(snapshot, vad, pad)| ensures DecodedWithout(snapshot, vad, pad, g, x) {
        VG.DecodedIsKeptOrSilence(snapshot, vad.segments, pad, g);
      }
    }
  }

  /** Over the limit the oldest samples go, first from the buffer, then from the chunk. */
  method AppendTrimmed(buffer: seq<real>, prepped: seq<real>) returns (appended: seq<real>)
    ensures appended == Appended(buffer, prepped)
  {
    var newTotal, size := |buffer| + |prepped|, |prepped|;
    if newTotal > MAX_BUFFER {
      if size >= MAX_BUFFER {
        appended := prepped[size - MAX_BUFFER..];
      } else {
        appended := buffer[newTotal - MAX_BUFFER..] + prepped;
      }
    } else {
      appended := buffer + prepped;
    }
  }

  class Engine {
    const vadGate: VG.Gate?
    var audioBuffer: seq<real>
    var hpPrevRaw: real
    var hpPrevFiltered: real
    ghost var accepted: seq<real>

    ghost function View(): State
      reads this
    {
      State(audioBuffer, AP.FilterState(hpPrevRaw, hpPrevFiltered), accepted)
    }

    ghost predicate Valid()
      reads this
    {
      Inv(View())
    }

    function GatingOf(): Gating {
      if vadGate == null then None else Some(vadGate.Pad())
    }

    constructor (vadGate: VG.Gate?)
      ensures View() == EMPTY && Valid() && this.vadGate == vadGate
    {
      this.vadGate := vadGate;
      audioBuffer, hpPrevRaw, hpPrevFiltered, accepted := [], 0.0, 0.0, [];
    }

    method GetBufferSize() returns (n: nat)
      ensures n == |audioBuffer|
    {
      n := |audioBuffer|;
    }

    /** True if the chunk was refused. */
    method ProcessAudioChunk(pcm: seq<real>) returns (dropped: bool)
      requires Valid()
      modifies this
      ensures Valid() && View() == Apply(old(View()), Chunk(pcm))
      ensures dropped <==> old(|audioBuffer|) >= HIGH_WATER_MARK
      ensures |audioBuffer| >= old(|audioBuffer|)
    {
      ghost var before := View();
      StepKeepsInv(before, Chunk(pcm));
      if |audioBuffer| >= HIGH_WATER_MARK {
        return true;
      }
      var prepped := Preprocess(pcm);
      audioBuffer := AppendTrimmed(audioBuffer, prepped);
      accepted := accepted + prepped;
      return false;
    }

    /** Filters and normalises a copy of the chunk, carrying the filter state on. */
    method Preprocess(pcm: seq<real>) returns (prepped: seq<real>)
      modifies this`hpPrevRaw, this`hpPrevFiltered
      ensures prepped == AP.Prepared(old(View()).filter, pcm)
      ensures View().filter == AP.Advance(old(View()).filter, pcm)
    {
      var copy := new real[|pcm|](i requires 0 <= i < |pcm| => pcm[i]);
      assert copy[..] == pcm;
      hpPrevRaw, hpPrevFiltered := AP.Process(copy, hpPrevRaw, hpPrevFiltered);
      prepped := copy[..];
    }

    /** With nobody interfering: snapshot, gate, decode, choose, erase. */
    method TranscribeSlidingWindow(force: bool, pass: Pass) returns (o: Outcome)
      requires Valid()
      modifies this, if vadGate == null then {} else {vadGate as object}
      ensures Valid()
      ensures o == OutcomeOf(GatingOf(), old(audioBuffer), pass, force)
      ensures View() == Apply(old(View()), Commit(ActionOf(GatingOf(), old(audioBuffer), pass, force)))
    {
      if audioBuffer == [] {
        return Done(NOTHING);
      }
      var snapshot := audioBuffer;
      var decodedSize := |snapshot|;
      if vadGate != null {
        var gated := vadGate.Cut(snapshot, pass.vad);
        if gated.Threw? {
          return Threw;
        }
        if !gated.result.hadSpeech {
          return Done(NOTHING);
        }
        decodedSize := |gated.result.samples|;
      }
      if pass.decode.DecodeFailed? {
        return Threw;
      }
      o := FinishPass(force, pass.decode.segments, snapshot, decodedSize, pass);
    }

    /** From the decoded segments on. `snapshot` is only asked for its size. */
    method FinishPass(force: bool, segs: seq<Segment>, snapshot: seq<real>, decodedSize: nat, ghost pass: Pass)
      returns (o: Outcome)
      requires Valid() && Reaches(GatingOf(), snapshot, pass) && segs == pass.decode.segments
      requires decodedSize == DecodedSize(GatingOf(), snapshot, pass.vad)
      requires vadGate != null ==>
        vadGate.mapping == VG.MappingAfter(snapshot, pass.vad, vadGate.Pad()) && vadGate.originalTotalSamples == |snapshot|
      modifies this
      ensures Valid()
      ensures o == OutcomeOf(GatingOf(), snapshot, pass, force)
      ensures View() == Apply(old(View()), Commit(ActionOf(GatingOf(), snapshot, pass, force)))
    {
      var c, texts := ChooseAndSplit(segs, force, |snapshot|, decodedSize);
      ReachedPass(GatingOf(), snapshot, pass, force, c);
      o := Done(texts);
      EraseCommitted(c, force, snapshot, pass.vad);
    }

    /** The second critical section: the buffer may have grown since the snapshot. */
    method EraseCommitted(c: Choice, force: bool, ghost snapshot: seq<real>, ghost vad: VG.VadOutcome)
      requires Valid()
      requires vadGate != null ==>
        vadGate.mapping == VG.MappingAfter(snapshot, vad, vadGate.Pad()) && vadGate.originalTotalSamples == |snapshot|
      modifies this
      ensures Valid()
      ensures View() == Apply(old(View()), Commit(ActionFor(GatingOf(), snapshot, vad, c, force)))
    {
      StepKeepsInv(View(), Commit(ActionFor(GatingOf(), snapshot, vad, c, force)));
      if c.index >= 0 {
        if c.t1 > 0 {
          EraseCountInRange(GatingOf(), snapshot, vad, c.t1);
          var samplesToErase := c.t1 * VG.SAMPLES_PER_CS;
          if vadGate != null {
            samplesToErase := vadGate.ToOriginalSamples(c.t1);
          }
          if samplesToErase < |audioBuffer| {
            audioBuffer := audioBuffer[samplesToErase..];
          } else {
            audioBuffer := [];
          }
        } else if force {
          audioBuffer := [];
        }
      }
    }

    method Reset(keep: nat)
      requires Valid()
      modifies this
      ensures Valid() && View() == Apply(old(View()), Op.Reset(keep))
    {
      StepKeepsInv(View(), Op.Reset(keep));
      if keep == 0 || keep >= |audioBuffer| {
        audioBuffer := [];
      } else {
        audioBuffer := audioBuffer[|audioBuffer| - keep..];
      }
    }
  }
}
