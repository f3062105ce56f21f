/**
  Silence gate and its inverse map (src/whisper/VadGate.cpp).

  `Gate.Cut` copies the speech regions of a buffer into a shorter one, separated by short zero
  gaps, and records where each region came from; `ToOriginalSamples` maps a time of the shorter
  buffer back. The voice-activity model is foreign: its outcome is an argument.
*/
module VadGate {

  const SAMPLE_RATE := 16000
  const GAP := 1600            // 100 ms of synthetic silence
  const SAMPLES_PER_CS := 160  // 1 centisecond at 16 kHz

  /** Boundaries as the model reports them, in (fractional) centiseconds. */
  datatype VadSegment = VadSegment(t0: real, t1: real)

  datatype VadOutcome = LoadFailed | RunFailed | Detected(segments: seq<VadSegment>)

  /** One kept region; all fields are sample offsets. */
  datatype SegmentMapping = SegmentMapping(gatedStart: int, gatedEnd: int, originalStart: int, originalEnd: int)

  datatype GatedResult = GatedResult(samples: seq<real>, hadSpeech: bool)

  datatype GateOutcome = Threw | Gated(result: GatedResult)

  datatype Interval = Interval(start: int, end: int)

  // ---------------------------------------------------------------- which audio is kept

  function Max(a: int, b: int): int { if a < b then b else a }
  function Min(a: int, b: int): int { if a < b then a else b }

  /** C's `lround`: nearest integer, halves away from zero. */
  function Lround(x: real): int {
    if x < 0.0 then -((0.5 - x).Floor) else (x + 0.5).Floor
  }

  function CsToSamples(cs: real, total: nat): (v: int)
    ensures 0 <= v <= total
  {
    Min(Max(Lround(cs / 100.0 * 16000.0), 0), total)
  }

  /** A detected segment with its padding, clamped to the buffer. May be empty. */
  function Padded(seg: VadSegment, pad: int, total: nat): Interval {
    Interval(Max(0, CsToSamples(seg.t0, total) - pad), Min(total, CsToSamples(seg.t1, total) + pad))
  }

  function PaddedAll(segs: seq<VadSegment>, pad: int, total: nat): (ivs: seq<Interval>)
    ensures |ivs| == |segs| && Clamped(ivs, total)
  {
    if segs == [] then [] else PaddedAll(segs[..|segs| - 1], pad, total) + [Padded(segs[|segs| - 1], pad, total)]
  }

  lemma {:induction false} PaddedAllAt(segs: seq<VadSegment>, pad: int, total: nat, i: nat)
    requires i < |segs|
    ensures PaddedAll(segs, pad, total)[i] == Padded(segs[i], pad, total)
  {
    if i < |segs| - 1 {
      PaddedAllAt(segs[..|segs| - 1], pad, total, i);
    }
  }

  /** `v`, moved into [0, total]. */
  function Clip(v: real, total: nat): real {
    if v < 0.0 then 0.0 else if v > total as real then total as real else v
  }

  /**
    Sample `x` of the buffer is no more than `pad` samples (and half of one, for the rounding) away from
    the detected segment; at 16 kHz a centisecond is 160 samples.
  */
  predicate Near(seg: VadSegment, pad: int, total: nat, x: int) {
    && 0 <= x < total
    && Clip(160.0 * seg.t0, total) < (x + pad) as real + 0.5
    && (x - pad) as real + 0.5 <= Clip(160.0 * seg.t1, total)
  }

  lemma RoundedIsNearest(cs: real, total: nat, n: int)
    ensures n <= CsToSamples(cs, total) <==> n as real <= Clip(160.0 * cs, total) + 0.5
  {
    var v := Clip(160.0 * cs, total);
    assert CsToSamples(cs, total) == (v + 0.5).Floor;
  }

  /** Padding widens a segment on both sides, by `pad` samples, as far as the buffer goes. */
  lemma PaddedIsNear(seg: VadSegment, pad: int, total: nat, x: int)
    ensures Padded(seg, pad, total).start <= x < Padded(seg, pad, total).end <==> Near(seg, pad, total, x)
  {
    RoundedIsNearest(seg.t0, total, x + pad + 1);
    RoundedIsNearest(seg.t1, total, x - pad + 1);
  }

  /** Some detected segment is near. */
  predicate Heard(segs: seq<VadSegment>, pad: int, total: nat, x: int) {
    exists i :: 0 <= i < |segs| && Near(segs[i], pad, total, x)
  }

  lemma CoveredIsHeard(segs: seq<VadSegment>, pad: int, total: nat, x: int)
    ensures Covers(PaddedAll(segs, pad, total), x) <==> Heard(segs, pad, total, x)
  {
    var ivs := PaddedAll(segs, pad, total);
    forall i | 0 <= i < |segs| ensures ivs[i].start <= x < ivs[i].end <==> Near(segs[i], pad, total, x) {
      PaddedAllAt(segs, pad, total, i);
      PaddedIsNear(segs[i], pad, total, x);
    }
  }

  predicate Clamped(ivs: seq<Interval>, total: int) {
    forall i :: 0 <= i < |ivs| ==> 0 <= ivs[i].start && ivs[i].end <= total
  }

  function LastEnd(kept: seq<Interval>): int {
    if kept == [] then 0 else kept[|kept| - 1].end
  }

  /** The regions kept so far, after one more segment: what is left of it past the last region. */
  function Extend(kept: seq<Interval>, iv: Interval): seq<Interval> {
    var start := Max(iv.start, LastEnd(kept));
    if iv.end <= start then kept else kept + [Interval(start, iv.end)]
  }

  function Kept(ivs: seq<Interval>): seq<Interval> {
    if ivs == [] then [] else Extend(Kept(ivs[..|ivs| - 1]), ivs[|ivs| - 1])
  }

  predicate Ordered(kept: seq<Interval>, total: int) {
    && (forall i :: 0 <= i < |kept| ==> 0 <= kept[i].start < kept[i].end <= total)
    && (forall i, j :: 0 <= i < j < |kept| ==> kept[i].end <= kept[j].start)
  }

  predicate Covers(ivs: seq<Interval>, x: int) {
    exists i :: 0 <= i < |ivs| && ivs[i].start <= x < ivs[i].end
  }

  lemma {:induction false} KeptIsOrdered(ivs: seq<Interval>, total: nat)
    requires Clamped(ivs, total)
    ensures Ordered(Kept(ivs), total)
  {
    if ivs != [] {
      KeptIsOrdered(ivs[..|ivs| - 1], total);
    }
  }

  lemma CoversMore(ivs: seq<Interval>, iv: Interval, x: int)
    ensures Covers(ivs + [iv], x) <==> Covers(ivs, x) || iv.start <= x < iv.end
  {
    var all := ivs + [iv];
    if Covers(ivs, x) {
      var i :| 0 <= i < |ivs| && ivs[i].start <= x < ivs[i].end;
      assert all[i] == ivs[i];
    }
    if iv.start <= x < iv.end {
      assert all[|ivs|] == iv;
    }
  }

  /** What one more interval adds to the covered samples, given how the last region ends. */
  lemma ExtendCovers(kept: seq<Interval>, iv: Interval, x: int)
    ensures Covers(Extend(kept, iv), x) <==> Covers(kept, x) || Max(iv.start, LastEnd(kept)) <= x < iv.end
  {
    CoversMore(kept, Interval(Max(iv.start, LastEnd(kept)), iv.end), x);
  }

  predicate StartsInOrder(ivs: seq<Interval>) {
    forall i, j :: 0 <= i < j < |ivs| ==> ivs[i].start <= ivs[j].start
  }

  /** Past the latest start seen, everything up to the last region's end is already kept. */
  lemma {:induction false} NoHoles(ivs: seq<Interval>, x: int)
    requires StartsInOrder(ivs) && ivs != []
    requires 0 <= x && ivs[|ivs| - 1].start <= x < LastEnd(Kept(ivs))
    ensures Covers(Kept(ivs), x)
  {
    var init := ivs[..|ivs| - 1];
    ExtendCovers(Kept(init), ivs[|ivs| - 1], x);
    if init != [] && x < LastEnd(Kept(init)) {
      NoHoles(init, x);
    }
  }

  lemma {:induction false} KeptIsInside(ivs: seq<Interval>, x: int)
    requires Covers(Kept(ivs), x)
    ensures Covers(ivs, x)
  {
    if ivs != [] {
      var init, iv := ivs[..|ivs| - 1], ivs[|ivs| - 1];
      ExtendCovers(Kept(init), iv, x);
      CoversMore(init, iv, x);
      assert init + [iv] == ivs;
      if Covers(Kept(init), x) {
        KeptIsInside(init, x);
      }
    }
  }

  lemma {:induction false} KeptUnion(ivs: seq<Interval>, x: nat)
    requires StartsInOrder(ivs)
    ensures Covers(Kept(ivs), x) <==> Covers(ivs, x)
  {
    if ivs != [] {
      var init, iv := ivs[..|ivs| - 1], ivs[|ivs| - 1];
      KeptUnion(init, x);
      ExtendCovers(Kept(init), iv, x);
      CoversMore(init, iv, x);
      assert init + [iv] == ivs;
      if iv.start <= x < LastEnd(Kept(init)) {
        NoHoles(ivs, x);
      }
    }
  }

  lemma RoundingIsMonotone(a: real, b: real, total: nat)
    requires a <= b
    ensures CsToSamples(a, total) <= CsToSamples(b, total)
  {
  }

  predicate InOrder(segs: seq<VadSegment>) {
    forall i, j :: 0 <= i < j < |segs| ==> segs[i].t0 <= segs[j].t0
  }

  /**
    Nothing but samples near a detected segment is ever kept, in whatever order the segments come; if
    their starts are in order all of those are kept, overlapping, nested or empty as they may be.
  */
  lemma KeptIsExactlyThePaddedSpeech(segs: seq<VadSegment>, pad: int, total: nat, x: nat)
    ensures Covers(Kept(PaddedAll(segs, pad, total)), x) ==> Heard(segs, pad, total, x)
    ensures InOrder(segs) ==> (Covers(Kept(PaddedAll(segs, pad, total)), x) <==> Heard(segs, pad, total, x))
  {
    var ivs := PaddedAll(segs, pad, total);
    CoveredIsHeard(segs, pad, total, x);
    if Covers(Kept(ivs), x) {
      KeptIsInside(ivs, x);
    }
    if InOrder(segs) {
      forall i, j | 0 <= i < j < |ivs| ensures ivs[i].start <= ivs[j].start {
        PaddedAllAt(segs, pad, total, i);
        PaddedAllAt(segs, pad, total, j);
        RoundingIsMonotone(segs[i].t0, segs[j].t0, total);
      }
      KeptUnion(ivs, x);
    }
  }

  /** The furthest end of a segment that is not empty. */
  function Reach(ivs: seq<Interval>): int {
    if ivs == [] then 0
    else
      var before, iv := Reach(ivs[..|ivs| - 1]), ivs[|ivs| - 1];
      if iv.start < iv.end && before < iv.end then iv.end else before
  }

  lemma {:induction false} ReachIsLastEnd(ivs: seq<Interval>, total: nat)
    requires Clamped(ivs, total)
    ensures LastEnd(Kept(ivs)) == Reach(ivs)
  {
    if ivs != [] {
      ReachIsLastEnd(ivs[..|ivs| - 1], total);
    }
  }

  /** Sample `x` of segment `i` lies before the end of an earlier segment, and no earlier one covers it. */
  predicate ComesLate(ivs: seq<Interval>, i: int, x: int) {
    && 0 <= i < |ivs| && ivs[i].start <= x < ivs[i].end
    && x < Reach(ivs[..i]) && !Covers(ivs[..i], x)
  }

  ghost predicate NothingComesLate(ivs: seq<Interval>) {
    forall i, x :: !ComesLate(ivs, i, x)
  }

  lemma {:induction false} NothingLateIsLost(ivs: seq<Interval>, total: nat, x: int)
    requires Clamped(ivs, total) && NothingComesLate(ivs) && Covers(ivs, x)
    ensures Covers(Kept(ivs), x)
  {
    var n := |ivs| - 1;
    var init, iv := ivs[..n], ivs[n];
    assert init + [iv] == ivs;
    CoversMore(init, iv, x);
    ExtendCovers(Kept(init), iv, x);
    ReachIsLastEnd(init, total);
    forall i, y ensures !ComesLate(init, i, y) {
      if 0 <= i < n {
        assert init[..i] == ivs[..i];
        assert !ComesLate(ivs, i, y);
      }
    }
    assert !ComesLate(ivs, n, x);
    if Covers(init, x) {
      NothingLateIsLost(init, total, x);
    }
  }

  /** Below the end reached after `i` segments the later ones keep nothing. */
  lemma {:induction false} LaterKeepNothingBelow(ivs: seq<Interval>, total: nat, i: nat, x: int)
    requires Clamped(ivs, total) && i <= |ivs| && x < Reach(ivs[..i]) && Covers(Kept(ivs), x)
    ensures Covers(Kept(ivs[..i]), x) && Reach(ivs[..i]) <= Reach(ivs)
  {
    if i == |ivs| {
      assert ivs[..i] == ivs;
    } else {
      var init := ivs[..|ivs| - 1];
      assert init[..i] == ivs[..i];
      ReachGrows(init, i);
      ReachIsLastEnd(init, total);
      ExtendCovers(Kept(init), ivs[|ivs| - 1], x);
      LaterKeepNothingBelow(init, total, i, x);
    }
  }

  lemma {:induction false} ReachGrows(ivs: seq<Interval>, i: nat)
    requires i <= |ivs|
    ensures Reach(ivs[..i]) <= Reach(ivs)
  {
    if i == |ivs| {
      assert ivs[..i] == ivs;
    } else {
      ReachGrows(ivs[..|ivs| - 1], i);
      assert ivs[..|ivs| - 1][..i] == ivs[..i];
    }
  }

  lemma LateIsLost(ivs: seq<Interval>, total: nat, i: int, x: int)
    requires Clamped(ivs, total) && ComesLate(ivs, i, x)
    ensures Covers(ivs, x) && !Covers(Kept(ivs), x)
  {
    assert ivs[i].start <= x < ivs[i].end;
    if Covers(Kept(ivs), x) {
      LaterKeepNothingBelow(ivs, total, i, x);
      KeptIsInside(ivs[..i], x);
    }
  }

  /**
    In whatever order the segments come, no speech is lost if and only if no segment reaches back
    before the end of an earlier one to samples that no earlier one covers; and what is lost is
    exactly that.
  */
  lemma SpeechIsKeptExactlyIfNothingComesLate(segs: seq<VadSegment>, pad: int, total: nat)
    ensures var ivs := PaddedAll(segs, pad, total);
      && ((forall x :: Heard(segs, pad, total, x) ==> Covers(Kept(ivs), x)) <==> NothingComesLate(ivs))
      && (forall i, x :: ComesLate(ivs, i, x) ==> Heard(segs, pad, total, x) && !Covers(Kept(ivs), x))
  {
    var ivs := PaddedAll(segs, pad, total);
    forall i, x | ComesLate(ivs, i, x) ensures Heard(segs, pad, total, x) && !Covers(Kept(ivs), x) {
      LateIsLost(ivs, total, i, x);
      CoveredIsHeard(segs, pad, total, x);
    }
    if NothingComesLate(ivs) {
      forall x | Heard(segs, pad, total, x) ensures Covers(Kept(ivs), x) {
        CoveredIsHeard(segs, pad, total, x);
        NothingLateIsLost(ivs, total, x);
      }
    }
  }

  /** Something is kept if and only if some sample is near a detected segment. */
  lemma KeptExactlyIfHeard(segs: seq<VadSegment>, pad: int, total: nat)
    ensures Kept(PaddedAll(segs, pad, total)) != [] <==> exists x :: Heard(segs, pad, total, x)
  {
    var ivs := PaddedAll(segs, pad, total);
    KeptIsOrdered(ivs, total);
    if Kept(ivs) != [] {
      var x := Kept(ivs)[0].start;
      assert Covers(Kept(ivs), x);
      KeptIsExactlyThePaddedSpeech(segs, pad, total, x);
    } else if x :| Heard(segs, pad, total, x) {
      CoveredIsHeard(segs, pad, total, x);
      NothingKeptNothingCovered(ivs, total, x);
    }
  }

  lemma {:induction false} NothingKeptNothingCovered(ivs: seq<Interval>, total: nat, x: int)
    requires Clamped(ivs, total) && Kept(ivs) == []
    ensures !Covers(ivs, x)
  {
    if ivs != [] {
      var init := ivs[..|ivs| - 1];
      NothingKeptNothingCovered(init, total, x);
      CoversMore(init, ivs[|ivs| - 1], x);
      assert init + [ivs[|ivs| - 1]] == ivs;
    }
  }

  /** Such a list: the second segment comes late as a whole. */
  lemma LateSegmentIsLost()
    ensures var ivs := PaddedAll([VadSegment(100.0, 200.0), VadSegment(0.0, 50.0)], 0, 32000);
      ComesLate(ivs, 1, 0) && Covers(ivs, 0) && !Covers(Kept(ivs), 0)
  {
    var segs := [VadSegment(100.0, 200.0), VadSegment(0.0, 50.0)];
    PaddedAllAt(segs, 0, 32000, 0);
    PaddedAllAt(segs, 0, 32000, 1);
    var ivs, first := PaddedAll(segs, 0, 32000), Interval(16000, 32000);
    assert ivs[..1] == [first] && [first][..0] == [];
    assert Reach([first]) == 32000;
    LateIsLost(ivs, 32000, 1, 0);
  }

  // ---------------------------------------------------------------- the mapping and the gated buffer

  /** Gated timeline: regions laid end to end, one gap apart; same length on both sides. */
  predicate WellFormed(mapping: seq<SegmentMapping>, total: int) {
    && (mapping != [] ==> mapping[0].gatedStart == 0)
    && (forall i :: 0 <= i < |mapping| ==>
          && 0 <= mapping[i].gatedStart
          && 0 <= mapping[i].originalStart < mapping[i].originalEnd <= total
          && mapping[i].gatedEnd - mapping[i].gatedStart == mapping[i].originalEnd - mapping[i].originalStart)
    && (forall i, j :: 0 <= i < j < |mapping| ==>
          && mapping[i].gatedEnd + 1600 <= mapping[j].gatedStart
          && (j == i + 1 ==> mapping[j].gatedStart == mapping[i].gatedEnd + 1600)
          && mapping[i].originalEnd <= mapping[j].originalStart)
  }

  /** The original regions of the mapping are exactly `kept`. */
  predicate Records(mapping: seq<SegmentMapping>, kept: seq<Interval>) {
    && |mapping| == |kept|
    && forall i :: 0 <= i < |mapping| ==>
         mapping[i].originalStart == kept[i].start && mapping[i].originalEnd == kept[i].end
  }

  /** Sample `x` is inside a region of the mapping. */
  predicate Mapped(mapping: seq<SegmentMapping>, x: int) {
    exists i :: 0 <= i < |mapping| && mapping[i].originalStart <= x < mapping[i].originalEnd
  }

  function GatedEnd(mapping: seq<SegmentMapping>): int {
    if mapping == [] then 0 else mapping[|mapping| - 1].gatedEnd
  }

  predicate InRegionOf(mapping: seq<SegmentMapping>, i: int, g: int) {
    0 <= i < |mapping| && mapping[i].gatedStart <= g < mapping[i].gatedEnd
  }

  /** The original sample that gated sample `g` of region `i` is a copy of. */
  function OriginalOf(mapping: seq<SegmentMapping>, i: int, g: int): int
    requires InRegionOf(mapping, i, g)
  {
    mapping[i].originalStart + (g - mapping[i].gatedStart)
  }

  predicate InRegion(mapping: seq<SegmentMapping>, g: int) {
    exists i :: 0 <= i < |mapping| && InRegionOf(mapping, i, g)
  }

  ghost predicate CopiesRegions(samples: seq<real>, mapping: seq<SegmentMapping>, original: seq<real>) {
    forall i, g :: 0 <= i < |mapping| && InRegionOf(mapping, i, g) ==>
      && 0 <= g < |samples| && 0 <= OriginalOf(mapping, i, g) < |original|
      && samples[g] == original[OriginalOf(mapping, i, g)]
  }

  predicate SilentElsewhere(samples: seq<real>, mapping: seq<SegmentMapping>) {
    forall g :: 0 <= g < |samples| && !InRegion(mapping, g) ==> samples[g] == 0.0
  }

  /** Every gated sample is either the original sample it maps to, or gap silence. */
  ghost predicate Faithful(samples: seq<real>, mapping: seq<SegmentMapping>, original: seq<real>) {
    CopiesRegions(samples, mapping, original) && SilentElsewhere(samples, mapping)
  }

  /** The last interval reaches past all earlier ones. */
  predicate LastAdds(ivs: seq<Interval>)
    requires ivs != []
  {
    var iv := ivs[|ivs| - 1];
    Max(iv.start, Reach(ivs[..|ivs| - 1])) < iv.end
  }

  /** 100 ms of silence follow the last region if and only if the last detected segment added nothing. */
  predicate TailIsGap(samples: seq<real>, mapping: seq<SegmentMapping>, ivs: seq<Interval>)
    requires ivs != []
  {
    |samples| == if mapping == [] then 0 else GatedEnd(mapping) + if LastAdds(ivs) then 0 else 1600
  }

  // ---------------------------------------------------------------- what gating produces

  function Layout(kept: seq<Interval>): (mapping: seq<SegmentMapping>)
    ensures |mapping| == |kept|
  {
    if kept == [] then []
    else
      var before := Layout(kept[..|kept| - 1]);
      before + [NextEntry(before, kept[|kept| - 1])]
  }

  function Silence(n: nat): seq<real> {
    seq(n, _ => 0.0)
  }

  /** Each region followed by a gap. */
  function Rendered(original: seq<real>, kept: seq<Interval>): seq<real>
    requires Ordered(kept, |original|)
  {
    if kept == [] then []
    else
      var iv := kept[|kept| - 1];
      Rendered(original, kept[..|kept| - 1]) + original[iv.start..iv.end] + Silence(GAP)
  }

  /** The gated buffer: no gap after a region that the last detected segment contributed. */
  function GatedSamples(original: seq<real>, ivs: seq<Interval>): seq<real>
    requires Clamped(ivs, |original|) && ivs != []
  {
    KeptIsOrdered(ivs, |original|);
    var kept := Kept(ivs);
    if kept == Kept(ivs[..|ivs| - 1]) then Rendered(original, kept) else EndingInRegion(original, kept)
  }

  function NextEntry(before: seq<SegmentMapping>, iv: Interval): SegmentMapping {
    var start := if before == [] then 0 else GatedEnd(before) + GAP;
    SegmentMapping(start, start + (iv.end - iv.start), iv.start, iv.end)
  }

  lemma OneMoreRegion(before: seq<SegmentMapping>, iv: Interval, total: nat)
    requires WellFormed(before, total) && 0 <= iv.start < iv.end <= total
    requires forall i :: 0 <= i < |before| ==> before[i].originalEnd <= iv.start
    ensures WellFormed(before + [NextEntry(before, iv)], total)
  {
    var mapping := before + [NextEntry(before, iv)];
    if before != [] {
      var last := before[|before| - 1];
      forall i | 0 <= i < |before| ensures mapping[i].gatedEnd <= last.gatedEnd {
      }
    }
  }

  lemma {:induction false} LayoutIsWellFormed(kept: seq<Interval>, total: nat)
    requires Ordered(kept, total)
    ensures WellFormed(Layout(kept), total) && Records(Layout(kept), kept)
  {
    if kept != [] {
      var init, iv := kept[..|kept| - 1], kept[|kept| - 1];
      LayoutIsWellFormed(init, total);
      var before := Layout(init);
      forall i | 0 <= i < |before| ensures before[i].originalEnd <= iv.start {
        assert before[i].originalEnd == kept[i].end;
      }
      OneMoreRegion(before, iv, total);
    }
  }

  /** Length of the gated buffer when the next region is due. */
  function Cursor(mapping: seq<SegmentMapping>): int {
    if mapping == [] then 0 else GatedEnd(mapping) + GAP
  }

  lemma RegionCopied(samples: seq<real>, mapping: seq<SegmentMapping>, original: seq<real>, iv: Interval, gap: nat)
    requires WellFormed(mapping, |original|) && |samples| == Cursor(mapping)
    requires 0 <= iv.start < iv.end <= |original|
    requires CopiesRegions(samples, mapping, original)
    ensures CopiesRegions(samples + original[iv.start..iv.end] + Silence(gap),
                          mapping + [NextEntry(mapping, iv)], original)
  {
    var samples', mapping' := samples + original[iv.start..iv.end] + Silence(gap), mapping + [NextEntry(mapping, iv)];
    forall i, g | 0 <= i < |mapping'| && InRegionOf(mapping', i, g)
      ensures 0 <= g < |samples'| && 0 <= OriginalOf(mapping', i, g) < |original|
      ensures samples'[g] == original[OriginalOf(mapping', i, g)]
    {
      if i < |mapping| {
        assert mapping'[i] == mapping[i] && InRegionOf(mapping, i, g);
        assert samples'[g] == samples[g];
      } else {
        assert samples'[g] == original[iv.start..iv.end][g - |samples|];
      }
    }
  }

  lemma RestIsSilent(samples: seq<real>, mapping: seq<SegmentMapping>, original: seq<real>, iv: Interval, gap: nat)
    requires |samples| == Cursor(mapping)
    requires 0 <= iv.start < iv.end <= |original|
    requires SilentElsewhere(samples, mapping)
    ensures SilentElsewhere(samples + original[iv.start..iv.end] + Silence(gap), mapping + [NextEntry(mapping, iv)])
  {
    var samples', mapping' := samples + original[iv.start..iv.end] + Silence(gap), mapping + [NextEntry(mapping, iv)];
    forall g | 0 <= g < |samples'| && !InRegion(mapping', g) ensures samples'[g] == 0.0 {
      if g < |samples| {
        forall i | 0 <= i < |mapping| ensures !InRegionOf(mapping, i, g) {
          assert mapping'[i] == mapping[i] && !InRegionOf(mapping', i, g);
        }
        assert !InRegion(mapping, g) && samples'[g] == samples[g];
      } else {
        assert !InRegionOf(mapping', |mapping|, g);
        assert samples'[g] == Silence(gap)[g - |samples| - (iv.end - iv.start)];
      }
    }
  }

  lemma {:induction false} RenderedIsFaithful(original: seq<real>, kept: seq<Interval>)
    requires Ordered(kept, |original|)
    ensures Faithful(Rendered(original, kept), Layout(kept), original)
    ensures |Rendered(original, kept)| == Cursor(Layout(kept))
  {
    if kept != [] {
      var init, iv := kept[..|kept| - 1], kept[|kept| - 1];
      RenderedIsFaithful(original, init);
      LayoutIsWellFormed(init, |original|);
      RegionCopied(Rendered(original, init), Layout(init), original, iv, GAP);
      RestIsSilent(Rendered(original, init), Layout(init), original, iv, GAP);
    }
  }

  /** Everything `Cut` promises about one gating pass over padded intervals `ivs`. */
  ghost predicate CutCorrect(original: seq<real>, ivs: seq<Interval>,
                             samples: seq<real>, mapping: seq<SegmentMapping>)
    requires ivs != []
  {
    && Records(mapping, Kept(ivs))
    && WellFormed(mapping, |original|)
    && Faithful(samples, mapping, original)
    && TailIsGap(samples, mapping, ivs)
  }

  function EndingInRegion(original: seq<real>, kept: seq<Interval>): seq<real>
    requires Ordered(kept, |original|) && kept != []
  {
    var iv := kept[|kept| - 1];
    Rendered(original, kept[..|kept| - 1]) + original[iv.start..iv.end]
  }

  lemma EndingInRegionIsFaithful(original: seq<real>, kept: seq<Interval>)
    requires Ordered(kept, |original|) && kept != []
    ensures Faithful(EndingInRegion(original, kept), Layout(kept), original)
    ensures |EndingInRegion(original, kept)| == GatedEnd(Layout(kept))
  {
    var init, iv := kept[..|kept| - 1], kept[|kept| - 1];
    var rendered, mapping := Rendered(original, init), Layout(init);
    LayoutIsWellFormed(init, |original|);
    RenderedIsFaithful(original, init);
    RegionCopied(rendered, mapping, original, iv, 0);
    RestIsSilent(rendered, mapping, original, iv, 0);
    assert rendered + original[iv.start..iv.end] + Silence(0) == rendered + original[iv.start..iv.end];
  }

  lemma GatingIsCorrect(original: seq<real>, ivs: seq<Interval>)
    requires Clamped(ivs, |original|) && ivs != []
    ensures CutCorrect(original, ivs, GatedSamples(original, ivs), Layout(Kept(ivs)))
  {
    var kept := Kept(ivs);
    KeptIsOrdered(ivs, |original|);
    LayoutIsWellFormed(kept, |original|);
    ReachIsLastEnd(ivs[..|ivs| - 1], |original|);
    if kept == Kept(ivs[..|ivs| - 1]) {
      RenderedIsFaithful(original, kept);
    } else {
      EndingInRegionIsFaithful(original, kept);
    }
  }

  /** Local variables of the gating loop. */
  datatype GateState = GateState(samples: seq<real>, mapping: seq<SegmentMapping>, cursor: int, prevSegEnd: int)

  /** The locals hold the regions `kept`, the last one followed by a gap or not. */
  ghost predicate Holds(original: seq<real>, kept: seq<Interval>, gapped: bool, st: GateState) {
    && Ordered(kept, |original|)
    && st.mapping == Layout(kept)
    && st.prevSegEnd == LastEnd(kept)
    && (gapped ==> st.samples == Rendered(original, kept) && st.cursor == Cursor(st.mapping))
    && (!gapped ==> kept != [] && st.samples == EndingInRegion(original, kept))
  }

  function Copied(original: seq<real>, st: GateState, iv: Interval, gap: nat): GateState
    requires 0 <= iv.start < iv.end <= |original|
  {
    GateState(st.samples + original[iv.start..iv.end] + Silence(gap),
              st.mapping + [SegmentMapping(st.cursor, st.cursor + (iv.end - iv.start), iv.start, iv.end)],
              st.cursor + (iv.end - iv.start) + gap, iv.end)
  }

  /** One pass of the loop body: skip, or copy the rest of `iv` and `gap` zeros. */
  function Step(original: seq<real>, st: GateState, iv: Interval, gap: nat): GateState
    requires 0 <= iv.start && iv.end <= |original|
  {
    var start := Max(iv.start, st.prevSegEnd);
    if iv.end <= start then st else Copied(original, st, Interval(start, iv.end), gap)
  }

  /** The locals after `i` of the intervals. */
  function StateAfter(original: seq<real>, ivs: seq<Interval>, i: nat): GateState
    requires Clamped(ivs, |original|) && i <= |ivs|
  {
    if i == 0 then GateState([], [], 0, 0)
    else Step(original, StateAfter(original, ivs, i - 1), ivs[i - 1], if i < |ivs| then GAP else 0)
  }

  lemma RegionAdded(original: seq<real>, kept: seq<Interval>, st: GateState, iv: Interval, gapped: bool)
    requires Holds(original, kept, true, st) && Ordered(kept + [iv], |original|)
    requires 0 <= iv.start < iv.end <= |original|
    ensures Holds(original, kept + [iv], gapped, Copied(original, st, iv, if gapped then GAP else 0))
  {
    assert (kept + [iv])[..|kept|] == kept;
    var samples := st.samples + original[iv.start..iv.end];
    assert samples + Silence(0) == samples;
  }

  /** One pass of the loop body, with the regions kept before it in `before`. */
  lemma StepIsRight(original: seq<real>, before: seq<Interval>, st: GateState, iv: Interval, gapped: bool)
    requires Holds(original, before, true, st) && 0 <= iv.start && iv.end <= |original|
    requires Ordered(Extend(before, iv), |original|)
    ensures Holds(original, Extend(before, iv), gapped || Extend(before, iv) == before,
                  Step(original, st, iv, if gapped then GAP else 0))
  {
    var region := Interval(Max(iv.start, LastEnd(before)), iv.end);
    if region.start < region.end {
      assert Extend(before, iv) == before + [region] && |before + [region]| != |before|;
      RegionAdded(original, before, st, region, gapped);
    }
  }

  /** The regions kept after `i` of the intervals. */
  function KeptAfter(ivs: seq<Interval>, i: nat): seq<Interval>
    requires i <= |ivs|
  {
    if i == 0 then [] else Extend(KeptAfter(ivs, i - 1), ivs[i - 1])
  }

  lemma {:induction false} KeptAfterIs(ivs: seq<Interval>, i: nat)
    requires i <= |ivs|
    ensures KeptAfter(ivs, i) == Kept(ivs[..i])
  {
    if i > 0 {
      KeptAfterIs(ivs, i - 1);
      assert ivs[..i][..i - 1] == ivs[..i - 1];
    }
  }

  lemma KeptAfterIsKept(ivs: seq<Interval>, total: nat, i: nat)
    requires Clamped(ivs, total) && i <= |ivs|
    ensures KeptAfter(ivs, i) == Kept(ivs[..i]) && Ordered(KeptAfter(ivs, i), total)
  {
    KeptAfterIs(ivs, i);
    KeptIsOrdered(ivs[..i], total);
  }

  /** The last region kept has a gap after it, unless the last interval made it. */
  predicate Gapped(ivs: seq<Interval>, i: nat)
    requires i <= |ivs|
  {
    i < |ivs| || i == 0 || KeptAfter(ivs, i) == KeptAfter(ivs, i - 1)
  }

  lemma {:induction false} LoopIsRight(original: seq<real>, ivs: seq<Interval>, i: nat)
    requires Clamped(ivs, |original|) && i <= |ivs|
    ensures Holds(original, KeptAfter(ivs, i), Gapped(ivs, i), StateAfter(original, ivs, i))
  {
    if i > 0 {
      LoopIsRight(original, ivs, i - 1);
      KeptAfterIsKept(ivs, |original|, i);
      StepIsRight(original, KeptAfter(ivs, i - 1), StateAfter(original, ivs, i - 1), ivs[i - 1], i < |ivs|);
    }
  }

  // ---------------------------------------------------------------- mapping back

  /** First matching entry wins, as in the source's search loop. */
  function MapFrom(mapping: seq<SegmentMapping>, g: int, total: int, i: nat): int
    requires i <= |mapping| && mapping != []
    decreases |mapping| - i
  {
    if i == |mapping| then Min(mapping[|mapping| - 1].originalEnd, total)
    else if g < mapping[i].gatedStart then (if i == 0 then 0 else mapping[i - 1].originalEnd)
    else if g < mapping[i].gatedEnd then mapping[i].originalStart + (g - mapping[i].gatedStart)
    else MapFrom(mapping, g, total, i + 1)
  }

  function MapBack(mapping: seq<SegmentMapping>, g: int, total: int): int {
    if g < 0 || mapping == [] then 0 else MapFrom(mapping, g, total, 0)
  }

  method MapGatedToOriginalSamples(mapping: seq<SegmentMapping>, g: int, total: int) returns (x: int)
    ensures x == MapBack(mapping, g, total)
  {
    if g < 0 || mapping == [] {
      return 0;
    }
    for i := 0 to |mapping|
      invariant MapBack(mapping, g, total) == MapFrom(mapping, g, total, i)
    {
      var seg := mapping[i];
      if g < seg.gatedStart {
        return if i == 0 then 0 else mapping[i - 1].originalEnd;
      }
      if g < seg.gatedEnd {
        return seg.originalStart + (g - seg.gatedStart);
      }
    }
    return Min(mapping[|mapping| - 1].originalEnd, total);
  }

  /** Where `g` lies decides `MapBack`; `i` counts the regions that end at or before `g`. */
  lemma {:induction false} MapFromAt(mapping: seq<SegmentMapping>, g: int, total: int, from: nat, i: nat)
    requires WellFormed(mapping, total) && mapping != [] && from <= i <= |mapping|
    requires forall j :: from <= j < i ==> mapping[j].gatedEnd <= g
    requires i < |mapping| ==> g < mapping[i].gatedEnd
    ensures MapFrom(mapping, g, total, from) ==
      if i < |mapping| && mapping[i].gatedStart <= g then mapping[i].originalStart + (g - mapping[i].gatedStart)
      else if i == 0 then 0
      else mapping[i - 1].originalEnd
    decreases i - from
  {
    if from < i {
      MapFromAt(mapping, g, total, from + 1, i);
    }
  }

  /** The number of regions that end at or before `g`. */
  function RegionsBefore(mapping: seq<SegmentMapping>, g: int): (i: nat)
    ensures i <= |mapping|
    ensures forall j :: 0 <= j < i ==> mapping[j].gatedEnd <= g
    ensures i < |mapping| ==> g < mapping[i].gatedEnd
  {
    FirstPast(mapping, g, 0)
  }

  function FirstPast(mapping: seq<SegmentMapping>, g: int, i: nat): (r: nat)
    requires i <= |mapping|
    ensures i <= r <= |mapping|
    ensures forall j :: i <= j < r ==> mapping[j].gatedEnd <= g
    ensures r < |mapping| ==> g < mapping[r].gatedEnd
    decreases |mapping| - i
  {
    if i == |mapping| || g < mapping[i].gatedEnd then i else FirstPast(mapping, g, i + 1)
  }

  /**
    What the map means: a region sample goes to its own original, a gap sample and everything past
    the end to the end of the region before it. The result is always inside the buffer.
  */
  lemma MapBackAt(mapping: seq<SegmentMapping>, g: int, total: nat)
    requires WellFormed(mapping, total)
    ensures 0 <= MapBack(mapping, g, total) <= total
    ensures g < 0 || mapping == [] ==> MapBack(mapping, g, total) == 0
    ensures g >= 0 && mapping != [] ==>
      var i := RegionsBefore(mapping, g);
      if i < |mapping| && mapping[i].gatedStart <= g
      then MapBack(mapping, g, total) == mapping[i].originalStart + (g - mapping[i].gatedStart)
      else i > 0 && MapBack(mapping, g, total) == mapping[i - 1].originalEnd
  {
    if g >= 0 && mapping != [] {
      MapFromAt(mapping, g, total, 0, RegionsBefore(mapping, g));
    }
  }

  /** The map is monotone over all of time, not just over mapped samples. */
  lemma MapBackMonotone(mapping: seq<SegmentMapping>, g: int, h: int, total: nat)
    requires WellFormed(mapping, total) && g <= h
    ensures MapBack(mapping, g, total) <= MapBack(mapping, h, total)
  {
    MapBackAt(mapping, g, total);
    MapBackAt(mapping, h, total);
    if g >= 0 && mapping != [] {
      var i, j := RegionsBefore(mapping, g), RegionsBefore(mapping, h);
      assert i <= j;
    }
  }

  /**
    Cutting the original at the image of `g` separates kept audio exactly as cutting the gated
    buffer at `g` does.
  */
  lemma CutsAgree(mapping: seq<SegmentMapping>, g: int, total: nat, i: nat, h: int)
    requires WellFormed(mapping, total) && InRegionOf(mapping, i, h)
    ensures h < g <==> OriginalOf(mapping, i, h) < MapBack(mapping, g, total)
  {
    MapBackAt(mapping, g, total);
    if g >= 0 {
      var k := RegionsBefore(mapping, g);
      if i < k {
        assert mapping[i].gatedEnd <= g;
        if i < k - 1 {
          assert mapping[i].originalEnd <= mapping[k - 1].originalStart;
        }
      }
    }
  }

  /** Anything after the start of a gated buffer maps to after the start of the original. */
  lemma PositiveMapsToPositive(mapping: seq<SegmentMapping>, g: int, total: nat)
    requires WellFormed(mapping, total) && mapping != [] && g > 0
    ensures MapBack(mapping, g, total) > 0
  {
    MapBackAt(mapping, g, total);
  }

  /** Some region begins at `g` in the gated buffer and at `x` in the original. */
  predicate BeginsAt(mapping: seq<SegmentMapping>, g: int, x: int) {
    exists i :: 0 <= i < |mapping| && mapping[i].gatedStart == g && mapping[i].originalStart == x
  }

  /** The image of `g` is where a region begins, or just after a sample of a region. */
  lemma ImageIsAtRegion(mapping: seq<SegmentMapping>, g: int, total: nat)
    requires WellFormed(mapping, total) && mapping != [] && g > 0
    ensures Mapped(mapping, MapBack(mapping, g, total) - 1) || BeginsAt(mapping, g, MapBack(mapping, g, total))
    ensures forall x :: BeginsAt(mapping, g, x) ==> MapBack(mapping, g, total) == x
  {
    MapBackAt(mapping, g, total);
    var i, x := RegionsBefore(mapping, g), MapBack(mapping, g, total) - 1;
    if i < |mapping| && mapping[i].gatedStart <= g {
      assert mapping[i].gatedStart < g ==> mapping[i].originalStart <= x < mapping[i].originalEnd;
    } else {
      assert mapping[i - 1].originalStart <= x < mapping[i - 1].originalEnd;
    }
    forall y | BeginsAt(mapping, g, y) ensures MapBack(mapping, g, total) == y {
      var j :| 0 <= j < |mapping| && mapping[j].gatedStart == g && mapping[j].originalStart == y;
      assert j == i;
    }
  }

  /** In the gated buffer, every sample of a region is the original sample the map sends it to. */
  lemma MapBackFindsTheSample(original: seq<real>, ivs: seq<Interval>, samples: seq<real>,
                              mapping: seq<SegmentMapping>, i: nat, g: int)
    requires ivs != [] && CutCorrect(original, ivs, samples, mapping) && InRegionOf(mapping, i, g)
    ensures MapBack(mapping, g, |original|) == OriginalOf(mapping, i, g)
    ensures 0 <= g < |samples| && 0 <= MapBack(mapping, g, |original|) < |original|
    ensures samples[g] == original[MapBack(mapping, g, |original|)]
  {
    forall j | 0 <= j < i ensures mapping[j].gatedEnd <= g {
    }
    MapFromAt(mapping, g, |original|, 0, i);
  }

  /** Where sample `g` of the gated buffer is from: gap silence, or a copy from a kept region. */
  ghost predicate KeptOrSilence(original: seq<real>, kept: seq<Interval>, samples: seq<real>,
                                mapping: seq<SegmentMapping>, g: nat)
    requires g < |samples|
  {
    if InRegion(mapping, g) then
      exists i :: InRegionOf(mapping, i, g) && 0 <= OriginalOf(mapping, i, g) < |original|
        && samples[g] == original[OriginalOf(mapping, i, g)] && Covers(kept, OriginalOf(mapping, i, g))
    else samples[g] == 0.0
  }

  lemma FaithfulIsKeptOrSilence(original: seq<real>, kept: seq<Interval>, samples: seq<real>,
                                mapping: seq<SegmentMapping>, g: nat)
    requires WellFormed(mapping, |original|) && Records(mapping, kept) && g < |samples|
    requires Faithful(samples, mapping, original)
    ensures KeptOrSilence(original, kept, samples, mapping, g)
  {
    if InRegion(mapping, g) {
      var i :| 0 <= i < |mapping| && InRegionOf(mapping, i, g);
      var x := OriginalOf(mapping, i, g);
      assert samples[g] == original[x];
      assert kept[i].start <= x < kept[i].end;
    }
  }

  lemma DecodedIsKeptOrSilence(original: seq<real>, segs: seq<VadSegment>, pad: int, g: nat)
    requires original != [] && segs != []
    requires g < |SamplesAfter(original, Detected(segs), pad)|
    ensures KeptOrSilence(original, Kept(PaddedAll(segs, pad, |original|)),
                          SamplesAfter(original, Detected(segs), pad), MappingAfter(original, Detected(segs), pad), g)
  {
    var ivs := PaddedAll(segs, pad, |original|);
    GatingIsCorrect(original, ivs);
    FaithfulIsKeptOrSilence(original, Kept(ivs), GatedSamples(original, ivs), Layout(Kept(ivs)), g);
  }

  /** Sample `g` of the gated buffer is gap silence, or a copy of a sample near a detected segment. */
  ghost predicate SpeechOrSilence(original: seq<real>, segs: seq<VadSegment>, pad: int, samples: seq<real>, g: nat)
    requires g < |samples|
  {
    samples[g] == 0.0
    || exists x :: 0 <= x < |original| && Heard(segs, pad, |original|, x) && samples[g] == original[x]
  }

  /** Every sample handed to the decoder is gap silence, or a copy of a sample near a detected segment. */
  lemma DecodedIsSpeechOrSilence(original: seq<real>, segs: seq<VadSegment>, pad: int, g: nat)
    requires original != [] && segs != []
    requires g < |SamplesAfter(original, Detected(segs), pad)|
    ensures SpeechOrSilence(original, segs, pad, SamplesAfter(original, Detected(segs), pad), g)
  {
    DecodedIsKeptOrSilence(original, segs, pad, g);
    forall x: nat | Covers(Kept(PaddedAll(segs, pad, |original|)), x) ensures Heard(segs, pad, |original|, x) {
      KeptIsExactlyThePaddedSpeech(segs, pad, |original|, x);
    }
  }

  /** No original sample is copied to two places of the gated buffer. */
  lemma EachSampleIsCopiedOnce(original: seq<real>, segs: seq<VadSegment>, pad: int, i: nat, g: int, j: nat, h: int)
    requires var mapping := MappingAfter(original, Detected(segs), pad);
      && InRegionOf(mapping, i, g) && InRegionOf(mapping, j, h)
      && OriginalOf(mapping, i, g) == OriginalOf(mapping, j, h)
    ensures g == h
  {
    var ivs := PaddedAll(segs, pad, |original|);
    KeptIsOrdered(ivs, |original|);
    LayoutIsWellFormed(Kept(ivs), |original|);
  }

  // ---------------------------------------------------------------- the gate itself

  lemma HeldIsGated(original: seq<real>, ivs: seq<Interval>, kept: seq<Interval>, gapped: bool, st: GateState)
    requires Clamped(ivs, |original|) && ivs != [] && kept == Kept(ivs)
    requires gapped <==> kept == Kept(ivs[..|ivs| - 1])
    requires Holds(original, kept, gapped, st)
    ensures st.mapping == Layout(kept) && st.samples == GatedSamples(original, ivs)
    ensures st.samples != [] <==> kept != []
  {
    if kept != [] {
      assert kept[|kept| - 1].start < kept[|kept| - 1].end;
    }
  }

  lemma CutIsRight(original: seq<real>, ivs: seq<Interval>, st: GateState)
    requires Clamped(ivs, |original|) && ivs != [] && st == StateAfter(original, ivs, |ivs|)
    ensures st.mapping == Layout(Kept(ivs)) && st.samples == GatedSamples(original, ivs)
    ensures st.samples != [] <==> st.mapping != []
  {
    var n := |ivs|;
    LoopIsRight(original, ivs, n);
    KeptAfterIs(ivs, n);
    KeptAfterIs(ivs, n - 1);
    assert ivs[..n] == ivs;
    HeldIsGated(original, ivs, Kept(ivs), Gapped(ivs, n), st);
  }

  /** The mapping holds only samples near the detected segments; all of them, if their starts are in order. */
  ghost predicate MapsSpeech(mapping: seq<SegmentMapping>, segs: seq<VadSegment>, pad: int, total: nat) {
    && (forall x :: Mapped(mapping, x) ==> Heard(segs, pad, total, x))
    && (InOrder(segs) ==> forall x :: Heard(segs, pad, total, x) ==> Mapped(mapping, x))
    && (mapping != [] <==> exists x :: Heard(segs, pad, total, x))
  }

  lemma RecordsCovers(mapping: seq<SegmentMapping>, kept: seq<Interval>, x: int)
    requires Records(mapping, kept)
    ensures Mapped(mapping, x) <==> Covers(kept, x)
  {
  }

  lemma MappingIsOfSpeech(segs: seq<VadSegment>, pad: int, total: nat)
    ensures MapsSpeech(Layout(Kept(PaddedAll(segs, pad, total))), segs, pad, total)
  {
    var ivs := PaddedAll(segs, pad, total);
    var mapping := Layout(Kept(ivs));
    KeptIsOrdered(ivs, total);
    LayoutIsWellFormed(Kept(ivs), total);
    KeptExactlyIfHeard(segs, pad, total);
    forall x ensures Mapped(mapping, x) ==> Heard(segs, pad, total, x)
             ensures InOrder(segs) && Heard(segs, pad, total, x) ==> Mapped(mapping, x)
    {
      RecordsCovers(mapping, Kept(ivs), x);
      if 0 <= x {
        KeptIsExactlyThePaddedSpeech(segs, pad, total, x);
      }
    }
  }

  class Gate {
    const speechPadMs: int
    var mapping: seq<SegmentMapping>
    var originalTotalSamples: nat

    constructor (speechPadMs: int)
      ensures this.speechPadMs == speechPadMs && mapping == [] && originalTotalSamples == 0
    {
      this.speechPadMs := speechPadMs;
      mapping, originalTotalSamples := [], 0;
    }

    /** 16 samples for each millisecond. */
    function Pad(): (samples: int)
      ensures samples == 16 * speechPadMs
    {
      speechPadMs * SAMPLE_RATE / 1000
    }

    /** Runs the model over `original`; every outcome first forgets the previous mapping. */
    method Cut(original: seq<real>, outcome: VadOutcome) returns (r: GateOutcome)
      modifies this
      ensures originalTotalSamples == |original|
      ensures r.Threw? <==> original != [] && !outcome.Detected?
      ensures mapping == MappingAfter(original, outcome, Pad())
      ensures r.Gated? ==> r.result == GatedResult(SamplesAfter(original, outcome, Pad()), mapping != [])
      ensures r.Gated? && r.result.hadSpeech ==>
        outcome.segments != []
        && CutCorrect(original, PaddedAll(outcome.segments, Pad(), |original|), r.result.samples, mapping)
      ensures r.Gated? && original != [] ==> MapsSpeech(mapping, outcome.segments, 16 * speechPadMs, |original|)
    {
      mapping := [];
      originalTotalSamples := |original|;
      if outcome.Detected? {
        MappingIsOfSpeech(outcome.segments, Pad(), |original|);
      }
      if original == [] {
        return Gated(GatedResult([], false));
      }
      if !outcome.Detected? {
        return Threw;
      }
      if outcome.segments == [] {
        return Gated(GatedResult([], false));
      }
      var ivs := PaddedAll(outcome.segments, Pad(), |original|);
      var samples := CutSegments(original, ivs);
      CutIsRight(original, ivs, StateAfter(original, ivs, |ivs|));
      GatingIsCorrect(original, ivs);
      return Gated(GatedResult(samples, samples != []));
    }

    /** The loop of `Cut` over the detected segments, `ivs` being their padded bounds. */
    method CutSegments(original: seq<real>, ivs: seq<Interval>) returns (samples: seq<real>)
      requires mapping == [] && Clamped(ivs, |original|)
      modifies this`mapping
      ensures var st := StateAfter(original, ivs, |ivs|);
        samples == st.samples && mapping == st.mapping
    {
      var n, cursor, prevSegEnd := |ivs|, 0, 0;
      samples := [];
      ghost var st := GateState(samples, mapping, cursor, prevSegEnd);
      for i := 0 to n
        invariant st == StateAfter(original, ivs, i) && prevSegEnd == st.prevSegEnd
        invariant samples == st.samples && mapping == st.mapping && cursor == st.cursor
      {
        var segStart, segEnd := Max(ivs[i].start, prevSegEnd), ivs[i].end;
        st := Step(original, st, ivs[i], if i < n - 1 then GAP else 0);
        if segEnd > segStart {
          prevSegEnd := segEnd;
          var gatedStart := cursor;
          samples := samples + original[segStart..segEnd];
          cursor := cursor + (segEnd - segStart);
          mapping := mapping + [SegmentMapping(gatedStart, cursor, segStart, segEnd)];
          if i < n - 1 {
            samples := samples + Silence(GAP);
            cursor := cursor + GAP;
          } else {
            assert samples + Silence(0) == samples;
          }
        }
      }
    }

    /** Offset in the original buffer of a decoder time, by the mapping of the last `Cut`. */
    method ToOriginalSamples(cs: int) returns (x: int)
      ensures x == MapBack(mapping, 160 * cs, originalTotalSamples)
    {
      x := MapGatedToOriginalSamples(mapping, cs * SAMPLES_PER_CS, originalTotalSamples);
    }
  }

  function MappingAfter(original: seq<real>, outcome: VadOutcome, pad: int): seq<SegmentMapping> {
    if original != [] && outcome.Detected? then Layout(Kept(PaddedAll(outcome.segments, pad, |original|))) else []
  }

  function SamplesAfter(original: seq<real>, outcome: VadOutcome, pad: int): seq<real> {
    if original != [] && outcome.Detected? && outcome.segments != []
    then GatedSamples(original, PaddedAll(outcome.segments, pad, |original|))
    else []
  }
}
