/**
  High-pass filter and peak normalisation (src/utils/AudioPreprocessor.h), over exact reals.

  `Process` rewrites the chunk in place with two loops. It is specified by `Prepared`, and the
  lemmas below say what that means: the filter subtracts an exponential moving average, it does
  not notice how the stream was cut into chunks, and the gain never pushes a chunk past 0.9.
*/
module AudioPreprocessor {

  const ALPHA: real := 0.969

  /** The two values carried from one call to the next. */
  datatype FilterState = FilterState(prevRaw: real, prevFiltered: real)

  const REST := FilterState(0.0, 0.0)

  function Abs(x: real): real {
    if x < 0.0 then -x else x
  }

  function FilterSample(st: FilterState, raw: real): real {
    ALPHA * (st.prevFiltered + raw - st.prevRaw)
  }

  function Advance(st: FilterState, xs: seq<real>): FilterState {
    if xs == [] then st
    else
      var before := Advance(st, xs[..|xs| - 1]);
      var raw := xs[|xs| - 1];
      FilterState(raw, FilterSample(before, raw))
  }

  function Filtered(st: FilterState, xs: seq<real>): (ys: seq<real>)
    ensures |ys| == |xs|
  {
    if xs == [] then []
    else
      var init := xs[..|xs| - 1];
      Filtered(st, init) + [FilterSample(Advance(st, init), xs[|xs| - 1])]
  }

  function Max(a: real, b: real): real {
    if a < b then b else a
  }

  /** Largest magnitude, 0 for the empty chunk. */
  function Peak(ys: seq<real>): real {
    if ys == [] then 0.0
    else
      Max(Peak(ys[..|ys| - 1]), Abs(ys[|ys| - 1]))
  }

  /** `Peak` is the least upper bound of the magnitudes. */
  lemma {:induction false} PeakIsLeastBound(ys: seq<real>, bound: real)
    requires 0.0 <= bound
    ensures Peak(ys) <= bound <==> forall i :: 0 <= i < |ys| ==> Abs(ys[i]) <= bound
  {
    if ys != [] {
      var init := ys[..|ys| - 1];
      PeakIsLeastBound(init, bound);
      assert forall i :: 0 <= i < |init| ==> ys[i] == init[i];
    }
  }

  predicate NeedsGain(peak: real) {
    0.02 < peak < 0.9
  }

  function Gain(peak: real): real
    requires NeedsGain(peak)
  {
    if 0.9 / peak < 4.0 then 0.9 / peak else 4.0
  }

  function Amplify(sample: real, gain: real): real {
    sample * gain
  }

  function Scaled(ys: seq<real>, gain: real): (zs: seq<real>)
    ensures |zs| == |ys|
  {
    if ys == [] then [] else Scaled(ys[..|ys| - 1], gain) + [Amplify(ys[|ys| - 1], gain)]
  }

  function Normalized(ys: seq<real>): (zs: seq<real>)
    ensures |zs| == |ys|
  {
    var peak := Peak(ys);
    if NeedsGain(peak) then Scaled(ys, Gain(peak)) else ys
  }

  function Prepared(st: FilterState, xs: seq<real>): (zs: seq<real>)
    ensures |zs| == |xs|
  {
    Normalized(Filtered(st, xs))
  }

  lemma OneMoreSample(st: FilterState, xs: seq<real>, i: nat)
    requires i < |xs|
    ensures Filtered(st, xs[..i + 1]) == Filtered(st, xs[..i]) + [FilterSample(Advance(st, xs[..i]), xs[i])]
    ensures Advance(st, xs[..i + 1]) == FilterState(xs[i], FilterSample(Advance(st, xs[..i]), xs[i]))
  {
    assert xs[..i + 1][..i] == xs[..i];
  }

  method Process(pcm: array<real>, prevRaw: real, prevFiltered: real) returns (raw': real, filtered': real)
    modifies pcm
    ensures pcm[..] == Prepared(FilterState(prevRaw, prevFiltered), old(pcm[..]))
    ensures FilterState(raw', filtered') == Advance(FilterState(prevRaw, prevFiltered), old(pcm[..]))
  {
    ghost var st := FilterState(prevRaw, prevFiltered);
    ghost var xs := pcm[..];
    var peak;
    raw', filtered', peak := FilterInPlace(pcm, prevRaw, prevFiltered);
    if NeedsGain(peak) {
      ScaleInPlace(pcm, Gain(peak));
    }
  }

  /** The first loop of `Process`. */
  method FilterInPlace(pcm: array<real>, prevRaw: real, prevFiltered: real)
    returns (raw': real, filtered': real, peak: real)
    modifies pcm
    ensures pcm[..] == Filtered(FilterState(prevRaw, prevFiltered), old(pcm[..]))
    ensures FilterState(raw', filtered') == Advance(FilterState(prevRaw, prevFiltered), old(pcm[..]))
    ensures peak == Peak(pcm[..])
  {
    ghost var st := FilterState(prevRaw, prevFiltered);
    ghost var xs := pcm[..];
    raw', filtered', peak := prevRaw, prevFiltered, 0.0;
    for i := 0 to pcm.Length
      invariant FilterState(raw', filtered') == Advance(st, xs[..i])
      invariant pcm[..i] == Filtered(st, xs[..i])
      invariant forall k :: i <= k < pcm.Length ==> pcm[k] == xs[k]
      invariant peak == Peak(pcm[..i])
    {
      OneMoreSample(st, xs, i);
      ghost var done := pcm[..i];
      var raw := pcm[i];
      var filtered := FilterSample(FilterState(raw', filtered'), raw);
      raw', filtered' := raw, filtered;
      pcm[i] := filtered;
      assert pcm[..i + 1] == done + [filtered] && pcm[..i + 1][..i] == done;
      if peak < Abs(filtered) {
        peak := Abs(filtered);
      }
    }
    assert xs[..pcm.Length] == xs && pcm[..pcm.Length] == pcm[..];
  }

  /** The second loop of `Process`. */
  method ScaleInPlace(pcm: array<real>, gain: real)
    modifies pcm
    ensures pcm[..] == Scaled(old(pcm[..]), gain)
  {
    ghost var ys := pcm[..];
    for i := 0 to pcm.Length
      invariant pcm[..i] == Scaled(ys[..i], gain)
      invariant forall k :: i <= k < pcm.Length ==> pcm[k] == ys[k]
    {
      ghost var done := pcm[..i];
      pcm[i] := Amplify(pcm[i], gain);
      assert pcm[..i + 1] == done + [Amplify(ys[i], gain)] && ys[..i + 1][..i] == ys[..i];
    }
    assert ys[..pcm.Length] == ys && pcm[..pcm.Length] == pcm[..];
  }

  // ---------------------------------------------------------------- chunking

  /** Filtering a concatenation is filtering the pieces with the state carried across. */
  lemma {:induction false} FilterSplits(st: FilterState, a: seq<real>, b: seq<real>)
    ensures Advance(st, a + b) == Advance(Advance(st, a), b)
    ensures Filtered(st, a + b) == Filtered(st, a) + Filtered(Advance(st, a), b)
    decreases |b|
  {
    if b == [] {
      assert a + b == a;
    } else {
      var init := b[..|b| - 1];
      assert (a + b)[..|a + b| - 1] == a + init;
      FilterSplits(st, a, init);
    }
  }

  function Flatten(chunks: seq<seq<real>>): seq<real> {
    if chunks == [] then [] else Flatten(chunks[..|chunks| - 1]) + chunks[|chunks| - 1]
  }

  /** State left behind by one call per chunk. */
  function AdvanceChunks(st: FilterState, chunks: seq<seq<real>>): FilterState {
    if chunks == [] then st
    else Advance(AdvanceChunks(st, chunks[..|chunks| - 1]), chunks[|chunks| - 1])
  }

  /** What the filter stage writes, one call per chunk. */
  function FilteredChunks(st: FilterState, chunks: seq<seq<real>>): seq<real> {
    if chunks == [] then []
    else
      var init := chunks[..|chunks| - 1];
      FilteredChunks(st, init) + Filtered(AdvanceChunks(st, init), chunks[|chunks| - 1])
  }

  /** However a stream is cut into calls, state and filter output are those of a single pass. */
  lemma {:induction false} ChunkingIsInvisible(st: FilterState, chunks: seq<seq<real>>)
    ensures AdvanceChunks(st, chunks) == Advance(st, Flatten(chunks))
    ensures FilteredChunks(st, chunks) == Filtered(st, Flatten(chunks))
  {
    if chunks != [] {
      var init := chunks[..|chunks| - 1];
      ChunkingIsInvisible(st, init);
      FilterSplits(st, Flatten(init), chunks[|chunks| - 1]);
    }
  }

  // ---------------------------------------------------------------- what the filter computes

  /** Exponential moving average of the raw signal, each sample weighing 0.031, started at `start`. */
  function Average(start: real, xs: seq<real>): real {
    if xs == [] then start
    else 0.969 * Average(start, xs[..|xs| - 1]) + 0.031 * xs[|xs| - 1]
  }

  /** The recurrence is a high-pass filter: raw minus its exponential moving average. */
  lemma {:induction false} FilterSubtractsAverage(st: FilterState, xs: seq<real>)
    ensures var after := Advance(st, xs);
      after.prevRaw - after.prevFiltered == Average(st.prevRaw - st.prevFiltered, xs)
    ensures forall i :: 0 <= i < |xs| ==>
      Filtered(st, xs)[i] == xs[i] - Average(st.prevRaw - st.prevFiltered, xs[..i + 1])
  {
    if xs != [] {
      var init := xs[..|xs| - 1];
      FilterSubtractsAverage(st, init);
      forall i | 0 <= i < |xs|
        ensures Filtered(st, xs)[i] == xs[i] - Average(st.prevRaw - st.prevFiltered, xs[..i + 1])
      {
        if i < |init| {
          assert xs[..i + 1] == init[..i + 1];
          assert Filtered(st, xs)[i] == Filtered(st, init)[i];
        } else {
          assert xs[..i + 1] == xs;
        }
      }
    }
  }

  predicate InRange(xs: seq<real>) {
    forall i :: 0 <= i < |xs| ==> -1.0 <= xs[i] <= 1.0
  }

  lemma {:induction false} AverageInRange(start: real, xs: seq<real>)
    requires -1.0 <= start <= 1.0 && InRange(xs)
    ensures -1.0 <= Average(start, xs) <= 1.0
  {
    if xs != [] {
      AverageInRange(start, xs[..|xs| - 1]);
    }
  }

  lemma SampleBound(xs: seq<real>, i: nat)
    requires InRange(xs) && i < |xs|
    ensures var y := xs[i] - Average(0.0, xs[..i + 1]);
      Abs(y - xs[i]) <= 1.0 && Abs(y) <= 1.938
  {
    AverageInRange(0.0, xs[..i]);
    AverageInRange(0.0, xs[..i + 1]);
    assert xs[..i + 1][..i] == xs[..i];
    assert xs[i] - Average(0.0, xs[..i + 1]) == 0.969 * (xs[i] - Average(0.0, xs[..i]));
  }

  predicate Bounded(xs: seq<real>, ys: seq<real>) {
    |ys| == |xs| && forall i :: 0 <= i < |xs| ==> Abs(ys[i] - xs[i]) <= 1.0 && Abs(ys[i]) <= 1.938
  }

  lemma FilteredIsBounded(xs: seq<real>, ys: seq<real>)
    requires InRange(xs) && ys == Filtered(REST, xs)
    ensures Bounded(xs, ys)
  {
    FilterSubtractsAverage(REST, xs);
    forall i | 0 <= i < |xs| ensures Abs(ys[i] - xs[i]) <= 1.0 && Abs(ys[i]) <= 1.938 {
      SampleBound(xs, i);
    }
  }

  /** Amplitude bounds for any chunking of an in-range stream from rest. */
  lemma FilterBound(chunks: seq<seq<real>>)
    requires InRange(Flatten(chunks))
    ensures Bounded(Flatten(chunks), FilteredChunks(REST, chunks))
  {
    ChunkingIsInvisible(REST, chunks);
    FilteredIsBounded(Flatten(chunks), FilteredChunks(REST, chunks));
  }

  // ---------------------------------------------------------------- normalisation

  lemma AmplifyKeepsOrder(x: real, p: real, k: real)
    requires 0.0 < k && Abs(x) <= p
    ensures Abs(Amplify(x, k)) <= Amplify(p, k)
    ensures Abs(x) == p ==> Abs(Amplify(x, k)) == Amplify(p, k)
  {
    assert (p - x) * k >= 0.0 && (p + x) * k >= 0.0;
  }

  lemma GainIsExact(peak: real)
    requires NeedsGain(peak)
    ensures 1.0 < Gain(peak) <= 4.0
    ensures Amplify(peak, Gain(peak)) == if 4.0 * peak < 0.9 then 4.0 * peak else 0.9
  {
    var ratio := 0.9 / peak;
    assert peak * ratio == 0.9;
    assert 1.0 < ratio;
    if ratio < 4.0 {
      assert peak * (4.0 - ratio) > 0.0;
    } else {
      assert peak * (ratio - 4.0) >= 0.0;
    }
  }

  lemma {:induction false} ScaledAt(ys: seq<real>, gain: real, i: nat)
    requires i < |ys|
    ensures Scaled(ys, gain)[i] == Amplify(ys[i], gain)
  {
    if i < |ys| - 1 {
      ScaledAt(ys[..|ys| - 1], gain, i);
    }
  }

  /** The peak of a chunk that is not silent is the magnitude of one of its samples. */
  lemma {:induction false} PeakIsReached(ys: seq<real>) returns (i: nat)
    requires Peak(ys) > 0.0
    ensures i < |ys| && Abs(ys[i]) == Peak(ys)
  {
    i := |ys| - 1;
    if Abs(ys[i]) != Peak(ys) {
      i := PeakIsReached(ys[..|ys| - 1]);
    }
  }

  /**
    Exactly the chunks with a peak between 0.02 and 0.9 are amplified, by one factor above 1; the new
    peak is min(0.9, 4 * old peak), so no amplified sample exceeds 0.9.
  */
  lemma NormalizedPeak(ys: seq<real>)
    ensures !(0.02 < Peak(ys) < 0.9) ==> Normalized(ys) == ys
    ensures 0.02 < Peak(ys) < 0.9 ==>
      && Peak(Normalized(ys)) == (if 4.0 * Peak(ys) < 0.9 then 4.0 * Peak(ys) else 0.9)
      && (forall i :: 0 <= i < |ys| ==> Abs(Normalized(ys)[i]) <= 0.9)
      && exists gain :: 1.0 < gain <= 4.0 && Normalized(ys) == Scaled(ys, gain)
  {
    var peak := Peak(ys);
    if NeedsGain(peak) {
      GainIsExact(peak);
      PeakAfterGain(ys, Gain(peak), Amplify(peak, Gain(peak)));
      PeakIsLeastBound(Normalized(ys), 0.9);
    }
  }

  lemma PeakAfterGain(ys: seq<real>, gain: real, top: real)
    requires Peak(ys) > 0.0 && gain > 0.0 && top == Amplify(Peak(ys), gain) >= 0.0
    ensures Peak(Scaled(ys, gain)) == top
  {
    var zs := Scaled(ys, gain);
    var i := PeakIsReached(ys);
    PeakIsLeastBound(ys, Peak(ys));
    forall j | 0 <= j < |zs| ensures Abs(zs[j]) <= top {
      ScaledAt(ys, gain, j);
      AmplifyKeepsOrder(ys[j], Peak(ys), gain);
    }
    PeakIsLeastBound(zs, top);
    ScaledAt(ys, gain, i);
    AmplifyKeepsOrder(ys[i], Peak(ys), gain);
    PeakIsLeastBound(zs, Peak(zs));
  }
}
