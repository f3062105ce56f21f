/**
  The byte-rate window of a session (src/server/StreamingSession.h:299-318): bytes are counted as
  they come, and looked at only by the first frame three or more seconds into the window.
*/
module ByteRate {
  import Common

  const NS_PER_SECOND := 1000000000
  const WINDOW_SECONDS := 3
  const MAX_BYTES_PER_WINDOW := 614400  // 200 * 1024 * 3
  const BYTES_PER_SECOND := 204800

  /** Bytes counted in the window and when the window began, in nanoseconds. */
  datatype Rate = Rate(bytes: nat, start: int)

  datatype Frame = Frame(size: nat, now: int)

  predicate WindowOver(rate: Rate, now: int) {
    Common.TruncDiv(now - rate.start, NS_PER_SECOND) >= WINDOW_SECONDS
  }

  /** The frame that finds a completed window over its limit. */
  predicate Exceeds(rate: Rate, frame: Frame) {
    WindowOver(rate, frame.now) && rate.bytes + frame.size > MAX_BYTES_PER_WINDOW
  }

  function Counted(rate: Rate, frame: Frame): Rate {
    if WindowOver(rate, frame.now) && !Exceeds(rate, frame) then Rate(0, frame.now)
    else Rate(rate.bytes + frame.size, rate.start)
  }

  /** A session's frames so far: the window, and how many bytes have been passed on. */
  datatype Intake = Intake(rate: Rate, passed: nat)

  /** Every frame is counted; one that exceeds its window is not passed on. */
  function Take(s: Intake, frame: Frame): Intake {
    Intake(Counted(s.rate, frame), s.passed + if Exceeds(s.rate, frame) then 0 else frame.size)
  }

  function TakeAll(began: int, frames: seq<Frame>): Intake {
    if frames == [] then Intake(Rate(0, began), 0)
    else Take(TakeAll(began, frames[..|frames| - 1]), frames[|frames| - 1])
  }

  function Total(frames: seq<Frame>): nat {
    if frames == [] then 0 else Total(frames[..|frames| - 1]) + frames[|frames| - 1].size
  }

  predicate Monotone(began: int, frames: seq<Frame>) {
    && (forall i :: 0 <= i < |frames| ==> began <= frames[i].now)
    && (forall i, j :: 0 <= i < j < |frames| ==> frames[i].now <= frames[j].now)
  }

  predicate ExceedsAt(began: int, frames: seq<Frame>, k: int) {
    0 <= k < |frames| && Exceeds(TakeAll(began, frames[..k]).rate, frames[k])
  }

  /** Everything passed on before the current window fits the rate; the window counts at least the rest. */
  predicate Within(began: int, s: Intake) {
    (s.passed - s.rate.bytes) * NS_PER_SECOND <= BYTES_PER_SECOND * (s.rate.start - began)
  }

  lemma TakeKeepsWithin(began: int, s: Intake, frame: Frame)
    requires Within(began, s) && s.rate.start <= frame.now
    ensures Within(began, Take(s, frame))
    ensures s.rate.start <= Take(s, frame).rate.start <= frame.now
  {
    if WindowOver(s.rate, frame.now) && !Exceeds(s.rate, frame) {
      assert frame.now - s.rate.start >= WINDOW_SECONDS * NS_PER_SECOND;
    }
  }

  /** At any time on a clock that does not run backwards, what was passed on fits the rate but for the open window. */
  lemma {:induction false} IntakeIsWithin(began: int, frames: seq<Frame>)
    requires Monotone(began, frames)
    ensures var s := TakeAll(began, frames);
      && Within(began, s) && began <= s.rate.start && (frames != [] ==> s.rate.start <= frames[|frames| - 1].now)
  {
    if frames != [] {
      var init, last := frames[..|frames| - 1], frames[|frames| - 1];
      IntakeIsWithin(began, init);
      if init != [] {
        assert init[|init| - 1] == frames[|frames| - 2];
      }
      TakeKeepsWithin(began, TakeAll(began, init), last);
    }
  }

  // ---------------------------------------------------------------- an exceeded window

  predicate SameButCounted(s: Intake, s': Intake) {
    s'.passed == s.passed && s'.rate.start == s.rate.start
  }

  /** A window once exceeded is never left: the next frame finds it exceeded too. */
  lemma NextExceedsToo(s: Intake, frame: Frame, s': Intake, next: Frame)
    requires Exceeds(s.rate, frame) && s' == Take(s, frame) && frame.now <= next.now
    ensures Exceeds(s'.rate, next) && SameButCounted(s, s')
  {
  }

  lemma TakenAt(began: int, frames: seq<Frame>, j: nat, next: nat)
    requires j < |frames| && next == j + 1
    ensures TakeAll(began, frames[..next]) == Take(TakeAll(began, frames[..j]), frames[j])
  {
    assert frames[..next][..j] == frames[..j];
  }

  lemma {:induction false} LaterExceedToo(began: int, frames: seq<Frame>, k: nat, j: nat)
    requires Monotone(began, frames) && ExceedsAt(began, frames, k) && k <= j < |frames|
    ensures ExceedsAt(began, frames, j)
    ensures SameButCounted(TakeAll(began, frames[..k]), TakeAll(began, frames[..j]))
    decreases j
  {
    if j > k {
      LaterExceedToo(began, frames, k, j - 1);
      TakenAt(began, frames, j - 1, j);
      NextExceedsToo(TakeAll(began, frames[..j - 1]), frames[j - 1], TakeAll(began, frames[..j]), frames[j]);
    }
  }

  /**
    On a clock that does not run backwards, once a frame exceeds its window every later frame does, so
    nothing is passed on any more, whether or not closing the connection works.
  */
  lemma ExcessIsForever(began: int, frames: seq<Frame>, k: nat, j: nat)
    requires Monotone(began, frames) && ExceedsAt(began, frames, k) && k <= j < |frames|
    ensures ExceedsAt(began, frames, j)
    ensures SameButCounted(TakeAll(began, frames[..k]), TakeAll(began, frames[..j + 1]))
  {
    LaterExceedToo(began, frames, k, j);
    TakenAt(began, frames, j, j + 1);
  }

  /** A frame is passed on if and only if neither it nor any frame before it exceeds its window. */
  lemma PassedExactlyBeforeAnyExcess(began: int, frames: seq<Frame>, j: nat)
    requires Monotone(began, frames) && j < |frames|
    ensures var before, after := TakeAll(began, frames[..j]), TakeAll(began, frames[..j + 1]);
      after.passed == before.passed + if exists k :: 0 <= k <= j && ExceedsAt(began, frames, k) then 0 else frames[j].size
  {
    TakenAt(began, frames, j, j + 1);
    if k :| 0 <= k <= j && ExceedsAt(began, frames, k) {
      ExcessIsForever(began, frames, k, j);
    } else {
      assert !ExceedsAt(began, frames, j);
    }
  }

  lemma {:induction false} AllPassedWithoutExcess(began: int, frames: seq<Frame>)
    requires forall k :: !ExceedsAt(began, frames, k)
    ensures TakeAll(began, frames).passed == Total(frames)
  {
    if frames != [] {
      var n := |frames| - 1;
      forall k ensures !ExceedsAt(began, frames[..n], k) {
        if 0 <= k < n {
          assert frames[..n][..k] == frames[..k] && !ExceedsAt(began, frames, k);
        }
      }
      AllPassedWithoutExcess(began, frames[..n]);
      assert !ExceedsAt(began, frames, n);
    }
  }

  /**
    Up to any reset of the window, every byte that came in has been passed on, and they are at most
    204800 for each second elapsed since the session began.
  */
  lemma ByteRateBound(began: int, frames: seq<Frame>, frame: Frame)
    requires Monotone(began, frames + [frame])
    requires WindowOver(TakeAll(began, frames).rate, frame.now) && !Exceeds(TakeAll(began, frames).rate, frame)
    ensures var s := TakeAll(began, frames + [frame]);
      && s.rate == Rate(0, frame.now) && s.passed == Total(frames + [frame])
      && Total(frames + [frame]) * NS_PER_SECOND <= BYTES_PER_SECOND * (frame.now - began)
  {
    var all, n := frames + [frame], |frames|;
    assert all[..n] == frames && all[n] == frame;
    IntakeIsWithin(began, all);
    assert !ExceedsAt(began, all, n);
    forall k ensures !ExceedsAt(began, all, k) {
      if ExceedsAt(began, all, k) {
        ExcessIsForever(began, all, k, n);
      }
    }
    AllPassedWithoutExcess(began, all);
  }

  // ---------------------------------------------------------------- who is refused

  /** When a window begins that frame `w` is the first to be counted in. */
  function BeganAt(began: int, frames: seq<Frame>, w: nat): int
    requires w <= |frames|
  {
    if w == 0 then began else frames[w - 1].now
  }

  ghost predicate NoExcess(began: int, frames: seq<Frame>) {
    forall k :: !ExceedsAt(began, frames, k)
  }

  lemma NoExcessBefore(began: int, frames: seq<Frame>, n: nat)
    requires n <= |frames| && forall k :: k < n ==> !ExceedsAt(began, frames, k)
    ensures NoExcess(began, frames[..n])
  {
    forall k ensures !ExceedsAt(began, frames[..n], k) {
      if 0 <= k < n {
        assert frames[..n][..k] == frames[..k] && !ExceedsAt(began, frames, k);
      }
    }
  }

  lemma TotalOneMore(frames: seq<Frame>, frame: Frame)
    ensures Total(frames + [frame]) == Total(frames) + frame.size
  {
    assert (frames + [frame])[..|frames|] == frames;
  }

  /** The window holds exactly the frames from `w` on, all of them within three seconds. */
  predicate Counts(began: int, frames: seq<Frame>, rate: Rate, w: nat) {
    && w <= |frames| && rate.start == BeganAt(began, frames, w) && rate.bytes == Total(frames[w..])
    && (w < |frames| ==> frames[|frames| - 1].now - rate.start < 3000000000)
  }

  lemma CountsOn(began: int, frames: seq<Frame>, rate: Rate, v: nat, last: Frame, all: seq<Frame>)
    requires Counts(began, frames, rate, v) && !WindowOver(rate, last.now) && all == frames + [last]
    ensures Counts(began, all, Rate(rate.bytes + last.size, rate.start), v)
  {
    TotalOneMore(frames[v..], last);
    assert frames[v..] + [last] == all[v..];
    assert BeganAt(began, all, v) == BeganAt(began, frames, v);
  }

  lemma CountsOneMore(began: int, frames: seq<Frame>, rate: Rate, v: nat, last: Frame) returns (w: nat)
    requires Counts(began, frames, rate, v) && !Exceeds(rate, last)
    ensures Counts(began, frames + [last], Counted(rate, last), w)
  {
    var all := frames + [last];
    w := v;
    if WindowOver(rate, last.now) {
      w := |all|;
      assert all[w..] == [];
    } else {
      CountsOn(began, frames, rate, v, last, all);
    }
  }

  /** As long as nothing has been refused, the window begins with one of the frames or with the session. */
  lemma {:induction false} WindowCounts(began: int, frames: seq<Frame>) returns (w: nat)
    requires Monotone(began, frames) && NoExcess(began, frames)
    ensures Counts(began, frames, TakeAll(began, frames).rate, w)
  {
    w := 0;
    if frames != [] {
      var n := |frames| - 1;
      var init, last := frames[..n], frames[n];
      NoExcessBefore(began, frames, n);
      assert !ExceedsAt(began, frames, n);
      IntakeIsWithin(began, init);
      var v := WindowCounts(began, init);
      w := CountsOneMore(began, init, TakeAll(began, init).rate, v, last);
      assert init + [last] == frames;
    }
  }

  /**
    The first frame to be refused is the first one three seconds or more into its window, if the frames
    of that window and itself come to more than 614400 bytes, and no other.
  */
  lemma ExceedsExactlyIf(began: int, frames: seq<Frame>, frame: Frame) returns (w: nat)
    requires Monotone(began, frames) && NoExcess(began, frames) && began <= frame.now
    requires frames != [] ==> frames[|frames| - 1].now <= frame.now
    ensures w <= |frames| && (w < |frames| ==> frames[|frames| - 1].now - BeganAt(began, frames, w) < 3000000000)
    ensures Exceeds(TakeAll(began, frames).rate, frame) <==>
      frame.now - BeganAt(began, frames, w) >= 3000000000 && Total(frames[w..]) + frame.size > 614400
  {
    w := WindowCounts(began, frames);
  }

  /** Frames that begin within three seconds, and the one after them, come to at most 614400 bytes. */
  predicate Light(began: int, frames: seq<Frame>, w: nat, k: nat)
    requires w <= k < |frames|
  {
    (w < k ==> frames[k - 1].now - BeganAt(began, frames, w) < 3000000000) ==>
      Total(frames[w..k]) + frames[k].size <= 614400
  }

  /** Who never sends more than that is never refused. */
  lemma {:induction false} LightLoadIsNeverRefused(began: int, frames: seq<Frame>, k: nat)
    requires Monotone(began, frames) && forall w: nat, j: nat :: w <= j < |frames| ==> Light(began, frames, w, j)
    requires k < |frames|
    ensures !ExceedsAt(began, frames, k)
  {
    forall j | j < k ensures !ExceedsAt(began, frames, j) {
      if 0 <= j {
        LightLoadIsNeverRefused(began, frames, j);
      }
    }
    var init := frames[..k];
    NoExcessBefore(began, frames, k);
    var w := ExceedsExactlyIf(began, init, frames[k]);
    assert init[w..] == frames[w..k] && BeganAt(began, init, w) == BeganAt(began, frames, w);
    assert Light(began, frames, w, k);
  }
}
