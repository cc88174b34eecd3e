/**
  The frame timeline of an animation clip (AnimationClipData.Len / To and the
  frame-speed list they read): a list of (frame, value) pairs sorted by frame
  says that from `frame` on the animation plays at `value` times its frame rate;
  before the first entry it plays at rate 1.
*/
module Timeline {
  import opened Time

  datatype FrameValue = FrameValue(frame: real, value: real)

  /** The engine's animation asset: its length in seconds and frames per second. */
  datatype Asset = Asset(length: real, frameRate: real)
  type AnimationAsset = a: Asset | a.length >= 0.0 && a.frameRate > 0.0 witness Asset(0.0, 1.0)

  function FrameCount(a: AnimationAsset): (r: real)
    ensures r >= 0.0
  {
    a.length * a.frameRate
  }

  /** No entry has speed 0 (Len and To divide by every value). */
  predicate NonZero(s: seq<FrameValue>) {
    forall i :: 0 <= i < |s| ==> s[i].value != 0.0
  }

  /** Every entry speeds the animation up or slows it down, never backwards. */
  predicate Positive(s: seq<FrameValue>) {
    forall i :: 0 <= i < |s| ==> s[i].value > 0.0
  }

  predicate SortedByFrame(s: seq<FrameValue>) {
    forall i, j :: 0 <= i < j < |s| ==> s[i].frame <= s[j].frame
  }

  /** Every entry names a frame inside the clip. */
  predicate InClip(s: seq<FrameValue>, frameCount: real) {
    forall i :: 0 <= i < |s| ==> 0.0 <= s[i].frame < frameCount
  }

  /** An entry that AnimationClipData.Verify keeps: nonzero speed, a frame inside
      the clip, and not the redundant (0, 1) entry. */
  predicate Kept(x: FrameValue, frameCount: real) {
    !(x.value == 0.0 || x.frame < 0.0 || x.frame >= frameCount || (x.frame == 0.0 && x.value == 1.0))
  }

  /** `frameSpeeds.RemoveAll(...)`: drop the entries Verify does not keep, in order. */
  function Prune(s: seq<FrameValue>, frameCount: real): (r: seq<FrameValue>)
    ensures forall i :: 0 <= i < |r| ==> Kept(r[i], frameCount)
    ensures forall x :: x in r <==> x in s && Kept(x, frameCount)
    ensures (forall i :: 0 <= i < |s| ==> Kept(s[i], frameCount)) ==> r == s
  {
    if |s| == 0 then []
    else if Kept(s[0], frameCount) then [s[0]] + Prune(s[1..], frameCount)
    else Prune(s[1..], frameCount)
  }

  /** Places `x` before the first entry whose frame is not smaller. */
  function InsertByFrame(x: FrameValue, s: seq<FrameValue>): (r: seq<FrameValue>)
    requires SortedByFrame(s)
    ensures SortedByFrame(r)
    ensures multiset(r) == multiset(s) + multiset{x}
    ensures r[0] == x || (|s| > 0 && r[0] == s[0])
    ensures |s| > 0 && x.frame <= s[0].frame ==> r == [x] + s
  {
    if |s| == 0 || x.frame <= s[0].frame then [x] + s
    else
      var t := InsertByFrame(x, s[1..]);
      assert s == [s[0]] + s[1..];
      assert s[0].frame <= t[0].frame;
      [s[0]] + t
  }

  /** `frameSpeeds.Sort(by frame)`, as a stable insertion sort. */
  function SortByFrame(s: seq<FrameValue>): (r: seq<FrameValue>)
    ensures SortedByFrame(r)
    ensures multiset(r) == multiset(s)
    ensures SortedByFrame(s) ==> r == s
  {
    if |s| == 0 then []
    else
      var t := SortByFrame(s[1..]);
      assert s == [s[0]] + s[1..];
      SortedTail(s);
      InsertByFrame(s[0], t)
  }

  /** A sorted list stays sorted without its head, and its head comes first. */
  lemma SortedTail(s: seq<FrameValue>)
    requires |s| > 0
    ensures SortedByFrame(s) ==> SortedByFrame(s[1..]) && (|s| > 1 ==> s[0].frame <= s[1..][0].frame)
  {
  }

  /** The list AnimationClipData.Verify leaves: pruned, then sorted. */
  function Normalise(s: seq<FrameValue>, frameCount: real): (r: seq<FrameValue>)
    ensures SortedByFrame(r)
    ensures forall i :: 0 <= i < |r| ==> Kept(r[i], frameCount)
    ensures NonZero(r) && InClip(r, frameCount)
    ensures multiset(r) == multiset(Prune(s, frameCount))
    ensures forall x :: x in r <==> x in s && Kept(x, frameCount)
  {
    var p := Prune(s, frameCount);
    var r := SortByFrame(p);
    assert forall x :: x in r <==> x in multiset(p);
    assert forall i :: 0 <= i < |r| ==> Kept(r[i], frameCount) by {
      forall i | 0 <= i < |r| ensures Kept(r[i], frameCount) {
        assert r[i] in multiset(p);
      }
    }
    r
  }

  /** Verify's normalisation keeps positive speeds positive. */
  lemma NormaliseKeepsPositive(s: seq<FrameValue>, frameCount: real)
    requires Positive(s)
    ensures Positive(Normalise(s, frameCount))
  {
    var r := Normalise(s, frameCount);
    forall i | 0 <= i < |r| ensures r[i].value > 0.0 {
      assert r[i] in r;
    }
  }

  lemma {:induction false} NormaliseIdempotent(s: seq<FrameValue>, frameCount: real)
    ensures Normalise(Normalise(s, frameCount), frameCount) == Normalise(s, frameCount)
  {
    var r := Normalise(s, frameCount);
    assert Prune(r, frameCount) == r;
  }

  /** The speed entry in force before entry `i`: the default (0, 1) for the first. */
  function Previous(speeds: seq<FrameValue>, i: nat): FrameValue
    requires i < |speeds|
  {
    if i == 0 then FrameValue(0.0, 1.0) else speeds[i - 1]
  }

  /** Seconds needed to play `frames` frames at `v` times the frame rate `fr`. */
  function Seconds(frames: real, fr: real, v: real): real
    requires fr > 0.0 && v != 0.0
  {
    frames / (fr * v)
  }

  /**
    The frame reached inside a segment of `frames` frames starting at `beg`, when
    `length` seconds were walked before it and the segment itself takes `len`.
  */
  function Reach(duration: real, length: real, len: real, beg: real, frames: real): real
    requires len != 0.0
  {
    (duration - (length + len) + len) / len * frames + beg
  }

  /**
    AnimationClipData.Len(from, to): the seconds it takes to play from `from`
    to `to`, both clamped into the clip.  A reversed or empty range takes no
    time, and with positive speeds sorted by frame no range takes negative time.
  */
  function Len(asset: AnimationAsset, speeds: seq<FrameValue>, from0: real, to0: real): (r: real)
    requires NonZero(speeds)
    ensures Clamp(to0, 0.0, FrameCount(asset)) <= Clamp(from0, 0.0, FrameCount(asset)) ==> r == 0.0
    ensures Positive(speeds) && SortedByFrame(speeds) && InClip(speeds, FrameCount(asset)) ==> r >= 0.0
  {
    var fc := FrameCount(asset);
    var from := Clamp(from0, 0.0, fc);
    var to := Clamp(to0, 0.0, fc);
    if from < to then
      LenScanNonNegative(asset.frameRate, fc, speeds, from, to, 0);
      (if |speeds| == 0 then (to - from) / asset.frameRate else 0.0) + LenScan(asset.frameRate, speeds, from, to, 0)
    else 0.0
  }

  /** The loop of Len from entry `i` on, including its `break` once an entry lies past `to`. */
  function LenScan(fr: real, speeds: seq<FrameValue>, from: real, to: real, i: nat): real
    requires fr > 0.0 && NonZero(speeds)
    decreases |speeds| - i
  {
    if i >= |speeds| then 0.0
    else
      var frame := speeds[i].frame;
      var last := Previous(speeds, i);
      var segment := if frame > from then Seconds(MinReal(frame, to) - MaxReal(last.frame, from), fr, last.value) else 0.0;
      var tail := if i == |speeds| - 1 && to > frame then Seconds(to - MaxReal(speeds[i].frame, from), fr, speeds[i].value) else 0.0;
      segment + tail + (if frame > to then 0.0 else LenScan(fr, speeds, from, to, i + 1))
  }

  /**
    Every segment the loop of Len adds is nonnegative for positive speeds sorted
    by frame: the entry before the current one never lies past `to`, since the
    loop stops at the first entry that does.
  */
  lemma {:induction false} LenScanNonNegative(fr: real, fc: real, speeds: seq<FrameValue>, from: real, to: real, i: nat)
    requires fr > 0.0 && NonZero(speeds) && 0.0 <= from < to
    requires i > 0 && i <= |speeds| ==> speeds[i - 1].frame <= to
    ensures Positive(speeds) && SortedByFrame(speeds) && InClip(speeds, fc) ==> LenScan(fr, speeds, from, to, i) >= 0.0
    decreases |speeds| - i
  {
    if Positive(speeds) && SortedByFrame(speeds) && InClip(speeds, fc) && i < |speeds| {
      var frame := speeds[i].frame;
      var last := Previous(speeds, i);
      assert last.frame <= frame && last.frame <= to && last.value > 0.0;
      if frame > from {
        SecondsNonNegative(MinReal(frame, to) - MaxReal(last.frame, from), fr, last.value);
      }
      if i == |speeds| - 1 && to > frame {
        SecondsNonNegative(to - MaxReal(speeds[i].frame, from), fr, speeds[i].value);
      }
      if frame <= to {
        LenScanNonNegative(fr, fc, speeds, from, to, i + 1);
      }
    }
  }

  lemma SecondsNonNegative(frames: real, fr: real, v: real)
    requires frames >= 0.0 && fr > 0.0 && v > 0.0
    ensures Seconds(frames, fr, v) >= 0.0
  {
    assert fr * v > 0.0;
  }

  /**
    AnimationClipData.To(from, duration): the frame reached after playing
    `duration` seconds from `from`.  `fixTail` selects the tail branch of the
    loop: false is the code as written, true measures the tail from where the
    playback really starts (see ToAsWritten).
  */
  function ToWith(fixTail: bool, asset: AnimationAsset, speeds: seq<FrameValue>, from0: real, duration0: real): real
    requires NonZero(speeds)
  {
    var fc := FrameCount(asset);
    var from := Clamp(from0, 0.0, fc);
    var duration := MaxReal(duration0, 0.0);
    if duration == 0.0 then from
    else if |speeds| == 0 then MinReal(duration * asset.frameRate + from, fc)
    else ToScan(fixTail, asset.frameRate, fc, speeds, from, duration, 0, 0.0)
  }

  /** The loop of To from entry `i` on, with `length` seconds already walked. */
  function ToScan(fixTail: bool, fr: real, fc: real, speeds: seq<FrameValue>, from: real, duration: real, i: nat, length: real): real
    requires fr > 0.0 && NonZero(speeds) && length < duration
    decreases |speeds| - i
  {
    if i >= |speeds| then fc
    else
      var frame := speeds[i].frame;
      var last := Previous(speeds, i);
      var beg := MaxReal(last.frame, from);
      var len := Seconds(frame - beg, fr, last.value);
      if frame > from && length + len >= duration then
        Reach(duration, length, len, beg, frame - beg)
      else
        var walked := if frame > from then length + len else length;
        if i == |speeds| - 1 && walked < duration then
          var tailBeg := MaxReal(from, frame);
          var tailFrames := if fixTail then fc - tailBeg else fc - frame;
          var tailLen := Seconds(tailFrames, fr, speeds[i].value);
          if walked + tailLen >= duration then
            Reach(duration, walked, tailLen, tailBeg, tailFrames)
          else fc
        else
          ToScan(fixTail, fr, fc, speeds, from, duration, i + 1, walked)
  }

  /**
    AnimationClipData.To exactly as written (Assets/Runner.cs:404-441).  It
    agrees with the corrected To unless the start frame lies past the last
    speed entry, the one case where the tail is measured from the wrong frame.
  */
  function ToAsWritten(asset: AnimationAsset, speeds: seq<FrameValue>, from0: real, duration0: real): (r: real)
    requires NonZero(speeds)
    ensures duration0 <= 0.0 ==> r == Clamp(from0, 0.0, FrameCount(asset))
    ensures |speeds| == 0 || Clamp(from0, 0.0, FrameCount(asset)) <= speeds[|speeds| - 1].frame ==>
      r == To(asset, speeds, from0, duration0)
  {
    var from := Clamp(from0, 0.0, FrameCount(asset));
    var duration := MaxReal(duration0, 0.0);
    if duration == 0.0 || |speeds| == 0 then ToWith(false, asset, speeds, from0, duration0)
    else
      ToScanAgree(asset.frameRate, FrameCount(asset), speeds, from, duration, 0, 0.0);
      ToWith(false, asset, speeds, from0, duration0)
  }

  /** The two tail branches agree when the start frame is not past the last entry. */
  lemma {:induction false} ToScanAgree(fr: real, fc: real, speeds: seq<FrameValue>, from: real, duration: real, i: nat, length: real)
    requires fr > 0.0 && NonZero(speeds) && length < duration
    ensures |speeds| > 0 && from <= speeds[|speeds| - 1].frame ==>
      ToScan(false, fr, fc, speeds, from, duration, i, length) == ToScan(true, fr, fc, speeds, from, duration, i, length)
    decreases |speeds| - i
  {
    if |speeds| > 0 && from <= speeds[|speeds| - 1].frame && i < |speeds| {
      var frame := speeds[i].frame;
      var last := Previous(speeds, i);
      var len := Seconds(frame - MaxReal(last.frame, from), fr, last.value);
      if !(frame > from && length + len >= duration) {
        var walked := if frame > from then length + len else length;
        if !(i == |speeds| - 1 && walked < duration) {
          ToScanAgree(fr, fc, speeds, from, duration, i + 1, walked);
        }
      }
    }
  }

  /**
    AnimationClipData.To with the tail segment measured from the start frame:
    no time leaves the clamped start frame, and with positive speeds inside the
    clip the frame reached lies between the start frame and the clip's end.
  */
  function To(asset: AnimationAsset, speeds: seq<FrameValue>, from0: real, duration0: real): (r: real)
    requires NonZero(speeds)
    ensures duration0 <= 0.0 ==> r == Clamp(from0, 0.0, FrameCount(asset))
    ensures Positive(speeds) && InClip(speeds, FrameCount(asset)) ==>
      Clamp(from0, 0.0, FrameCount(asset)) <= r <= FrameCount(asset)
  {
    var fc := FrameCount(asset);
    var from := Clamp(from0, 0.0, fc);
    var duration := MaxReal(duration0, 0.0);
    if duration == 0.0 then ToWith(true, asset, speeds, from0, duration0)
    else if |speeds| == 0 then
      assert duration * asset.frameRate > 0.0;
      ToWith(true, asset, speeds, from0, duration0)
    else
      ToScanWithinClip(asset.frameRate, fc, speeds, from, duration, 0, 0.0);
      ToWith(true, asset, speeds, from0, duration0)
  }

  /** `r * span + beg` stays in (beg, beg + span] for a ratio in (0, 1]. */
  lemma RatioWithin(r: real, span: real, beg: real)
    requires 0.0 < r <= 1.0 && span > 0.0
    ensures beg < r * span + beg <= span + beg
  {
    ScaleWithin(span, r);
    assert r * span > 0.0;
  }

  /** With `length` seconds walked and the step `len` overshooting, the ratio lies in (0, 1]. */
  lemma OvershootRatio(duration: real, length: real, len: real)
    requires length < duration <= length + len
    ensures len > 0.0
    ensures 0.0 < (duration - (length + len) + len) / len <= 1.0
  {
    var q := (duration - (length + len) + len) / len;
    assert q * len == duration - length;
  }

  /** The positive-speed frames walked over a segment are positive when its seconds are. */
  lemma SpanPositive(frames: real, fr: real, v: real)
    requires fr > 0.0 && v > 0.0 && frames / (fr * v) > 0.0
    ensures frames > 0.0
  {
    var q := frames / (fr * v);
    assert fr * v > 0.0;
    assert frames == q * (fr * v);
  }

  /**
    The interpolated frame of a segment [beg, end] played at positive speed `v`
    whose seconds overshoot the requested duration stays inside the segment.
  */
  lemma OvershootWithin(fr: real, v: real, beg: real, end: real, length: real, duration: real)
    requires fr > 0.0 && v > 0.0
    requires length < duration <= length + Seconds(end - beg, fr, v)
    ensures Seconds(end - beg, fr, v) != 0.0
    ensures beg < Reach(duration, length, Seconds(end - beg, fr, v), beg, end - beg) <= end
  {
    var len := Seconds(end - beg, fr, v);
    OvershootRatio(duration, length, len);
    SpanPositive(end - beg, fr, v);
    RatioWithin((duration - (length + len) + len) / len, end - beg, beg);
  }

  /** The loop of To never returns a frame before `from` or past the clip's end. */
  lemma {:induction false} ToScanWithinClip(fr: real, fc: real, speeds: seq<FrameValue>, from: real, duration: real, i: nat, length: real)
    requires fr > 0.0 && NonZero(speeds) && 0.0 <= from <= fc && length < duration
    ensures Positive(speeds) && InClip(speeds, fc) ==> from <= ToScan(true, fr, fc, speeds, from, duration, i, length) <= fc
    decreases |speeds| - i
  {
    if Positive(speeds) && InClip(speeds, fc) && i < |speeds| {
      var frame := speeds[i].frame;
      var last := Previous(speeds, i);
      var beg := MaxReal(last.frame, from);
      var len := Seconds(frame - beg, fr, last.value);
      if frame > from && length + len >= duration {
        OvershootWithin(fr, last.value, beg, frame, length, duration);
      } else {
        var walked := if frame > from then length + len else length;
        if i == |speeds| - 1 && walked < duration {
          var tailBeg := MaxReal(from, frame);
          if walked + Seconds(fc - tailBeg, fr, speeds[i].value) >= duration {
            OvershootWithin(fr, speeds[i].value, tailBeg, fc, walked, duration);
          }
        } else {
          ToScanWithinClip(fr, fc, speeds, from, duration, i + 1, walked);
        }
      }
    }
  }

  /**
    Without frame speeds the clip plays at its frame rate: Len is the frame
    distance over the frame rate, and walking back the frame To reaches recovers
    the duration, as long as the clip end is not hit.
  */
  lemma LenToRoundTrip(asset: AnimationAsset, from: real, duration: real)
    requires 0.0 <= from <= FrameCount(asset) && duration >= 0.0
    requires duration * asset.frameRate + from <= FrameCount(asset)
    ensures To(asset, [], from, duration) == duration * asset.frameRate + from
    ensures Len(asset, [], from, To(asset, [], from, duration)) == duration
  {
    var fr := asset.frameRate;
    var to := To(asset, [], from, duration);
    if duration == 0.0 {
      assert to == from;
    } else {
      assert duration * fr > 0.0;
      assert to == duration * fr + from;
      assert Len(asset, [], from, to) == (to - from) / fr;
      assert (to - from) / fr == duration * fr / fr;
    }
  }

  /**
    Without frame speeds Len is the frame distance over the frame rate for an
    ordered pair of frames inside the clip, and 0 for a reversed pair.
  */
  lemma LenWithoutSpeeds(asset: AnimationAsset, from: real, to: real)
    requires 0.0 <= from <= FrameCount(asset) && 0.0 <= to <= FrameCount(asset)
    ensures from < to ==> Len(asset, [], from, to) == (to - from) / asset.frameRate
    ensures to <= from ==> Len(asset, [], from, to) == 0.0
  {
  }

  /**
    Without frame speeds To walks at the frame rate from the start frame and
    stops at the clip's end: no time gives the start frame, a duration that
    reaches past the end gives the frame count, and otherwise the frame reached
    is `from + duration * frameRate`.
  */
  lemma ToWithoutSpeeds(asset: AnimationAsset, from: real, duration: real)
    requires 0.0 <= from <= FrameCount(asset)
    ensures duration <= 0.0 ==> To(asset, [], from, duration) == from
    ensures duration > 0.0 && duration * asset.frameRate + from >= FrameCount(asset) ==>
      To(asset, [], from, duration) == FrameCount(asset)
    ensures duration >= 0.0 && duration * asset.frameRate + from <= FrameCount(asset) ==>
      To(asset, [], from, duration) == duration * asset.frameRate + from
  {
    if duration == 0.0 {
      assert duration * asset.frameRate == 0.0;
    }
  }

  /**
    Walking back over `len` seconds of a segment [beg, end] at speed `v`:
    the frame Reach interpolates is exactly `duration - length` seconds in.
  */
  lemma ReachSeconds(fr: real, v: real, beg: real, end: real, length: real, duration: real)
    requires fr > 0.0 && v > 0.0 && Seconds(end - beg, fr, v) != 0.0
    ensures Seconds(Reach(duration, length, Seconds(end - beg, fr, v), beg, end - beg) - beg, fr, v) == duration - length
  {
    var len := Seconds(end - beg, fr, v);
    var q := (duration - (length + len) + len) / len;
    assert q == (duration - length) / len;
    assert q * len == duration - length;
    assert Reach(duration, length, len, beg, end - beg) - beg == q * (end - beg);
    assert fr * v != 0.0;
    assert q * (end - beg) / (fr * v) == q * ((end - beg) / (fr * v));
  }

  /**
    The loop of Len contributes nothing past an entry that sits exactly on
    `to`: every later entry starts at or after `to`.
  */
  lemma {:induction false} LenScanFlat(fr: real, speeds: seq<FrameValue>, from: real, to: real, j: nat)
    requires fr > 0.0 && NonZero(speeds) && SortedByFrame(speeds)
    requires 0 < j <= |speeds| && speeds[j - 1].frame == to && from < to
    ensures LenScan(fr, speeds, from, to, j) == 0.0
    decreases |speeds| - j
  {
    if j < |speeds| {
      assert Previous(speeds, j) == speeds[j - 1];
      assert MinReal(speeds[j].frame, to) - MaxReal(to, from) == 0.0;
      if speeds[j].frame <= to {
        LenScanFlat(fr, speeds, from, to, j + 1);
      }
    }
  }

  /**
    The loop of To, walked back by the loop of Len: from entry `i` with
    `length` seconds already walked, the frame To reaches inside the clip lies
    past the segment's start and Len over it adds the remaining seconds.
  */
  lemma {:induction false} ToScanLen(fr: real, fc: real, speeds: seq<FrameValue>, from: real, duration: real, i: nat, length: real)
    requires fr > 0.0 && NonZero(speeds) && Positive(speeds) && SortedByFrame(speeds) && InClip(speeds, fc)
    requires 0.0 <= from <= fc && length < duration
    requires ToScan(true, fr, fc, speeds, from, duration, i, length) < fc
    ensures i < |speeds|
    ensures MaxReal(Previous(speeds, i).frame, from) < ToScan(true, fr, fc, speeds, from, duration, i, length)
    ensures length + LenScan(fr, speeds, from, ToScan(true, fr, fc, speeds, from, duration, i, length), i) == duration
    decreases |speeds| - i
  {
    var x := ToScan(true, fr, fc, speeds, from, duration, i, length);
    var frame := speeds[i].frame;
    var last := Previous(speeds, i);
    var beg := MaxReal(last.frame, from);
    var len := Seconds(frame - beg, fr, last.value);
    assert last.frame <= frame && last.value > 0.0;
    if frame > from && length + len >= duration {
      OvershootWithin(fr, last.value, beg, frame, length, duration);
      ReachSeconds(fr, last.value, beg, frame, length, duration);
      assert MinReal(frame, x) - beg == x - beg;
      if x == frame {
        LenScanFlat(fr, speeds, from, x, i + 1);
      }
    } else {
      var walked := if frame > from then length + len else length;
      if i == |speeds| - 1 && walked < duration {
        var tailBeg := MaxReal(from, frame);
        var tailLen := Seconds(fc - tailBeg, fr, speeds[i].value);
        assert walked + tailLen >= duration;
        OvershootWithin(fr, speeds[i].value, tailBeg, fc, walked, duration);
        ReachSeconds(fr, speeds[i].value, tailBeg, fc, walked, duration);
        assert x > frame;
        assert frame > from ==> MinReal(frame, x) - beg == frame - beg;
      } else {
        ToScanLen(fr, fc, speeds, from, duration, i + 1, walked);
        assert Previous(speeds, i + 1) == speeds[i];
        assert frame > from ==> MinReal(frame, x) - beg == frame - beg;
      }
    }
  }

  /**
    Len inverts To: with positive speeds sorted by frame inside the clip, the
    seconds Len measures from the start frame to the frame To reaches after
    `duration` seconds are `duration` again, as long as the clip's end is not hit.
  */
  lemma LenInvertsTo(asset: AnimationAsset, speeds: seq<FrameValue>, from: real, duration: real)
    requires NonZero(speeds) && Positive(speeds) && SortedByFrame(speeds) && InClip(speeds, FrameCount(asset))
    requires 0.0 <= from <= FrameCount(asset) && duration >= 0.0
    requires To(asset, speeds, from, duration) < FrameCount(asset)
    ensures Len(asset, speeds, from, To(asset, speeds, from, duration)) == duration
  {
    var fc := FrameCount(asset);
    if duration == 0.0 {
    } else if |speeds| == 0 {
      ToWithoutSpeeds(asset, from, duration);
      LenToRoundTrip(asset, from, duration);
    } else {
      ToScanLen(asset.frameRate, fc, speeds, from, duration, 0, 0.0);
    }
  }

  /**
    The tail branch as written: a clip of 100 frames at 1 frame per second
    with a double-speed entry at frame 10, played from frame 50 for 30 seconds,
    lands on frame 110, past the last frame; the corrected To stops at 100.
  */
  lemma ToAsWrittenLeavesClip()
    ensures ToAsWritten(Asset(100.0, 1.0), [FrameValue(10.0, 2.0)], 50.0, 30.0) == 110.0
    ensures ToAsWritten(Asset(100.0, 1.0), [FrameValue(10.0, 2.0)], 50.0, 30.0) > FrameCount(Asset(100.0, 1.0))
    ensures To(Asset(100.0, 1.0), [FrameValue(10.0, 2.0)], 50.0, 30.0) == 100.0
  {
    var speeds := [FrameValue(10.0, 2.0)];
    assert Seconds(90.0, 1.0, 2.0) == 45.0;
    assert Seconds(50.0, 1.0, 2.0) == 25.0;
    assert Reach(30.0, 0.0, 45.0, 50.0, 90.0) == 110.0;
    assert ToScan(false, 1.0, 100.0, speeds, 50.0, 30.0, 0, 0.0) == 110.0;
    assert ToScan(true, 1.0, 100.0, speeds, 50.0, 30.0, 0, 0.0) == 100.0;
  }
}
