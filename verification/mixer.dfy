/**
  The animation weight mixer of AnimationClip.Playable: one track per animator,
  holding one contributor (PlayableState) per animation clip that plays on it.
  UpdateWeightTo gives every contributor a tiered target weight, UpdateWeight
  moves the weights toward their targets and writes them, normalised, to the
  engine's mixer, which the model records as a sequence of (input, weight)
  writes.
*/
module Mixer {
  import opened Time

  const LeftLimitWeight: real := -1000.0
  const RightLimitWeight: real := 1000.0

  /**
    A PlayableState together with the fields of its AnimationClip that the
    mixer reads: whether the clip is Running, whether it is exiting, and its
    configured weight and transition length (`target` and `fade`).  The clip
    sets `running` and `exiting` just before each SetFrame, which refreshes
    them here.
  */
  datatype Contributor = Contributor(
    clip: nat,          // the AnimationClip, by identity
    frame: real,
    transition: real,   // frames into the current fade, -1 when there is none
    weight: real,
    weightFrom: real,
    weightTo: real,
    running: bool,
    exiting: bool,
    target: real,
    fade: real)

  /** One AnimationMixerPlayable.SetInputWeight (or AddInput) call. */
  datatype Write = Write(input: nat, weight: real)

  datatype Track = Track(states: seq<Contributor>, writes: seq<Write>)

  /** The weight a contributor asks for before the tiers: 0 once it is exiting or no longer Running. */
  function Desired(c: Contributor): real {
    if c.exiting || !c.running then 0.0 else c.target
  }

  /** The three flags of UpdateWeightTo's first loop. */
  datatype Flags = Flags(rightLimit: bool, rightCount: bool, upLeftLimit: bool)

  predicate SomeAtRightLimit(cs: seq<Contributor>) {
    exists i :: 0 <= i < |cs| && Desired(cs[i]) >= RightLimitWeight
  }

  predicate SomePositive(cs: seq<Contributor>) {
    exists i :: 0 <= i < |cs| && Desired(cs[i]) > 0.0
  }

  predicate SomeAboveLeftLimit(cs: seq<Contributor>) {
    exists i :: 0 <= i < |cs| && LeftLimitWeight < Desired(cs[i]) < 0.0
  }

  /**
    UpdateWeightTo's first loop, which stops at the first desired weight of at
    least 1000: the limit flag is set exactly when there is one, and otherwise
    the other two flags record whether some weight is positive and whether
    some lies strictly between -1000 and 0.
  */
  function ScanFlags(cs: seq<Contributor>, f: Flags): (r: Flags)
    requires !f.rightLimit
    ensures r.rightLimit <==> SomeAtRightLimit(cs)
    ensures !r.rightLimit ==> (r.rightCount <==> f.rightCount || SomePositive(cs))
    ensures !r.rightLimit ==> (r.upLeftLimit <==> f.upLeftLimit || SomeAboveLeftLimit(cs))
  {
    if |cs| == 0 then f
    else
      var w := Desired(cs[0]);
      var rest := cs[1..];
      assert forall i :: 0 < i < |cs| ==> cs[i] == rest[i - 1];
      if w != 0.0 && w >= RightLimitWeight then f.(rightLimit := true)
      else
        var f' :=
          if w == 0.0 then f
          else if w > 0.0 then f.(rightCount := true)
          else if w > LeftLimitWeight then f.(upLeftLimit := true)
          else f;
        var r := ScanFlags(rest, f');
        assert SomeAtRightLimit(rest) ==> SomeAtRightLimit(cs);
        assert SomePositive(rest) ==> SomePositive(cs);
        assert SomeAboveLeftLimit(rest) ==> SomeAboveLeftLimit(cs);
        r
  }

  /** UpdateWeightTo's second loop, for one desired weight. */
  function TierWeight(w: real, f: Flags): real {
    if w == 0.0 then 0.0
    else if f.rightLimit then (if w >= RightLimitWeight then 1.0 else 0.0)
    else if f.rightCount then (if w > 0.0 then w else 0.0)
    else if f.upLeftLimit then (if w <= LeftLimitWeight then 0.0 else w + RightLimitWeight)
    else 1.0
  }

  /**
    UpdateWeightTo: every contributor's target weight by the first tier that
    applies — if some desired weight is at least 1000, those get 1 and the rest
    0; else if some is positive, positives keep theirs and the rest get 0; else
    if some lies in (-1000, 0), those get w + 1000 and the rest 0; else every
    nonzero desired weight gets 1.  Nothing but `weightTo` changes, and every
    target is nonnegative.
  */
  function UpdateWeightTo(cs: seq<Contributor>): (r: seq<Contributor>)
    ensures |r| == |cs|
    ensures forall i :: 0 <= i < |cs| ==> r[i] == cs[i].(weightTo := r[i].weightTo) && r[i].weightTo >= 0.0
    ensures forall i :: 0 <= i < |cs| && Desired(cs[i]) == 0.0 ==> r[i].weightTo == 0.0
    ensures SomeAtRightLimit(cs) ==>
      forall i :: 0 <= i < |cs| ==> r[i].weightTo == if Desired(cs[i]) >= RightLimitWeight then 1.0 else 0.0
    ensures !SomeAtRightLimit(cs) && SomePositive(cs) ==>
      forall i :: 0 <= i < |cs| ==> r[i].weightTo == MaxReal(Desired(cs[i]), 0.0)
    ensures !SomeAtRightLimit(cs) && !SomePositive(cs) && SomeAboveLeftLimit(cs) ==>
      forall i :: 0 <= i < |cs| ==> r[i].weightTo == if LeftLimitWeight < Desired(cs[i]) < 0.0 then Desired(cs[i]) + RightLimitWeight else 0.0
    ensures !SomeAtRightLimit(cs) && !SomePositive(cs) && !SomeAboveLeftLimit(cs) ==>
      forall i :: 0 <= i < |cs| ==> r[i].weightTo == if Desired(cs[i]) == 0.0 then 0.0 else 1.0
  {
    var f := ScanFlags(cs, Flags(false, false, false));
    seq(|cs|, i requires 0 <= i < |cs| => cs[i].(weightTo := TierWeight(Desired(cs[i]), f)))
  }

  /**
    The fraction of a fade `transition` frames in, as Mathf.Lerp receives it.
    A zero-length fade is complete at once (the source divides by zero there).
  */
  function Ratio(transition: real, fade: real): real {
    if fade != 0.0 then transition / fade
    else if transition < 0.0 then 0.0
    else 1.0
  }

  /**
    UpdateWeight for one contributor: a fade starts from the current weight when
    the clip has a positive transition length, the weight is off target and no
    fade is running; a running fade advances by `deltaFrame` and sets the weight
    by the clamped lerp, ending (back to -1) once it reaches the transition
    length; without a fade the weight jumps to the target.
  */
  function Blend(c: Contributor, deltaFrame: real): (r: Contributor)
    ensures r.(transition := c.transition, weight := c.weight, weightFrom := c.weightFrom) == c
    ensures r.weightFrom == if Arms(c) then c.weight else c.weightFrom
    ensures MinReal(r.weightFrom, c.weightTo) <= r.weight <= MaxReal(r.weightFrom, c.weightTo)
    ensures Fading(c) ==> r.transition == if Counter(c, deltaFrame) >= c.fade then -1.0 else Counter(c, deltaFrame)
    ensures Fading(c) && c.fade > 0.0 && 0.0 <= Counter(c, deltaFrame) <= c.fade ==>
      r.weight == r.weightFrom + (c.weightTo - r.weightFrom) * (Counter(c, deltaFrame) / c.fade)
    ensures Fading(c) && c.fade > 0.0 && Counter(c, deltaFrame) >= c.fade ==> r.weight == c.weightTo
    ensures !Fading(c) ==> r == c.(weight := c.weightTo)
  {
    var armed := Arms(c);
    var s := if armed then c.(transition := 0.0, weightFrom := c.weight) else c;
    if s.transition != -1.0 then
      var t := s.transition + deltaFrame;
      AtLeastOne(t, c.fade);
      s.(transition := if t >= s.fade then -1.0 else t,
         weight := Lerp(s.weightFrom, s.weightTo, Ratio(t, s.fade)))
    else
      s.(weight := s.weightTo)
  }

  /**
    UpdateWeight arms a fade when the clip has a positive transition length,
    the weight is off target and no fade is running.
  */
  predicate Arms(c: Contributor) {
    c.fade > 0.0 && c.weight != c.weightTo && c.transition == -1.0
  }

  /** A fade is running after the arming test: it was running, or it has just been armed. */
  predicate Fading(c: Contributor) {
    Arms(c) || c.transition != -1.0
  }

  /** The fade counter once this step's frames are added (counting from 0 for a fade just armed). */
  function Counter(c: Contributor, deltaFrame: real): real {
    if Arms(c) then deltaFrame else c.transition + deltaFrame
  }

  /** The sum of a sequence of reals. */
  function Sum(ws: seq<real>): real {
    if |ws| == 0 then 0.0 else ws[0] + Sum(ws[1..])
  }

  function Weights(cs: seq<Contributor>): (r: seq<real>)
    ensures |r| == |cs| && forall i :: 0 <= i < |cs| ==> r[i] == cs[i].weight
  {
    seq(|cs|, i requires 0 <= i < |cs| => cs[i].weight)
  }

  /** The weights a sequence of writes carries, in order. */
  function WrittenWeights(ws: seq<Write>): seq<real> {
    seq(|ws|, i requires 0 <= i < |ws| => ws[i].weight)
  }

  /** The writes of UpdateWeight's second loop: input i gets weight_i / total, or 0 when the total is not positive. */
  function Normalised(cs: seq<Contributor>): seq<Write> {
    var total := Sum(Weights(cs));
    seq(|cs|, i requires 0 <= i < |cs| => Write(i, if total > 0.0 then cs[i].weight / total else 0.0))
  }

  /** UpdateWeight: blend every contributor, then write the normalised weights. */
  function UpdateWeight(t: Track, deltaFrame: real): (r: Track)
    ensures |r.states| == |t.states|
    ensures forall i :: 0 <= i < |t.states| ==> r.states[i] == Blend(t.states[i], deltaFrame)
    ensures |r.writes| == |t.writes| + |t.states| && r.writes[..|t.writes|] == t.writes
    ensures r.writes[|t.writes|..] == Normalised(r.states)
  {
    var cs := seq(|t.states|, i requires 0 <= i < |t.states| => Blend(t.states[i], deltaFrame));
    Track(cs, t.writes + Normalised(cs))
  }

  /** The last writes of a track: those of its latest UpdateWeight. */
  function LastWrites(t: Track): seq<Write>
    requires |t.states| <= |t.writes|
  {
    t.writes[|t.writes| - |t.states|..]
  }

  /** Every weight a contributor holds or moves between is nonnegative. */
  predicate NonNegativeWeights(c: Contributor) {
    c.weight >= 0.0 && c.weightFrom >= 0.0 && c.weightTo >= 0.0
  }

  /**
    The track invariant: every contributor's weights are nonnegative, and the
    track holds at least one write per contributor.
  */
  predicate Valid(t: Track) {
    (forall i :: 0 <= i < |t.states| ==> NonNegativeWeights(t.states[i]))
    && |t.states| <= |t.writes|
  }

  lemma {:induction false} SumNonNegative(ws: seq<real>)
    requires forall i :: 0 <= i < |ws| ==> ws[i] >= 0.0
    ensures Sum(ws) >= 0.0
    decreases |ws|
  {
    if |ws| > 0 {
      SumNonNegative(ws[1..]);
    }
  }

  lemma {:induction false} SumScaled(ws: seq<real>, vs: seq<real>, total: real)
    requires total > 0.0 && |vs| == |ws|
    requires forall i :: 0 <= i < |ws| ==> vs[i] == ws[i] / total
    ensures Sum(vs) == Sum(ws) / total
    decreases |ws|
  {
    if |ws| > 0 {
      SumScaled(ws[1..], vs[1..], total);
      assert (ws[0] + Sum(ws[1..])) / total == ws[0] / total + Sum(ws[1..]) / total;
    }
  }

  /**
    UpdateWeight keeps weights nonnegative, and when their total is positive the
    weights it writes are each in [0, 1] and sum to 1.
  */
  lemma UpdateWeightKeepsValid(t: Track, deltaFrame: real)
    requires Valid(t)
    ensures Valid(UpdateWeight(t, deltaFrame))
  {
    var r := UpdateWeight(t, deltaFrame);
    forall i | 0 <= i < |r.states|
      ensures NonNegativeWeights(r.states[i])
    {
      assert NonNegativeWeights(t.states[i]);
      assert r.states[i] == Blend(t.states[i], deltaFrame);
    }
  }

  /**
    The normalised writes of nonnegative weights are each in [0, 1], sum to 1
    when the total is positive, and are all 0 otherwise.
  */
  lemma NormalisedSumsToOne(cs: seq<Contributor>)
    requires forall i :: 0 <= i < |cs| ==> cs[i].weight >= 0.0
    ensures var n := Normalised(cs);
      && |n| == |cs|
      && (forall i :: 0 <= i < |n| ==> 0.0 <= n[i].weight <= 1.0)
      && (Sum(Weights(cs)) > 0.0 ==> Sum(WrittenWeights(n)) == 1.0)
      && (Sum(Weights(cs)) <= 0.0 ==> forall i :: 0 <= i < |n| ==> n[i].weight == 0.0)
  {
    var ws := Weights(cs);
    var total := Sum(ws);
    var n := Normalised(cs);
    SumNonNegative(ws);
    if total > 0.0 {
      SumScaled(ws, WrittenWeights(n), total);
      assert total / total == 1.0;
      forall i | 0 <= i < |n|
        ensures 0.0 <= n[i].weight <= 1.0
      {
        SumAtLeastElement(ws, i);
        assert n[i].weight == ws[i] / total;
        FractionWithin(ws[i], total);
      }
    }
  }

  /**
    UpdateWeight keeps weights nonnegative, and the weights it writes are each
    in [0, 1] and sum to 1 whenever their total is positive.
  */
  lemma UpdateWeightNormalises(t: Track, deltaFrame: real)
    requires Valid(t)
    ensures var r := UpdateWeight(t, deltaFrame);
      && Valid(r)
      && (forall i :: 0 <= i < |LastWrites(r)| ==> 0.0 <= LastWrites(r)[i].weight <= 1.0)
      && (Sum(Weights(r.states)) > 0.0 ==> Sum(WrittenWeights(LastWrites(r))) == 1.0)
  {
    var r := UpdateWeight(t, deltaFrame);
    assert LastWrites(r) == Normalised(r.states);
    UpdateWeightKeepsValid(t, deltaFrame);
    assert forall i :: 0 <= i < |r.states| ==> NonNegativeWeights(r.states[i]);
    NormalisedSumsToOne(r.states);
  }

  lemma FractionWithin(a: real, total: real)
    requires 0.0 <= a <= total && total > 0.0
    ensures 0.0 <= a / total <= 1.0
  {
    assert a / total * total == a;
  }

  lemma {:induction false} SumAtLeastElement(ws: seq<real>, i: nat)
    requires i < |ws| && forall j :: 0 <= j < |ws| ==> ws[j] >= 0.0
    ensures ws[i] <= Sum(ws)
    decreases |ws|
  {
    SumNonNegative(ws[1..]);
    if i > 0 {
      SumAtLeastElement(ws[1..], i - 1);
    }
  }

  /**
    A fade ends on target: a contributor whose fade has started, once it has
    advanced by at least the rest of the transition length, holds exactly its
    target weight and is no longer fading.
  */
  lemma FadeEndsOnTarget(c: Contributor, deltaFrame: real)
    requires c.fade > 0.0 && c.transition != -1.0
    requires c.transition + deltaFrame >= c.fade
    ensures Blend(c, deltaFrame).weight == c.weightTo
    ensures Blend(c, deltaFrame).transition == -1.0
  {
    AtLeastOne(c.transition + deltaFrame, c.fade);
  }

  lemma AtLeastOne(t: real, f: real)
    ensures f > 0.0 && t >= f ==> t / f >= 1.0
  {
    if f > 0.0 && t >= f {
      var q := t / f;
      assert q * f == t;
      assert (q - 1.0) * f == t - f;
    }
  }

  /** A contributor on target with no fade running is a fixed point of UpdateWeight. */
  lemma SettledStays(c: Contributor, deltaFrame: real)
    requires c.transition == -1.0 && c.weight == c.weightTo
    ensures Blend(c, deltaFrame) == c
  {
  }

  /** The first index holding `clip`'s contributor, if any. */
  function Find(cs: seq<Contributor>, clip: nat): (r: int)
    ensures -1 <= r < |cs|
    ensures r >= 0 ==> cs[r].clip == clip && forall i :: 0 <= i < r ==> cs[i].clip != clip
    ensures r == -1 ==> forall i :: 0 <= i < |cs| ==> cs[i].clip != clip
  {
    if |cs| == 0 then -1
    else if cs[0].clip == clip then 0
    else
      var r := Find(cs[1..], clip);
      if r == -1 then -1 else r + 1
  }

  /**
    Playable.Create for a clip: a contributor at the clip's `from` frame with
    weight 0, added as a mixer input of weight 0.  Its transition counter starts
    at 0, as a field of a new PlayableState does, so the contributor starts in
    the middle of a fade from 0.
  */
  function Attach(t: Track, clip: nat, from: real, target: real, fade: real): (r: Track)
    ensures |r.states| == |t.states| + 1 && r.states[..|t.states|] == t.states
    ensures r.writes == t.writes + [Write(|t.states|, 0.0)]
    ensures var c := r.states[|t.states|];
      c.clip == clip && c.frame == from && c.weight == 0.0 && c.transition == 0.0
      && c.running && !c.exiting && c.target == target && c.fade == fade
    ensures Valid(t) ==> Valid(r)
  {
    var c := Contributor(clip, from, 0.0, 0.0, 0.0, 0.0, true, false, target, fade);
    Track(t.states + [c], t.writes + [Write(|t.states|, 0.0)])
  }

  /**
    Playable.SetFrame for `clip`'s contributor: record the frame and the clip's
    new running and exiting flags; when those flags changed, recompute every
    target; when they changed or a fade is running, blend with the frames
    advanced (`frame - last`, or `frame + to - last` after a loop wrapped).
    A track without that clip is left unchanged.
  */
  function SetFrame(t: Track, clip: nat, frame: real, to: real, running: bool, exiting: bool, dirty: bool): (r: Track)
    ensures |r.states| == |t.states|
    ensures forall i :: 0 <= i < |t.states| ==> r.states[i].clip == t.states[i].clip
    ensures Find(t.states, clip) == -1 ==> r == t
    ensures Find(t.states, clip) >= 0 ==> r.states[Find(t.states, clip)].frame == frame
    ensures forall i :: 0 <= i < |t.states| && i != Find(t.states, clip) ==> r.states[i].frame == t.states[i].frame
  {
    var k := Find(t.states, clip);
    if k == -1 then t
    else
      var last := t.states[k].frame;
      var cs := Retarget(t.states, k, frame, running, exiting, dirty);
      if dirty || cs[k].transition != -1.0 then
        var delta := if frame - last < 0.0 then frame + to - last else frame - last;
        UpdateWeight(Track(cs, t.writes), delta)
      else Track(cs, t.writes)
  }

  /**
    The first half of SetFrame: contributor `k` takes the new frame and flags,
    and every target is recomputed when the flags changed.  Only frames, flags
    and targets change, and nonnegative weights stay nonnegative.
  */
  function Retarget(cs: seq<Contributor>, k: nat, frame: real, running: bool, exiting: bool, dirty: bool): (r: seq<Contributor>)
    requires k < |cs|
    ensures |r| == |cs| && r[k].frame == frame
    ensures forall i :: 0 <= i < |cs| && i != k ==> r[i].frame == cs[i].frame
    ensures forall i :: 0 <= i < |cs| ==>
      && r[i].clip == cs[i].clip && r[i].weight == cs[i].weight && r[i].weightFrom == cs[i].weightFrom
      && r[i].transition == cs[i].transition
    ensures forall i :: 0 <= i < |cs| && NonNegativeWeights(cs[i]) ==> NonNegativeWeights(r[i])
    ensures r[k].running == running && r[k].exiting == exiting
    ensures forall i :: 0 <= i < |cs| && i != k ==> r[i].running == cs[i].running && r[i].exiting == cs[i].exiting
    ensures !dirty ==> forall i :: 0 <= i < |cs| ==> r[i].weightTo == cs[i].weightTo
  {
    var patched := cs[k := cs[k].(frame := frame, running := running, exiting := exiting)];
    if dirty then UpdateWeightTo(patched) else patched
  }

  lemma SetFrameKeepsValid(t: Track, clip: nat, frame: real, to: real, running: bool, exiting: bool, dirty: bool)
    requires Valid(t)
    ensures Valid(SetFrame(t, clip, frame, to, running, exiting, dirty))
  {
    var k := Find(t.states, clip);
    if k != -1 {
      var cs := Retarget(t.states, k, frame, running, exiting, dirty);
      assert Valid(Track(cs, t.writes));
      if dirty || cs[k].transition != -1.0 {
        var delta := if frame - t.states[k].frame < 0.0 then frame + to - t.states[k].frame else frame - t.states[k].frame;
        UpdateWeightKeepsValid(Track(cs, t.writes), delta);
      }
    }
  }

  /**
    The blend of SetFrame: it runs when `dirty` or the contributor's fade is
    running, advanced by the frames played, `frame - last`, or `frame + to -
    last` when the frame went back, as after a loop wrapped; otherwise no
    weight changes and nothing is written.  The contributors it blends are
    those of Retarget.
  */
  lemma SetFrameBlend(t: Track, clip: nat, frame: real, to: real, running: bool, exiting: bool, dirty: bool)
    requires Find(t.states, clip) >= 0
    ensures var k := Find(t.states, clip); var last := t.states[k].frame;
      var r := SetFrame(t, clip, frame, to, running, exiting, dirty);
      var cs := Retarget(t.states, k, frame, running, exiting, dirty);
      && ((dirty || t.states[k].transition != -1.0) && frame >= last ==> r == UpdateWeight(Track(cs, t.writes), frame - last))
      && ((dirty || t.states[k].transition != -1.0) && frame < last ==> r == UpdateWeight(Track(cs, t.writes), frame + to - last))
      && (!dirty && t.states[k].transition == -1.0 ==> r == Track(cs, t.writes))
  {
  }

  /**
    The targets SetFrame blends toward: recomputed by UpdateWeightTo, from the
    contributor with its new flags, exactly when `dirty`, and otherwise kept;
    the contributor carries the new flags either way.
  */
  lemma SetFrameTargets(t: Track, clip: nat, frame: real, to: real, running: bool, exiting: bool, dirty: bool)
    requires Find(t.states, clip) >= 0
    ensures var k := Find(t.states, clip); var r := SetFrame(t, clip, frame, to, running, exiting, dirty);
      && r.states[k].running == running && r.states[k].exiting == exiting
      && (!dirty ==> forall i :: 0 <= i < |t.states| ==> r.states[i].weightTo == t.states[i].weightTo)
    ensures var k := Find(t.states, clip); var r := SetFrame(t, clip, frame, to, running, exiting, dirty);
      var patched := t.states[k := t.states[k].(frame := frame, running := running, exiting := exiting)];
      dirty ==> forall i :: 0 <= i < |t.states| ==> r.states[i].weightTo == UpdateWeightTo(patched)[i].weightTo
  {
    var k := Find(t.states, clip);
    var cs := Retarget(t.states, k, frame, running, exiting, dirty);
    var patched := t.states[k := t.states[k].(frame := frame, running := running, exiting := exiting)];
    assert dirty ==> cs == UpdateWeightTo(patched);
    if dirty || cs[k].transition != -1.0 {
      var delta := if frame - t.states[k].frame < 0.0 then frame + to - t.states[k].frame else frame - t.states[k].frame;
      UpdateWeightKeepsTargets(Track(cs, t.writes), delta);
    }
  }

  /** UpdateWeight moves weights only: every target and flag is kept. */
  lemma UpdateWeightKeepsTargets(t: Track, deltaFrame: real)
    ensures var r := UpdateWeight(t, deltaFrame);
      forall i :: 0 <= i < |t.states| ==>
        && r.states[i].weightTo == t.states[i].weightTo
        && r.states[i].running == t.states[i].running && r.states[i].exiting == t.states[i].exiting
  {
    var r := UpdateWeight(t, deltaFrame);
    forall i | 0 <= i < |t.states|
      ensures r.states[i].weightTo == t.states[i].weightTo
      ensures r.states[i].running == t.states[i].running && r.states[i].exiting == t.states[i].exiting
    {
      assert r.states[i] == Blend(t.states[i], deltaFrame);
    }
  }

  /** The clips of a track's contributors, in input order. */
  function Clips(cs: seq<Contributor>): (r: seq<nat>)
    ensures |r| == |cs| && forall i :: 0 <= i < |cs| ==> r[i] == cs[i].clip
  {
    seq(|cs|, i requires 0 <= i < |cs| => cs[i].clip)
  }

  /** What Playable.Destroy leaves: the track, or nothing once it has no contributor. */
  datatype Detached = Remaining(track: Track) | Emptied

  /**
    Playable.Destroy for `clip`: remove its first contributor; drop the track
    when none is left; otherwise recompute every target and blend with no
    frames advanced.  A track without that clip is kept unchanged.
  */
  function Detach(t: Track, clip: nat): (r: Detached)
    ensures Find(t.states, clip) == -1 ==> r == Remaining(t)
    ensures Find(t.states, clip) >= 0 ==> (r.Emptied? <==> |t.states| == 1)
    ensures r.Remaining? && Find(t.states, clip) >= 0 ==>
      var k := Find(t.states, clip);
      Clips(r.track.states) == Clips(t.states)[..k] + Clips(t.states)[k + 1..]
  {
    var k := Find(t.states, clip);
    if k == -1 then Remaining(t)
    else
      var cs := t.states[..k] + t.states[k + 1..];
      if |cs| == 0 then Emptied
      else
        var r := UpdateWeight(Track(UpdateWeightTo(cs), t.writes), 0.0);
        assert Clips(r.states) == Clips(cs);
        Remaining(r)
  }

  /**
    Playable.Destroy on a track that keeps contributors: the remaining ones, in
    order, get their targets recomputed among themselves and are then blended
    with no frames advanced; the normalised weights are written after the
    track's earlier writes.
  */
  lemma DetachRetargets(t: Track, clip: nat)
    requires Find(t.states, clip) >= 0 && |t.states| > 1
    ensures var k := Find(t.states, clip); var targets := UpdateWeightTo(t.states[..k] + t.states[k + 1..]);
      var r := Detach(t, clip);
      && r.Remaining? && |r.track.states| == |t.states| - 1
      && (forall i :: 0 <= i < |targets| ==> r.track.states[i] == Blend(targets[i], 0.0))
      && r.track.writes == t.writes + Normalised(r.track.states)
  {
    DetachIsUpdate(t, clip);
  }

  lemma DetachIsUpdate(t: Track, clip: nat)
    requires Find(t.states, clip) >= 0 && |t.states| > 1
    ensures var k := Find(t.states, clip);
      Detach(t, clip) == Remaining(UpdateWeight(Track(UpdateWeightTo(t.states[..k] + t.states[k + 1..]), t.writes), 0.0))
  {
  }

  /** Removing a contributor from a valid track leaves its targets valid once recomputed. */
  lemma RemovedValid(t: Track, k: nat)
    requires Valid(t) && k < |t.states|
    ensures Valid(Track(UpdateWeightTo(t.states[..k] + t.states[k + 1..]), t.writes))
  {
    var cs := t.states[..k] + t.states[k + 1..];
    assert forall i :: 0 <= i < |cs| ==> NonNegativeWeights(cs[i]);
  }

  /**
    After Playable.Destroy the remaining weights stay nonnegative, and those
    written sum to 1 whenever their total is positive.
  */
  lemma DetachNormalises(t: Track, clip: nat)
    requires Valid(t)
    ensures var r := Detach(t, clip);
      r.Remaining? ==> Valid(r.track)
    ensures var r := Detach(t, clip);
      r.Remaining? && Find(t.states, clip) >= 0 && Sum(Weights(r.track.states)) > 0.0 ==>
        Sum(WrittenWeights(LastWrites(r.track))) == 1.0
  {
    var k := Find(t.states, clip);
    if k != -1 && |t.states| > 1 {
      var cs := t.states[..k] + t.states[k + 1..];
      var u := Track(UpdateWeightTo(cs), t.writes);
      RemovedValid(t, k);
      DetachIsUpdate(t, clip);
      UpdateWeightNormalises(u, 0.0);
    }
  }
}
