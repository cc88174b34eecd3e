/**
  Clip configurations (RunnerClipData and its subclasses) and their Verify
  normalisation.  A configuration is a tree: a group holds (delay, configuration)
  children.
*/
module Config {
  import opened Time
  import opened Optional
  import opened Timeline

  /** AnimationClipData.Ending: `Once` is the source's Ending.None. */
  datatype Ending = Once | Loop | Keep

  datatype AnimationParams = AnimationParams(
    animator: Option<nat>,            // the target Animator, by identity
    asset: Option<AnimationAsset>,    // the UnityEngine.AnimationClip
    frameSpeeds: seq<FrameValue>,
    ending: Ending,
    from: real,
    to: Extended,                     // defaults to +infinity
    transition: real,
    weight: real)

  /** The clip kinds whose Verify only checks engine references. */
  datatype BoundKind = Active | Sound | Move | Rotate | Scale

  datatype Kind =
    | Plain                                                        // RunnerClipData itself
    | Group(children: seq<Child>)
    | Animation(anim: AnimationParams)
    | Value(start: real, end: real, ease: Option<nat>, setter: nat)  // ValueClipData<float>
    | Invoke(callback: nat)                                        // InvokerClipData
    | Bound(bound: BoundKind, refsPresent: bool)

  datatype Child = Child(delay: real, data: ClipData)

  datatype ClipData = ClipData(speed: real, duration: Extended, kind: Kind)

  /** The outcome of Verify: its boolean result and the configuration it leaves. */
  datatype Verified = Verified(ok: bool, data: ClipData)

  /** The engine references every node of the tree needs. */
  predicate RefsPresent(d: ClipData)
  {
    match d.kind
    case Group(cs) => forall i :: 0 <= i < |cs| ==> RefsPresent(cs[i].data)
    case Animation(a) => a.animator.Some? && a.asset.Some?
    case Bound(_, present) => present
    case _ => true
  }

  predicate ChildRefsPresent(cs: seq<Child>) {
    forall i :: 0 <= i < |cs| ==> RefsPresent(cs[i].data)
  }

  /** RunnerClipData.Verify: a non-positive speed becomes 1 and a negative duration 0. */
  function VerifyBase(d: ClipData): (r: ClipData)
    ensures r.speed > 0.0 && NonNegative(r.duration) && r.kind == d.kind
    ensures d.speed > 0.0 ==> r.speed == d.speed
    ensures d.speed <= 0.0 ==> r.speed == 1.0
    ensures NonNegative(d.duration) ==> r.duration == d.duration
    ensures !NonNegative(d.duration) ==> r.duration == Finite(0.0)
  {
    d.(speed := if d.speed <= 0.0 then 1.0 else d.speed, duration := AtLeastZero(d.duration))
  }

  /**
    RunnerClipData.Verify followed by the kind-specific override: true exactly
    when every engine reference of the tree is present, and then the speed is
    positive and the duration nonnegative.
  */
  function Verify(d: ClipData): (r: Verified)
    ensures r.ok <==> RefsPresent(d)
    ensures r.ok ==> r.data.speed > 0.0 && NonNegative(r.data.duration)
    ensures SameShape(d, r.data)
    decreases d, 1
  {
    match d.kind
    case Plain => Verified(true, VerifyBase(d))
    case Value(_, _, _, _) => Verified(true, VerifyBase(d))
    case Invoke(_) => Verified(true, VerifyBase(d.(speed := 1.0)))
    case Bound(k, present) =>
      if present then Verified(true, VerifyBase(d))
      else if k == Move || k == Rotate || k == Scale then Verified(false, d.(duration := AtLeastZero(d.duration)))
      else Verified(false, d)
    case Animation(a) => VerifyAnimation(d, a)
    case Group(cs) =>
      var g := VerifyChildren(d, cs, Finite(0.0));
      var d' := d.(duration := g.span, kind := Group(g.children));
      if g.ok then Verified(true, VerifyBase(d')) else Verified(false, d')
  }

  /**
    Verify on a leaf configuration: an invoker clip always verifies and has
    its speed forced to 1; a plain, value or engine-bound clip with its
    references present gets RunnerClipData.Verify's speed and duration; an
    engine-bound clip without them keeps its speed and kind.
  */
  lemma VerifyLeaf(d: ClipData)
    ensures d.kind.Invoke? ==> Verify(d).ok && Verify(d).data == d.(speed := 1.0, duration := AtLeastZero(d.duration))
    ensures d.kind.Plain? || d.kind.Value? || (d.kind.Bound? && d.kind.refsPresent) ==>
      Verify(d).ok && Verify(d).data == VerifyBase(d)
    ensures d.kind.Bound? && !d.kind.refsPresent ==> Verify(d).data.speed == d.speed && Verify(d).data.kind == d.kind
  {
  }

  /** Both configurations are of the same kind, and groups have equally many children. */
  predicate SameShape(d: ClipData, e: ClipData) {
    match d.kind
    case Group(cs) => e.kind.Group? && |e.kind.children| == |cs|
    case Plain => e.kind.Plain?
    case Animation(_) => e.kind.Animation?
    case Value(_, _, _, _) => e.kind.Value?
    case Invoke(_) => e.kind.Invoke?
    case Bound(_, _) => e.kind.Bound?
  }

  /** `cs` is a trailing part of `group`'s children: what is left of its Verify loop. */
  ghost predicate IsSuffix(group: ClipData, cs: seq<Child>) {
    group.kind.Group? && |cs| <= |group.kind.children|
    && cs == group.kind.children[|group.kind.children| - |cs|..]
  }

  /** The state of GroupClipData.Verify's loop: the children so far and the running maximum. */
  datatype GroupPass = GroupPass(ok: bool, children: seq<Child>, span: Extended)

  /** When a child with a positive speed ends, measured from its group's start. */
  function End(c: Child): Extended
    requires c.data.speed > 0.0
  {
    Shift(c.delay, Slow(c.data.duration, c.data.speed))
  }

  /**
    GroupClipData.Verify's loop: clamp each delay, verify the child, and stop with
    false at the first child whose Verify fails, leaving the later children as they
    were; otherwise fold the child's end into the running maximum `span`.
  */
  function VerifyChildren(ghost group: ClipData, cs: seq<Child>, span: Extended): (r: GroupPass)
    requires IsSuffix(group, cs)
    ensures |r.children| == |cs|
    ensures r.ok <==> ChildRefsPresent(cs)
    decreases group, 0, |cs|
  {
    if |cs| == 0 then GroupPass(true, [], span)
    else
      var delay := MaxReal(cs[0].delay, 0.0);
      var v := Verify(cs[0].data);
      var c := Child(delay, v.data);
      if !v.ok then GroupPass(false, [c] + cs[1..], span)
      else
        var span' := Max(span, Shift(delay, Slow(v.data.duration, v.data.speed)));
        var rest := VerifyChildren(group, cs[1..], span');
        GroupPass(rest.ok, [c] + rest.children, rest.span)
  }

  /** Child `i` went through the loop: delay clamped to 0 and configuration verified. */
  predicate Visited(cs: seq<Child>, out: seq<Child>, i: int)
    requires 0 <= i < |cs| && i < |out|
  {
    out[i] == Child(MaxReal(cs[i].delay, 0.0), Verify(cs[i].data).data)
  }

  /** The loop stopped at child `k`, whose Verify failed, after visiting it and every
      child before it; the later children are untouched. */
  predicate StoppedAt(cs: seq<Child>, out: seq<Child>, k: int)
    requires |out| == |cs|
  {
    && 0 <= k < |cs|
    && !Verify(cs[k].data).ok
    && (forall i :: 0 <= i <= k ==> Visited(cs, out, i))
    && out[k + 1..] == cs[k + 1..]
  }

  /**
    GroupClipData.Verify's loop visits every child when it succeeds, and stops at
    the first child whose Verify fails otherwise.
  */
  lemma VerifyChildrenVisits(group: ClipData, cs: seq<Child>, span: Extended)
    requires IsSuffix(group, cs)
    ensures var r := VerifyChildren(group, cs, span);
      && (r.ok ==> forall i :: 0 <= i < |cs| ==> Visited(cs, r.children, i))
      && (!r.ok ==> exists k :: StoppedAt(cs, r.children, k))
  {
    if VerifyChildren(group, cs, span).ok {
      VerifyChildrenVisitsAll(group, cs, span);
    } else {
      var k := VerifyChildrenStops(group, cs, span);
    }
  }

  lemma {:induction false} VerifyChildrenVisitsAll(group: ClipData, cs: seq<Child>, span: Extended)
    requires IsSuffix(group, cs) && VerifyChildren(group, cs, span).ok
    ensures forall i :: 0 <= i < |cs| ==> Visited(cs, VerifyChildren(group, cs, span).children, i)
    decreases |cs|
  {
    var r := VerifyChildren(group, cs, span);
    if |cs| > 0 {
      var delay := MaxReal(cs[0].delay, 0.0);
      var v := Verify(cs[0].data);
      var c := Child(delay, v.data);
      assert Visited(cs, r.children, 0);
      var span' := Max(span, Shift(delay, Slow(v.data.duration, v.data.speed)));
      var rest := VerifyChildren(group, cs[1..], span');
      VerifyChildrenVisitsAll(group, cs[1..], span');
      assert r.children == [c] + rest.children;
      forall i | 1 <= i < |cs|
        ensures Visited(cs, r.children, i)
      {
        assert Visited(cs[1..], rest.children, i - 1);
      }
    }
  }

  lemma {:induction false} VerifyChildrenStops(group: ClipData, cs: seq<Child>, span: Extended) returns (k: nat)
    requires IsSuffix(group, cs) && !VerifyChildren(group, cs, span).ok
    ensures StoppedAt(cs, VerifyChildren(group, cs, span).children, k)
    decreases |cs|
  {
    var r := VerifyChildren(group, cs, span);
    var delay := MaxReal(cs[0].delay, 0.0);
    var v := Verify(cs[0].data);
    var c := Child(delay, v.data);
    if !v.ok {
      assert r.children == [c] + cs[1..];
      assert Visited(cs, r.children, 0);
      k := 0;
    } else {
      var span' := Max(span, Shift(delay, Slow(v.data.duration, v.data.speed)));
      var rest := VerifyChildren(group, cs[1..], span');
      var k' := VerifyChildrenStops(group, cs[1..], span');
      assert r.children == [c] + rest.children;
      assert Visited(cs, r.children, 0);
      StoppedAtShift(cs, r.children, k');
      k := k' + 1;
    }
  }

  /** A stop found in the tail is a stop one place later in the whole sequence. */
  lemma StoppedAtShift(cs: seq<Child>, out: seq<Child>, k: nat)
    requires |out| == |cs| > 0 && Visited(cs, out, 0) && StoppedAt(cs[1..], out[1..], k)
    ensures StoppedAt(cs, out, k + 1)
  {
    assert cs[k + 1] == cs[1..][k];
    assert out[k + 2..] == out[1..][k + 1..] == cs[1..][k + 1..] == cs[k + 2..];
    forall i | 1 <= i <= k + 1
      ensures Visited(cs, out, i)
    {
      assert Visited(cs[1..], out[1..], i - 1);
    }
  }

  /** The running maximum of GroupClipData.Verify's loop only grows. */
  lemma {:induction false} VerifyChildrenGrows(group: ClipData, cs: seq<Child>, span: Extended)
    requires IsSuffix(group, cs)
    ensures Le(span, VerifyChildren(group, cs, span).span)
    decreases |cs|
  {
    if |cs| > 0 {
      var v := Verify(cs[0].data);
      if v.ok {
        var span' := Max(span, Shift(MaxReal(cs[0].delay, 0.0), Slow(v.data.duration, v.data.speed)));
        VerifyChildrenGrows(group, cs[1..], span');
        LeTransitive(span, span', VerifyChildren(group, cs[1..], span').span);
      }
    }
  }

  /**
    On success every child of GroupClipData.Verify's loop has a positive speed
    and ends no later than the returned maximum, and that maximum is the starting
    value or one child's end.
  */
  lemma {:induction false} VerifyChildrenSpan(group: ClipData, cs: seq<Child>, span: Extended)
    requires IsSuffix(group, cs)
    requires VerifyChildren(group, cs, span).ok
    ensures var r := VerifyChildren(group, cs, span);
      && (forall i :: 0 <= i < |cs| ==> r.children[i].data.speed > 0.0 && Le(End(r.children[i]), r.span))
      && (r.span == span || exists i :: 0 <= i < |cs| && r.children[i].data.speed > 0.0 && r.span == End(r.children[i]))
    decreases |cs|
  {
    var r := VerifyChildren(group, cs, span);
    if |cs| > 0 {
      var v := Verify(cs[0].data);
      var c := Child(MaxReal(cs[0].delay, 0.0), v.data);
      var span' := Max(span, End(c));
      var rest := VerifyChildren(group, cs[1..], span');
      assert r.children == [c] + rest.children && r.span == rest.span;
      VerifyChildrenSpan(group, cs[1..], span');
      VerifyChildrenGrows(group, cs[1..], span');
      LeTransitive(End(c), span', rest.span);
      assert forall i :: 1 <= i < |cs| ==> r.children[i] == rest.children[i - 1];
      if r.span != span {
        if r.span == span' {
          assert r.children[0] == c;
        } else {
          var j :| 0 <= j < |cs| - 1 && rest.children[j].data.speed > 0.0 && rest.span == End(rest.children[j]);
          assert r.children[j + 1] == rest.children[j];
        }
      }
    }
  }

  /** The animation fields Verify clamps, and the frame-speed list it normalises. */
  function NormaliseAnimation(a: AnimationParams): (r: AnimationParams)
    requires a.asset.Some?
    ensures r.asset == a.asset && r.animator == a.animator && r.ending == a.ending
    ensures r.to.Finite? && 0.0 <= r.from <= r.to.value <= FrameCount(a.asset.value)
    ensures 0.0 <= r.transition <= r.to.value - r.from
    ensures r.weight != 0.0 && (a.weight != 0.0 ==> r.weight == a.weight)
    ensures NonZero(r.frameSpeeds) && SortedByFrame(r.frameSpeeds) && InClip(r.frameSpeeds, FrameCount(a.asset.value))
  {
    var fc := FrameCount(a.asset.value);
    var from := Clamp(a.from, 0.0, fc);
    var to := ClampExtended(a.to, from, fc);
    a.(from := from,
       to := Finite(to),
       transition := Clamp(a.transition, 0.0, to - from),
       weight := if a.weight == 0.0 then 1.0 else a.weight,
       frameSpeeds := Normalise(a.frameSpeeds, fc))
  }

  /** The seconds an animation plays between its clamped `from` and `to`. */
  function PlayLength(a: AnimationParams): real
    requires a.asset.Some? && a.to.Finite? && NonZero(a.frameSpeeds)
  {
    Len(a.asset.value, a.frameSpeeds, a.from, a.to.value)
  }

  /**
    AnimationClipData.Verify, with the play length divided by the speed after
    it has been normalised (see VerifyAnimationAsWritten).
  */
  function VerifyAnimation(d: ClipData, a: AnimationParams): (r: Verified)
    requires d.kind == Animation(a)
    ensures r.ok <==> a.animator.Some? && a.asset.Some?
    ensures !r.ok ==> r.data == d
    ensures r.ok ==> && r.data.kind == Animation(NormaliseAnimation(a))
                     && r.data.speed == (if d.speed > 0.0 then d.speed else 1.0)
    ensures r.ok && a.ending != Once ==> r.data.duration == Infinity
    ensures r.ok && a.ending == Once ==>
      var b := r.data.kind.anim;
      r.data.duration == AtLeastZero(Finite(Len(a.asset.value, b.frameSpeeds, b.from, b.to.value) / r.data.speed))
    ensures r.ok && a.ending == Once && Positive(a.frameSpeeds) ==>
      var b := r.data.kind.anim;
      r.data.duration == Finite(Len(a.asset.value, b.frameSpeeds, b.from, b.to.value) / r.data.speed)
  {
    if a.animator.None? || a.asset.None? then Verified(false, d)
    else
      var a' := NormaliseAnimation(a);
      var speed := if d.speed <= 0.0 then 1.0 else d.speed;
      var len := Len(a.asset.value, a'.frameSpeeds, a'.from, a'.to.value);
      var duration := if a.ending == Once then Finite(len / speed) else Infinity;
      NormaliseKeepsPositiveIf(a);
      assert Positive(a.frameSpeeds) ==> len >= 0.0;
      DivideNonNegative(len, speed);
      Verified(true, VerifyBase(d.(duration := duration, kind := Animation(a'))))
  }

  /**
    AnimationClipData.Verify as written: the duration is divided by the speed
    before base.Verify() has replaced a non-positive speed by 1.  A zero speed
    gives +infinity (or NaN, which compares like it) for a nonnegative length.
  */
  function VerifyAnimationAsWritten(d: ClipData, a: AnimationParams): (r: Verified)
    requires d.kind == Animation(a)
    ensures d.speed > 0.0 ==> r == VerifyAnimation(d, a)
    ensures r.ok <==> a.animator.Some? && a.asset.Some?
    ensures a.animator.Some? && a.asset.Some? && a.ending == Once ==>
      var len := PlayLength(NormaliseAnimation(a));
      && (d.speed == 0.0 && len >= 0.0 ==> r.data.duration == Infinity)
      && (d.speed < 0.0 && len > 0.0 ==> r.data.duration == Finite(0.0))
  {
    if a.animator.None? || a.asset.None? then Verified(false, d)
    else
      var a' := NormaliseAnimation(a);
      var len := PlayLength(a');
      DivideByNegative(len, d.speed);
      var duration :=
        if a.ending != Once then Infinity
        else if d.speed != 0.0 then Finite(len / d.speed)
        else if len >= 0.0 then Infinity
        else Finite(0.0);
      Verified(true, VerifyBase(d.(duration := duration, kind := Animation(a'))))
  }

  lemma DivideNonNegative(x: real, y: real)
    requires y > 0.0
    ensures x >= 0.0 ==> x / y >= 0.0
  {
  }

  lemma DivideByNegative(x: real, y: real)
    ensures y < 0.0 && x > 0.0 ==> x / y < 0.0
  {
    if y < 0.0 && x > 0.0 {
      assert (x / y) * y == x;
    }
  }

  /** Positive frame speeds stay positive through the normalisation Verify applies. */
  lemma NormaliseKeepsPositiveIf(a: AnimationParams)
    requires a.asset.Some?
    ensures Positive(a.frameSpeeds) ==> Positive(NormaliseAnimation(a).frameSpeeds)
  {
    if Positive(a.frameSpeeds) {
      NormaliseKeepsPositive(a.frameSpeeds, FrameCount(a.asset.value));
    }
  }

  /**
    Without frame speeds an animation that plays once lasts its frame distance
    over the frame rate times the speed: (to - from) / (frameRate * speed),
    with `from` and `to` clamped into the clip and the speed normalised.
  */
  lemma AnimationDurationWithoutSpeeds(d: ClipData, a: AnimationParams)
    requires d.kind == Animation(a) && a.animator.Some? && a.asset.Some?
    requires a.ending == Once && |a.frameSpeeds| == 0
    ensures var v := VerifyAnimation(d, a).data; var b := v.kind.anim;
      v.duration == Finite((b.to.value - b.from) / (a.asset.value.frameRate * v.speed))
  {
    var asset := a.asset.value;
    var v := VerifyAnimation(d, a).data;
    var b := v.kind.anim;
    assert b == NormaliseAnimation(a);
    assert b.frameSpeeds == [];
    var x := b.to.value - b.from;
    LenWithoutSpeeds(asset, b.from, b.to.value);
    assert Len(asset, [], b.from, b.to.value) == x / asset.frameRate;
    DivideTwice(x, asset.frameRate, v.speed);
    assert v.duration == AtLeastZero(Finite(x / asset.frameRate / v.speed));
  }

  lemma DivideTwice(x: real, y: real, z: real)
    requires x >= 0.0 && y > 0.0 && z > 0.0
    ensures x / y / z == x / (y * z) >= 0.0
  {
    assert y * z > 0.0;
    assert (x / y / z) * (y * z) == x;
  }

  lemma NormaliseAnimationIdempotent(a: AnimationParams)
    requires a.asset.Some?
    ensures NormaliseAnimation(NormaliseAnimation(a)) == NormaliseAnimation(a)
  {
    NormaliseIdempotent(a.frameSpeeds, FrameCount(a.asset.value));
  }

  /**
    Verify is idempotent: verifying the configuration it leaves gives the same
    result and changes nothing, whether or not the first call succeeded.
  */
  lemma {:induction false} VerifyIdempotent(d: ClipData)
    ensures Verify(Verify(d).data) == Verify(d)
    decreases d, 1
  {
    match d.kind
    case Plain =>
    case Value(_, _, _, _) =>
    case Invoke(_) =>
    case Bound(_, _) =>
    case Animation(a) =>
      if a.animator.Some? && a.asset.Some? {
        NormaliseAnimationIdempotent(a);
      }
    case Group(cs) =>
      var g := VerifyChildren(d, cs, Finite(0.0));
      var d' := d.(duration := g.span, kind := Group(g.children));
      var v := Verify(d);
      assert v.data.kind == Group(g.children);
      VerifyChildrenIdempotent(d, cs, Finite(0.0), v.data);
      if g.ok {
        VerifyChildrenGrows(d, cs, Finite(0.0));
      }
  }

  lemma {:induction false} VerifyChildrenIdempotent(group: ClipData, cs: seq<Child>, span: Extended, group2: ClipData)
    requires IsSuffix(group, cs)
    requires IsSuffix(group2, VerifyChildren(group, cs, span).children)
    ensures VerifyChildren(group2, VerifyChildren(group, cs, span).children, span) == VerifyChildren(group, cs, span)
    decreases group, 0, |cs|
  {
    var r := VerifyChildren(group, cs, span);
    if |cs| > 0 {
      var delay := MaxReal(cs[0].delay, 0.0);
      var v := Verify(cs[0].data);
      VerifyIdempotent(cs[0].data);
      var c := Child(delay, v.data);
      assert r.children[0] == c;
      if v.ok {
        var span' := Max(span, Shift(delay, Slow(v.data.duration, v.data.speed)));
        var rest := VerifyChildren(group, cs[1..], span');
        assert r.children == [c] + rest.children;
        assert r.children[1..] == rest.children;
        VerifyChildrenIdempotent(group, cs[1..], span', group2);
      } else {
        assert r.children[1..] == cs[1..];
      }
    }
  }

  /**
    What GroupClipData.Verify leaves when it succeeds: every child delay clamped
    to at least 0 and every child configuration verified, and a duration that is
    the latest child end `delay + duration / speed` (0 without children).
  */
  lemma GroupVerifyDuration(d: ClipData)
    requires d.kind.Group? && Verify(d).ok
    ensures var v := Verify(d).data;
      && v.kind.Group? && |v.kind.children| == |d.kind.children|
      && (forall i :: 0 <= i < |d.kind.children| ==>
            v.kind.children[i] == Child(MaxReal(d.kind.children[i].delay, 0.0), Verify(d.kind.children[i].data).data)
            && v.kind.children[i].delay >= 0.0
            && v.kind.children[i].data.speed > 0.0
            && Le(End(v.kind.children[i]), v.duration))
      && (v.duration == Finite(0.0) || exists i :: 0 <= i < |d.kind.children| && v.kind.children[i].data.speed > 0.0 && v.duration == End(v.kind.children[i]))
  {
    var cs := d.kind.children;
    var g := VerifyChildren(d, cs, Finite(0.0));
    VerifyChildrenVisits(d, cs, Finite(0.0));
    VerifyChildrenGrows(d, cs, Finite(0.0));
    VerifyChildrenSpan(d, cs, Finite(0.0));
    var v := Verify(d).data;
    assert NonNegative(g.span);
    assert v.duration == g.span && v.kind.children == g.children;
    forall i | 0 <= i < |cs|
      ensures v.kind.children[i] == Child(MaxReal(cs[i].delay, 0.0), Verify(cs[i].data).data)
    {
      assert Visited(cs, g.children, i);
    }
  }

  /** The nesting depth of a configuration tree: 1 for a leaf. */
  function Depth(d: ClipData): (r: nat)
    ensures r >= 1
    decreases d, 1
  {
    if d.kind.Group? then 1 + ChildDepth(d, 0) else 1
  }

  /** The deepest of a group's children from index `i` on (0 when none). */
  function ChildDepth(d: ClipData, i: nat): nat
    requires d.kind.Group?
    decreases d, 0, |d.kind.children| - i
  {
    if i >= |d.kind.children| then 0
    else
      var here := Depth(d.kind.children[i].data);
      var later := ChildDepth(d, i + 1);
      if here > later then here else later
  }

  lemma {:induction false} ChildDepthBound(d: ClipData, i: nat, j: nat)
    requires d.kind.Group? && i <= j < |d.kind.children|
    ensures Depth(d.kind.children[j].data) <= ChildDepth(d, i)
    decreases j - i
  {
    if i < j {
      ChildDepthBound(d, i + 1, j);
    }
  }

  /** A child configuration is strictly shallower than its group. */
  lemma ChildShallower(d: ClipData, j: nat)
    requires d.kind.Group? && j < |d.kind.children|
    ensures Depth(d.kind.children[j].data) < Depth(d)
  {
    ChildDepthBound(d, 0, j);
  }

  lemma {:induction false} ChildDepthEqual(d: ClipData, e: ClipData, i: nat)
    requires d.kind.Group? && e.kind.Group? && |d.kind.children| == |e.kind.children|
    requires forall j :: 0 <= j < |d.kind.children| ==> Depth(d.kind.children[j].data) == Depth(e.kind.children[j].data)
    ensures ChildDepth(d, i) == ChildDepth(e, i)
    decreases |d.kind.children| - i
  {
    if i < |d.kind.children| {
      ChildDepthEqual(d, e, i + 1);
    }
  }

  /** Verify keeps the shape of the tree, so its depth too. */
  lemma {:induction false} VerifyKeepsDepth(d: ClipData)
    ensures Depth(Verify(d).data) == Depth(d)
    decreases d
  {
    if d.kind.Group? {
      var cs := d.kind.children;
      var v := Verify(d).data;
      var g := VerifyChildren(d, cs, Finite(0.0));
      assert v.kind.children == g.children;
      VerifyChildrenVisits(d, cs, Finite(0.0));
      forall j | 0 <= j < |cs|
        ensures Depth(v.kind.children[j].data) == Depth(cs[j].data)
      {
        VerifyKeepsDepth(cs[j].data);
        if !g.ok {
          var k :| StoppedAt(cs, g.children, k);
          if j > k {
            assert g.children[j] == g.children[k + 1..][j - k - 1];
          } else {
            assert Visited(cs, g.children, j);
          }
        } else {
          assert Visited(cs, g.children, j);
        }
      }
      ChildDepthEqual(v, d, 0);
    }
  }

  /**
    AnimationClipData.Verify's clamps: on success 0 <= from <= to <= frameCount,
    0 <= transition <= to - from, a nonzero weight, and a frame-speed list that is
    sorted by frame, free of zero speeds and inside the clip.
  */
  lemma AnimationVerifyClamps(d: ClipData, a: AnimationParams)
    requires d.kind == Animation(a)
    ensures var r := VerifyAnimation(d, a); var v := r.data;
      r.ok ==>
      && v.kind.Animation? && v.kind.anim.asset == a.asset && v.kind.anim.to.Finite?
      && v.kind.anim.animator == a.animator && v.kind.anim.ending == a.ending
      && v.kind.anim.from == Clamp(a.from, 0.0, FrameCount(a.asset.value))
      && v.kind.anim.to.value == ClampExtended(a.to, v.kind.anim.from, FrameCount(a.asset.value))
      && v.kind.anim.transition == Clamp(a.transition, 0.0, v.kind.anim.to.value - v.kind.anim.from)
      && (a.weight != 0.0 ==> v.kind.anim.weight == a.weight)
      && (forall x :: x in v.kind.anim.frameSpeeds <==> x in a.frameSpeeds && Kept(x, FrameCount(a.asset.value)))
      && 0.0 <= v.kind.anim.from <= v.kind.anim.to.value <= FrameCount(a.asset.value)
      && 0.0 <= v.kind.anim.transition <= v.kind.anim.to.value - v.kind.anim.from
      && v.kind.anim.weight != 0.0
      && SortedByFrame(v.kind.anim.frameSpeeds) && NonZero(v.kind.anim.frameSpeeds)
      && InClip(v.kind.anim.frameSpeeds, FrameCount(a.asset.value))
  {
  }

  /**
    AnimationClipData.Verify as written is not idempotent: an animation of 2
    seconds scheduled with speed -1 first gets duration 0 (the length divided by
    -1, clamped), and a second call, now with speed 1, gives it 2 seconds.  The
    corrected Verify gives 2 seconds on the first call already.
  */
  lemma AnimationVerifyAsWrittenNotIdempotent()
    ensures var a := AnimationParams(Some(0), Some(Asset(2.0, 30.0)), [], Once, 0.0, Infinity, 5.0, 1.0);
      var d := ClipData(-1.0, Finite(0.0), Animation(a));
      var first := VerifyAnimationAsWritten(d, a);
      var second := VerifyAnimationAsWritten(first.data, first.data.kind.anim);
      && first.data.duration == Finite(0.0)
      && second.data.duration == Finite(2.0)
      && Verify(d).data.duration == Finite(2.0)
  {
    var a := AnimationParams(Some(0), Some(Asset(2.0, 30.0)), [], Once, 0.0, Infinity, 5.0, 1.0);
    var a' := NormaliseAnimation(a);
    assert FrameCount(Asset(2.0, 30.0)) == 60.0;
    assert a'.from == 0.0 && a'.to == Finite(60.0) && a'.frameSpeeds == [];
    assert PlayLength(a') == 2.0;
    NormaliseAnimationIdempotent(a);
  }
}
