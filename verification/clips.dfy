/**
  Running clips (RunnerClip and its subclasses): the lifecycle
  NotStarted -> Running -> Done -> Destroyed, the per-frame step with its lazy
  start, group composition with per-child delays, the animation frame and
  mixer update, and the value and invoker clips' deferred calls.
*/
module Clips {
  import opened Time
  import opened Timeline
  import opened Config
  import opened Invoker
  import opened Mixer

  /** RunnerClip.RunState; `NotStarted` is the source's RunState.None. */
  datatype RunState = NotStarted | Running | Done | Destroyed

  /** The position of a state along the lifecycle. */
  function Rank(s: RunState): nat {
    match s
    case NotStarted => 0
    case Running => 1
    case Done => 2
    case Destroyed => 3
  }

  /**
    What a clip builds when it starts: a group's child clips with their
    pending delays; an animation's exiting flag and cycle length, present once
    its mixer contributor exists.
  */
  datatype Runtime =
    | Basic
    | GroupRt(children: seq<ChildClip>)
    | AnimRt(exiting: bool, cycle: real)

  datatype ChildClip = ChildClip(delay: real, clip: Clip)

  /** A clip: its identity, its configuration, its state and its Elapsed time. */
  datatype Clip = Clip(id: nat, data: ClipData, state: RunState, elapsed: real, rt: Runtime)

  /** RunnerClipData.CreateClip. */
  function NewClip(id: nat, d: ClipData): Clip {
    Clip(id, d, NotStarted, 0.0, Basic)
  }

  /**
    What clips share while they run: the director's callback queue, the mixer
    track of every animator, and the next free clip identity.
  */
  datatype Env = Env(queue: seq<Entry>, tracks: map<nat, Track>, nextId: nat)

  /**
    RunnerClip.Running's result: the -1 of a clip that did not advance, the
    fraction of the step taken before the clip completed (1 while it has not),
    or the 0/0 of a clip that completed in a step of no time.
  */
  datatype Progress = NotAdvanced | Fraction(value: real) | Indeterminate

  /** Ease functions by identity: the Ease library is outside the model. */
  type Eases = (nat, real) -> real

  /** The height of a clip tree: at least its configuration's depth, and above every child clip. */
  function Height(c: Clip): (r: nat)
    ensures r >= Depth(c.data)
    decreases c.rt, 2
  {
    var h := RuntimeHeight(c.rt);
    if h > Depth(c.data) then h else Depth(c.data)
  }

  function RuntimeHeight(rt: Runtime): nat
    decreases rt, 1
  {
    if rt.GroupRt? then 1 + ChildrenHeight(rt, 0) else 0
  }

  function ChildrenHeight(rt: Runtime, i: nat): nat
    requires rt.GroupRt?
    decreases rt, 0, |rt.children| - i
  {
    if i >= |rt.children| then 0
    else
      var here := Height(rt.children[i].clip);
      var later := ChildrenHeight(rt, i + 1);
      if here > later then here else later
  }

  lemma {:induction false} ChildrenHeightBound(rt: Runtime, i: nat, j: nat)
    requires rt.GroupRt? && i <= j < |rt.children|
    ensures Height(rt.children[j].clip) <= ChildrenHeight(rt, i)
    decreases j - i
  {
    if i < j {
      ChildrenHeightBound(rt, i + 1, j);
    }
  }

  /** A child clip is strictly lower than its group. */
  lemma ChildLower(c: Clip, j: nat)
    requires c.rt.GroupRt? && j < |c.rt.children|
    ensures Height(c.rt.children[j].clip) < Height(c)
  {
    ChildrenHeightBound(c.rt, 0, j);
  }

  /** The child clips GroupClip.Run creates, numbered from `nextId`. */
  function NewChildren(cs: seq<Child>, nextId: nat): (r: seq<ChildClip>)
    ensures |r| == |cs|
    ensures forall i :: 0 <= i < |cs| ==> r[i] == ChildClip(cs[i].delay, NewClip(nextId + i, cs[i].data))
  {
    seq(|cs|, i requires 0 <= i < |cs| => ChildClip(cs[i].delay, NewClip(nextId + i, cs[i].data)))
  }

  /** What a start or a destroy leaves: the clip and the shared state. */
  datatype Changed = Changed(clip: Clip, env: Env)

  /** The mixer track of an animator, empty before its first clip. */
  function TrackOf(env: Env, animator: nat): Track {
    if animator in env.tracks then env.tracks[animator] else Track([], [])
  }

  /**
    RunnerClip.Run and its overrides: a clip that has not started re-verifies
    its configuration (a failure is only logged), sets Elapsed to 0 and becomes
    Running; a group creates its child clips; an animation computes its cycle
    length, clears its exiting flag and adds its contributor to its animator's
    track.  Any other clip is left as it is.
  */
  function Start(c: Clip, env: Env): (r: Changed)
    ensures c.state != NotStarted ==> r == Changed(c, env)
    ensures c.state == NotStarted ==>
      (r.clip.state == Running && r.clip.elapsed == 0.0 && r.clip.data == Verify(c.data).data && r.clip.id == c.id)
  {
    if c.state != NotStarted then Changed(c, env)
    else
      var v := Verify(c.data);
      var d := v.data;
      var started := c.(data := d, elapsed := 0.0, state := Running);
      match d.kind
      case Group(cs) =>
        Changed(started.(rt := GroupRt(NewChildren(cs, env.nextId))), env.(nextId := env.nextId + |cs|))
      case Animation(a) =>
        if c.data.kind.Animation? && v.ok then
          AnimationVerifyClamps(c.data, c.data.kind.anim);
          var asset := a.asset.value;
          var animator := a.animator.value;
          var cycle := Len(asset, a.frameSpeeds, a.from, a.to.value) / d.speed;
          var track := Attach(TrackOf(env, animator), c.id, a.from, a.weight, a.transition);
          Changed(started.(rt := AnimRt(false, cycle)), env.(tracks := env.tracks[animator := track]))
        else Changed(started, env)
      case _ => Changed(started, env)
  }

  /**
    An animation whose configuration verifies, that is, whose animator and asset
    are present: starting it creates its mixer contributor.  (One that fails
    Verify starts without one.)
  */
  predicate StartsAnimation(c: Clip) {
    c.data.kind.Animation? && c.data.kind.anim.animator.Some? && c.data.kind.anim.asset.Some?
  }

  /**
    AnimationClip.Run for an animation whose configuration verifies: the clip's
    cycle is its play length over its speed and it is not exiting; its
    animator's track (created if needed) gains one contributor at the end, for
    this clip, at the `from` frame, with weight 0 heading for the configured
    weight over the configured transition; every other track, the queue and
    the next identity are kept.
  */
  lemma StartAttaches(c: Clip, env: Env)
    requires c.state == NotStarted && StartsAnimation(c)
    ensures var d := Verify(c.data).data;
      && d.kind.Animation? && d.kind.anim.animator.Some? && d.kind.anim.asset.Some?
      && d.kind.anim.to.Finite? && NonZero(d.kind.anim.frameSpeeds)
      && var a := d.kind.anim; var r := Start(c, env);
      var before := TrackOf(env, a.animator.value);
      && a.animator.value in r.env.tracks
      && var after := r.env.tracks[a.animator.value];
      && r.clip.rt == AnimRt(false, Len(a.asset.value, a.frameSpeeds, a.from, a.to.value) / d.speed)
      && r.env.queue == env.queue && r.env.nextId == env.nextId
      && r.env.tracks.Keys == env.tracks.Keys + {a.animator.value}
      && (forall k :: k in env.tracks && k != a.animator.value ==> r.env.tracks[k] == env.tracks[k])
      && |after.states| == |before.states| + 1 && after.states[..|before.states|] == before.states
      && after.states[|before.states|].clip == c.id && after.states[|before.states|].frame == a.from
      && after.states[|before.states|].weight == 0.0 && after.states[|before.states|].target == a.weight
      && after.states[|before.states|].fade == a.transition
  {
    assert Verify(c.data) == VerifyAnimation(c.data, c.data.kind.anim);
    AnimationVerifyClamps(c.data, c.data.kind.anim);
    var d := Verify(c.data).data;
    var a := d.kind.anim;
    var track := Attach(TrackOf(env, a.animator.value), c.id, a.from, a.weight, a.transition);
    var rt := AnimRt(false, Len(a.asset.value, a.frameSpeeds, a.from, a.to.value) / d.speed);
    assert Start(c, env) == Changed(c.(data := d, elapsed := 0.0, state := Running, rt := rt),
                                    env.(tracks := env.tracks[a.animator.value := track]));
  }

  /**
    GroupClip.Run: the group's child clips are created from its verified
    children, with their delays, numbered from the next free identity, which
    moves past them; nothing else of the shared state changes.
  */
  lemma StartGroup(c: Clip, env: Env)
    requires c.state == NotStarted && Verify(c.data).data.kind.Group?
    ensures var cs := Verify(c.data).data.kind.children; var r := Start(c, env);
      r.clip.rt == GroupRt(NewChildren(cs, env.nextId)) && r.env == env.(nextId := env.nextId + |cs|)
  {
  }

  /** RunnerClip.Run for a clip that is neither a group nor a verified animation: the shared state and the runtime are kept. */
  lemma StartPlain(c: Clip, env: Env)
    requires c.state == NotStarted && !Verify(c.data).data.kind.Group? && !StartsAnimation(c)
    ensures Start(c, env).env == env && Start(c, env).clip.rt == c.rt
  {
  }

  /** The outcome of RunnerClip.Running's base part. */
  datatype Advanced = Advanced(clip: Clip, progress: Progress)

  /**
    RunnerClip.Running after the lazy start: a Running clip adds `dt * speed`
    to Elapsed and completes once Elapsed reaches the duration, reporting the
    fraction of the scaled step taken before that point; any other clip does
    not advance.
  */
  function Advance(c: Clip, dt: real): (r: Advanced)
    ensures r.clip == c.(elapsed := r.clip.elapsed, state := r.clip.state)
    ensures c.state != Running ==> r == Advanced(c, NotAdvanced)
    ensures c.state == Running ==> r.clip.elapsed == c.elapsed + dt * c.data.speed
    ensures c.state == Running ==> (r.clip.state == Done <==> Reached(r.clip.elapsed, c.data.duration))
    ensures c.state == Running && r.clip.state == Running ==> r.progress == Fraction(1.0)
  {
    if c.state != Running then Advanced(c, NotAdvanced)
    else
      var step := dt * c.data.speed;
      var elapsed := c.elapsed + step;
      if Reached(elapsed, c.data.duration) then
        var progress := if step != 0.0 then Fraction((step + c.data.duration.value - elapsed) / step) else Indeterminate;
        Advanced(c.(elapsed := elapsed, state := Done), progress)
      else Advanced(c.(elapsed := elapsed), Fraction(1.0))
  }

  /**
    Where a pending delay stands after `dt` more seconds: whether the entry
    steps this frame, and if so with which delta and progress key.
  */
  datatype Resolved = Resolved(delay: real, steps: bool, dt: real, progress: real)

  /**
    The delay countdown shared by the director's nodes and a group's children:
    a positive delay is reduced by `dt`; once it is no longer positive the entry
    steps with the overshoot as its delta, and its progress key moves from `p`
    toward 1 by the share of the frame the delay used up.
  */
  function Resolve(delay: real, dt: real, p: real): (r: Resolved)
    ensures r.steps <==> delay <= 0.0 || delay <= dt
    ensures delay <= 0.0 ==> r == Resolved(delay, true, dt, p)
    ensures delay > 0.0 ==> r.delay == delay - dt
    ensures delay > 0.0 && r.steps ==> 0.0 <= r.dt < dt && r.dt == dt - delay
    ensures delay > 0.0 && r.steps ==> r.progress == p + (1.0 - p) * delay / dt
    ensures delay > 0.0 && r.steps && 0.0 <= p <= 1.0 ==> p <= r.progress <= 1.0
  {
    if delay > 0.0 then
      var left := delay - dt;
      if left <= 0.0 then
        var childDt := -left;
        FractionOfFrame(p, dt, childDt);
        assert dt - childDt == delay;
        Resolved(left, true, childDt, p + (1.0 - p) * (dt - childDt) / dt)
      else Resolved(left, false, dt, p)
    else Resolved(delay, true, dt, p)
  }

  lemma FractionOfFrame(p: real, dt: real, childDt: real)
    requires 0.0 <= childDt < dt
    ensures 0.0 <= p <= 1.0 ==> p <= p + (1.0 - p) * (dt - childDt) / dt <= 1.0
  {
    var f := (dt - childDt) / dt;
    assert f * dt == dt - childDt;
    assert 0.0 < f <= 1.0;
    ScaleWithin(1.0 - p, f);
  }

  /** The pieces of a clip step: the clip after it, the shared state, and RunnerClip.Running's result. */
  datatype Stepped = Stepped(clip: Clip, env: Env, progress: Progress)

  /** Mathf.Clamp01(Elapsed / duration), as ValueClip computes it; an infinite duration gives 0. */
  function TimeFraction(elapsed: real, duration: Extended): (r: real)
    ensures 0.0 <= r <= 1.0
    ensures duration.Finite? && duration.value > 0.0 && 0.0 <= elapsed <= duration.value ==> r * duration.value == elapsed
    ensures duration.Finite? && duration.value > 0.0 && elapsed >= duration.value ==> r == 1.0
    ensures duration.Finite? && duration.value > 0.0 && elapsed <= 0.0 ==> r == 0.0
    ensures duration.Infinity? ==> r == 0.0
  {
    match duration
    case Infinity => 0.0
    case Finite(d) =>
      if d != 0.0 then
        QuotientBounds(elapsed, d);
        Clamp01(elapsed / d)
      else if elapsed < 0.0 then 0.0
      else 1.0
  }

  lemma QuotientBounds(e: real, d: real)
    requires d != 0.0
    ensures e / d * d == e
    ensures d > 0.0 && 0.0 <= e <= d ==> 0.0 <= e / d <= 1.0
    ensures d > 0.0 && e >= d ==> e / d >= 1.0
    ensures d > 0.0 && e <= 0.0 ==> e / d <= 0.0
  {
    var q := e / d;
    assert q * d == e;
    if d > 0.0 {
      assert (q - 1.0) * d == e - d;
    }
  }

  /**
    The remainder of C#'s `%` on floats: the sign of `x`, the magnitude of
    `|x|` modulo `|y|`.  A zero `y` gives NaN there; 0 here, which AnimationClip
    then turns into its `from` frame exactly as To does with NaN.
  */
  function FloatRemainder(x: real, y: real): (r: real)
    ensures y != 0.0 ==> x - r == (TruncQuotient(x, y) as real) * y
    ensures y != 0.0 && x >= 0.0 ==> 0.0 <= r < (if y > 0.0 then y else -y)
    ensures y != 0.0 && x < 0.0 ==> -(if y > 0.0 then y else -y) < r <= 0.0
  {
    if y == 0.0 then 0.0
    else
      var m := if y > 0.0 then y else -y;
      var a := if x >= 0.0 then x else -x;
      var q := (a / m).Floor;
      assert (q as real) <= a / m < (q as real) + 1.0;
      RemainderWithin(a, m, q);
      var rem := a - m * (q as real);
      if x >= 0.0 then rem else -rem
  }

  /** The quotient of `x / y` truncated toward zero, as C#'s `%` uses it. */
  function TruncQuotient(x: real, y: real): int
    requires y != 0.0
  {
    var q := ((if x >= 0.0 then x else -x) / (if y > 0.0 then y else -y)).Floor;
    if (x >= 0.0) == (y > 0.0) then q else -q
  }

  lemma RemainderWithin(a: real, m: real, q: int)
    requires m > 0.0 && (q as real) <= a / m < (q as real) + 1.0
    ensures 0.0 <= a - m * (q as real) < m
  {
    var x := a / m;
    var k := q as real;
    var f := x - k;
    assert 0.0 <= f < 1.0;
    assert m * x == a;
    assert m * f == m * x - m * k;
    assert m * f >= 0.0;
    assert m - m * f == m * (1.0 - f);
    assert m * (1.0 - f) > 0.0;
    assert a - m * k == m * f;
    assert 0.0 <= a - m * k < m;
  }

  /** Scheduler.Running: a clip is stepped only for a nonnegative delta. */
  function RunScheduled(c: Clip, env: Env, dt: real, p: real, eases: Eases): (r: Stepped)
    ensures dt < 0.0 ==> r == Stepped(c, env, NotAdvanced)
    ensures dt >= 0.0 ==> r == Step(c, env, dt, p, eases)
    ensures r.clip.id == c.id
    ensures Over(c.state) ==> r == Stepped(c, env, NotAdvanced)
    decreases Height(c), 3
  {
    if dt >= 0.0 then Step(c, env, dt, p, eases) else Stepped(c, env, NotAdvanced)
  }

  /**
    RunnerClip.Running and its overrides: start lazily, advance, and when the
    clip advanced let its kind act — a group steps its children, an animation
    sets its frame, a value clip queues its setter and an invoker clip its
    callback, both keyed by `p`.
  */
  function Step(c: Clip, env: Env, dt: real, p: real, eases: Eases): (r: Stepped)
    ensures r.clip.id == c.id
    ensures Over(c.state) ==> r == Stepped(c, env, NotAdvanced)
    decreases Height(c), 2
  {
    var s := Start(c, env);
    StartNoHigher(c, env);
    StepStarted(s.clip, s.env, dt, p, eases, c.state)
  }

  /**
    The step of a clip once started: it advances as Advance says, and beyond
    that changes only its runtime; a clip that did not advance is left with the
    shared state untouched.
  */
  function StepStarted(c: Clip, env: Env, dt: real, p: real, eases: Eases, lastState: RunState): (r: Stepped)
    ensures var a := Advance(c, dt);
      && r.clip == a.clip.(rt := r.clip.rt) && r.progress == a.progress
      && (a.progress.NotAdvanced? ==> r.env == env && r.clip == a.clip)
    decreases Height(c), 1
  {
    var a := Advance(c, dt);
    if a.progress.NotAdvanced? then Stepped(a.clip, env, NotAdvanced)
    else
      var c' := a.clip;
      match c'.data.kind
      case Group(_) =>
        if c'.rt.GroupRt? then
          var g := StepChildren(c', env, dt, p, eases, 0, []);
          Stepped(c'.(rt := GroupRt(g.children)), g.env, a.progress)
        else Stepped(c', env, a.progress)
      case Animation(an) =>
        var u := AnimationFrame(c', env, lastState);
        Stepped(u.clip, u.env, a.progress)
      case Value(from, to, ease, setter) =>
        var t := TimeFraction(c'.elapsed, c'.data.duration);
        var et := if ease.Some? then eases(ease.value, t) else t;
        var value := Lerp(from, to, et);
        Stepped(c', env.(queue := Insert(env.queue, Entry(p, SetValue(setter, value)))), a.progress)
      case Invoke(callback) =>
        Stepped(c', env.(queue := Insert(env.queue, Entry(p, Call(callback)))), a.progress)
      case _ => Stepped(c', env, a.progress)
  }

  /**
    InvokerClip.Running: a Running invoker clip queues its callback under the
    progress key it was handed, after the entries already queued with a key no
    greater, and changes nothing else of the shared state.
  */
  lemma StepStartedInvoke(c: Clip, env: Env, dt: real, p: real, eases: Eases, lastState: RunState)
    requires c.state == Running && c.data.kind.Invoke?
    ensures var r := StepStarted(c, env, dt, p, eases, lastState);
      r.env == env.(queue := Insert(env.queue, Entry(p, Call(c.data.kind.callback))))
  {
    AdvanceRunning(c, dt);
  }

  /**
    ValueClip.Running: a Running value clip queues its setter under the
    progress key it was handed, with the value interpolated between its ends at
    the eased fraction of its duration that Elapsed has reached.
  */
  lemma StepStartedValue(c: Clip, env: Env, dt: real, p: real, eases: Eases, lastState: RunState)
    requires c.state == Running && c.data.kind.Value?
    ensures var r := StepStarted(c, env, dt, p, eases, lastState); var k := c.data.kind;
      var t := TimeFraction(c.elapsed + dt * c.data.speed, c.data.duration);
      var et := if k.ease.Some? then eases(k.ease.value, t) else t;
      r.env == env.(queue := Insert(env.queue, Entry(p, SetValue(k.setter, Lerp(k.start, k.end, et)))))
  {
    AdvanceRunning(c, dt);
  }

  /**
    GroupClip.Running: a Running group steps its children with its own delta,
    not scaled by its speed, and the progress key it was handed; each child
    counts its delay down by that delta, and the shared state is the one the
    children's steps leave.
  */
  lemma StepStartedGroup(c: Clip, env: Env, dt: real, p: real, eases: Eases, lastState: RunState)
    requires c.state == Running && c.data.kind.Group? && c.rt.GroupRt?
    ensures var r := StepStarted(c, env, dt, p, eases, lastState);
      var g := StepChildren(Advance(c, dt).clip, env, dt, p, eases, 0, []);
      && r.clip.rt == GroupRt(g.children) && r.env == g.env
      && |r.clip.rt.children| == |c.rt.children|
      && forall j :: 0 <= j < |c.rt.children| ==> ChildStepped(c.rt.children[j], r.clip.rt.children[j], dt, p)
  {
    AdvanceRunning(c, dt);
  }

  /**
    A child of a Running group whose delay runs out in this step is stepped
    through Scheduler.Running with the overshoot of its delay and the key
    Resolve composes from the group's key.
  */
  lemma StepStartedGroupDue(c: Clip, env: Env, dt: real, p: real, eases: Eases, lastState: RunState, j: nat)
    requires c.state == Running && c.data.kind.Group? && c.rt.GroupRt? && j < |c.rt.children|
    requires !Over(c.rt.children[j].clip.state) && Resolve(c.rt.children[j].delay, dt, p).steps
    ensures var r := StepStarted(c, env, dt, p, eases, lastState);
      var res := Resolve(c.rt.children[j].delay, dt, p);
      exists e: Env :: r.clip.rt.children[j].clip == RunScheduled(c.rt.children[j].clip, e, res.dt, res.progress, eases).clip
  {
    StepStartedGroup(c, env, dt, p, eases, lastState);
    var a := Advance(c, dt).clip;
    StepChildrenDue(a, env, dt, p, eases, 0, [], j);
  }

  /** The children of a group after its step, and the shared state. */
  datatype SteppedChildren = SteppedChildren(children: seq<ChildClip>, env: Env)

  /**
    GroupClip.Running's loop from child `i` on: Done and Destroyed children are
    skipped; the others count down their delay and, once it has run out, are
    stepped with the group's unscaled delta (or the overshoot of the delay) and
    the composed progress key.
  */
  function StepChildren(g: Clip, env: Env, dt: real, p: real, eases: Eases, i: nat, done: seq<ChildClip>): (r: SteppedChildren)
    requires g.rt.GroupRt? && |done| == i <= |g.rt.children|
    ensures |r.children| == |g.rt.children|
    ensures r.children[..i] == done
    ensures forall j :: i <= j < |g.rt.children| ==> ChildStepped(g.rt.children[j], r.children[j], dt, p)
    ensures dt < 0.0 ==> r.env == env
    decreases Height(g), 0, |g.rt.children| - i
  {
    var cs := g.rt.children;
    if i == |cs| then SteppedChildren(done, env)
    else
      var child := cs[i];
      var res := Resolve(child.delay, dt, p);
      var next :=
        if Over(child.clip.state) then SteppedChildren([child], env)
        else if res.steps then
          ChildLower(g, i);
          var s := RunScheduled(child.clip, env, res.dt, res.progress, eases);
          SteppedChildren([ChildClip(res.delay, s.clip)], s.env)
        else SteppedChildren([ChildClip(res.delay, child.clip)], env);
      assert ChildStepped(child, next.children[0], dt, p);
      var r := StepChildren(g, next.env, dt, p, eases, i + 1, done + next.children);
      assert r.children[i] == next.children[0];
      r
  }

  /**
    What GroupClip.Running's loop does to one child: a Done or Destroyed child
    is kept as it is; any other counts its delay down as Resolve says and keeps
    its clip unless the delay has run out; no child changes identity, and with
    a negative delta no clip changes at all.
  */
  predicate ChildStepped(before: ChildClip, after: ChildClip, dt: real, p: real) {
    && after.clip.id == before.clip.id
    && (Over(before.clip.state) ==> after == before)
    && (!Over(before.clip.state) ==> after.delay == Resolve(before.delay, dt, p).delay)
    && (!Over(before.clip.state) && !Resolve(before.delay, dt, p).steps ==> after.clip == before.clip)
    && (dt < 0.0 ==> after.clip == before.clip)
  }

  /**
    A child whose delay has run out this frame is stepped through
    Scheduler.Running with the overshoot of its delay as its delta and the
    progress key Resolve composes, in the shared state the children before it
    left.
  */
  lemma {:induction false} StepChildrenDue(g: Clip, env: Env, dt: real, p: real, eases: Eases, i: nat, done: seq<ChildClip>, j: nat)
    requires g.rt.GroupRt? && |done| == i <= j < |g.rt.children|
    requires !Over(g.rt.children[j].clip.state) && Resolve(g.rt.children[j].delay, dt, p).steps
    ensures var res := Resolve(g.rt.children[j].delay, dt, p);
      exists e: Env :: StepChildren(g, env, dt, p, eases, i, done).children[j].clip
        == RunScheduled(g.rt.children[j].clip, e, res.dt, res.progress, eases).clip
    decreases |g.rt.children| - i
  {
    var cs := g.rt.children;
    var child := cs[i];
    var res := Resolve(child.delay, dt, p);
    if Over(child.clip.state) {
      StepChildrenDue(g, env, dt, p, eases, i + 1, done + [child], j);
    } else if res.steps {
      var s := RunScheduled(child.clip, env, res.dt, res.progress, eases);
      if j == i {
        assert StepChildren(g, env, dt, p, eases, i, done).children[j].clip == s.clip;
      } else {
        StepChildrenDue(g, s.env, dt, p, eases, i + 1, done + [ChildClip(res.delay, s.clip)], j);
      }
    } else {
      StepChildrenDue(g, env, dt, p, eases, i + 1, done + [ChildClip(res.delay, child.clip)], j);
    }
  }

  /** A Done or Destroyed clip: GroupClip.Running skips it. */
  predicate Over(s: RunState) {
    s == Done || s == Destroyed
  }

  /**
    AnimationClip.Running after the base step: the frame reached after Elapsed
    (taken modulo the cycle when looping), the exiting flag of a clip that plays
    once and has entered its closing transition, and the mixer update, which
    re-targets the weights when the state or the exiting flag changed.
  */
  function AnimationFrame(c: Clip, env: Env, lastState: RunState): (r: Changed)
    requires c.data.kind.Animation?
    ensures r.clip == c.(rt := r.clip.rt)
    ensures r.env.queue == env.queue && r.env.nextId == env.nextId
  {
    var a := c.data.kind.anim;
    if Playing(c) then
      var t := if a.ending == Loop then FloatRemainder(c.elapsed, c.rt.cycle) else c.elapsed;
      var frame := To(a.asset.value, a.frameSpeeds, a.from, t);
      var exiting := a.ending == Once && frame + a.transition > a.to.value;
      var dirty := c.state != lastState || exiting != c.rt.exiting;
      var animator := a.animator.value;
      var env' :=
        if animator in env.tracks then
          var track := SetFrame(env.tracks[animator], c.id, frame, a.to.value, c.state == Running, exiting, dirty);
          env.(tracks := env.tracks[animator := track])
        else env;
      Changed(c.(rt := c.rt.(exiting := exiting)), env')
    else Changed(c, env)
  }

  /** An animation clip that started with its references present: it has a mixer contributor to drive. */
  predicate Playing(c: Clip)
    requires c.data.kind.Animation?
  {
    var a := c.data.kind.anim;
    c.rt.AnimRt? && a.asset.Some? && a.animator.Some? && a.to.Finite? && NonZero(a.frameSpeeds)
  }

  /**
    The frame AnimationClip.Running computes after the base step: To(from, t)
    for t = Elapsed, or Elapsed % cycle when looping (then within [0, cycle));
    with positive speeds inside the clip it lies between the clamped `from` and
    the clip's end, and the clip is exiting exactly when it plays once and that
    frame plus the transition passes `to`.
  */
  lemma AnimationFrameExiting(c: Clip, env: Env, lastState: RunState)
    requires c.data.kind.Animation?
    ensures !Playing(c) ==> AnimationFrame(c, env, lastState) == Changed(c, env)
    ensures Playing(c) ==>
      var a := c.data.kind.anim; var r := AnimationFrame(c, env, lastState);
      var t := if a.ending == Loop then FloatRemainder(c.elapsed, c.rt.cycle) else c.elapsed;
      var frame := To(a.asset.value, a.frameSpeeds, a.from, t);
      && (a.ending == Loop && c.rt.cycle > 0.0 && c.elapsed >= 0.0 ==> 0.0 <= t < c.rt.cycle)
      && (Positive(a.frameSpeeds) && InClip(a.frameSpeeds, FrameCount(a.asset.value)) ==>
            Clamp(a.from, 0.0, FrameCount(a.asset.value)) <= frame <= FrameCount(a.asset.value))
      && r.clip.rt.exiting == (a.ending == Once && frame + a.transition > a.to.value)
  {
  }

  /**
    The mixer side of AnimationClip.Running: the clip's contributor records the
    frame computed by To; every other track is kept, and a clip whose animator
    has no track changes no state.
  */
  lemma AnimationFrameTracks(c: Clip, env: Env, lastState: RunState)
    requires c.data.kind.Animation? && Playing(c)
    ensures var a := c.data.kind.anim; var r := AnimationFrame(c, env, lastState); var an := a.animator.value;
      var t := if a.ending == Loop then FloatRemainder(c.elapsed, c.rt.cycle) else c.elapsed;
      var frame := To(a.asset.value, a.frameSpeeds, a.from, t);
      && (forall k :: k in env.tracks && k != an ==> k in r.env.tracks && r.env.tracks[k] == env.tracks[k])
      && (an !in env.tracks ==> r.env == env)
      && (an in env.tracks ==> an in r.env.tracks)
      && (an in env.tracks && Find(env.tracks[an].states, c.id) >= 0 ==>
            r.env.tracks[an].states[Find(env.tracks[an].states, c.id)].frame == frame)
  {
  }

  /**
    The mixer update of AnimationClip.Running: the animator's track takes
    Playable.SetFrame with the frame To computes, the end frame for a wrap,
    the clip's Running and exiting flags, and a dirty flag set exactly when the
    clip's state differs from the one it had before this step or its exiting
    flag changed.
  */
  lemma AnimationFrameMixer(c: Clip, env: Env, lastState: RunState)
    requires c.data.kind.Animation? && Playing(c) && c.data.kind.anim.animator.value in env.tracks
    ensures var a := c.data.kind.anim; var r := AnimationFrame(c, env, lastState); var an := a.animator.value;
      var t := if a.ending == Loop then FloatRemainder(c.elapsed, c.rt.cycle) else c.elapsed;
      var frame := To(a.asset.value, a.frameSpeeds, a.from, t);
      var dirty := c.state != lastState || r.clip.rt.exiting != c.rt.exiting;
      && an in r.env.tracks
      && r.env.tracks[an] == SetFrame(env.tracks[an], c.id, frame, a.to.value, c.state == Running, r.clip.rt.exiting, dirty)
  {
  }

  /** Starting never raises a clip: the children it creates sit below its configuration's depth. */
  lemma StartNoHigher(c: Clip, env: Env)
    ensures Height(Start(c, env).clip) <= Height(c)
  {
    if c.state == NotStarted {
      var d := Verify(c.data).data;
      VerifyKeepsDepth(c.data);
      var s := Start(c, env).clip;
      assert s.data == d;
      if d.kind.Group? {
        var cs := d.kind.children;
        assert s.rt == GroupRt(NewChildren(cs, env.nextId));
        NewChildrenHeight(d, env.nextId, 0);
      }
    }
  }

  lemma {:induction false} NewChildrenHeight(d: ClipData, nextId: nat, i: nat)
    requires d.kind.Group?
    ensures ChildrenHeight(GroupRt(NewChildren(d.kind.children, nextId)), i) == ChildDepth(d, i)
    decreases |d.kind.children| - i
  {
    var rt := GroupRt(NewChildren(d.kind.children, nextId));
    if i < |d.kind.children| {
      NewChildrenHeight(d, nextId, i + 1);
      assert Height(rt.children[i].clip) == Depth(d.kind.children[i].data);
    }
  }

  /**
    Playable.Destroy for an animation clip: its contributor leaves its
    animator's track, and a track left empty is dropped.
  */
  function DetachClip(env: Env, c: Clip): (r: Env)
    requires c.data.kind.Animation?
    ensures r.queue == env.queue && r.nextId == env.nextId
    ensures r.tracks.Keys <= env.tracks.Keys
  {
    var animator := c.data.kind.anim.animator;
    if animator.Some? && animator.value in env.tracks then
      match Detach(env.tracks[animator.value], c.id)
      case Remaining(t) => env.(tracks := env.tracks[animator.value := t])
      case Emptied => env.(tracks := env.tracks - {animator.value})
    else env
  }

  /**
    What Playable.Destroy does to the mixer tracks other than the clip's own:
    every other animator's track is kept, and a clip whose animator is missing
    or has no track leaves the state as it was.
  */
  lemma DetachClipOthers(env: Env, c: Clip)
    requires c.data.kind.Animation?
    ensures var r := DetachClip(env, c); var an := c.data.kind.anim.animator;
      forall k :: k in env.tracks && !(an.Some? && k == an.value) ==> k in r.tracks && r.tracks[k] == env.tracks[k]
    ensures var an := c.data.kind.anim.animator; an.None? || an.value !in env.tracks ==> DetachClip(env, c) == env
  {
    var an := c.data.kind.anim.animator;
    if an.Some? && an.value in env.tracks {
      match Detach(env.tracks[an.value], c.id)
      case Remaining(t') =>
        assert DetachClip(env, c) == env.(tracks := env.tracks[an.value := t']);
      case Emptied =>
        assert DetachClip(env, c) == env.(tracks := env.tracks - {an.value});
    }
  }

  /**
    What Playable.Destroy does to the clip's own animator's track: the clip's
    first contributor is removed, keeping the others in order, and the track is
    dropped once none is left; a track without one is kept as it is.
  */
  lemma DetachClipOwn(env: Env, c: Clip, an: nat)
    requires c.data.kind.Animation? && c.data.kind.anim.animator.Some? && c.data.kind.anim.animator.value == an && an in env.tracks
    ensures var r := DetachClip(env, c); var t := env.tracks[an]; var k := Find(t.states, c.id);
      && (k == -1 ==> r == env)
      && (k >= 0 ==> (an in r.tracks <==> |t.states| > 1))
      && (k >= 0 && an in r.tracks ==> Clips(r.tracks[an].states) == Clips(t.states)[..k] + Clips(t.states)[k + 1..])
  {
    var t := env.tracks[an];
    var r := DetachClip(env, c);
    match Detach(t, c.id)
    case Remaining(t') =>
      assert r == env.(tracks := env.tracks[an := t']);
      if Find(t.states, c.id) == -1 {
        assert env.tracks[an := t] == env.tracks;
      }
    case Emptied =>
      assert r == env.(tracks := env.tracks - {an});
  }

  /**
    RunnerClip.Destroy and its overrides: a group destroys its child clips
    first, an animation that has started removes its mixer contributor, and the
    clip becomes Destroyed.  (As written, an animation that never started also
    calls into its missing contributor; see DestroyAnimationAsWritten.)
  */
  function Destroy(c: Clip, env: Env): (r: Changed)
    ensures r.clip.state == Destroyed
    ensures r.clip == c.(state := Destroyed, rt := r.clip.rt)
    ensures r.env.queue == env.queue && r.env.nextId == env.nextId
    ensures r.env.tracks.Keys <= env.tracks.Keys
    decreases c, 1
  {
    if c.data.kind.Group? && c.rt.GroupRt? then
      var d := DestroyChildren(c, env, 0, []);
      Changed(c.(state := Destroyed, rt := GroupRt(d.children)), d.env)
    else if c.data.kind.Animation? && c.rt.AnimRt? then
      Changed(c.(state := Destroyed), DetachClip(env, c))
    else Changed(c.(state := Destroyed), env)
  }

  /**
    What each kind's Destroy does: a group's child clips are all Destroyed with
    their delays kept; a started animation's contributor is detached; any other
    clip only becomes Destroyed.
  */
  lemma DestroyEffects(c: Clip, env: Env)
    ensures var r := Destroy(c, env);
      c.data.kind.Group? && c.rt.GroupRt? ==>
      && r.clip.rt.GroupRt? && |r.clip.rt.children| == |c.rt.children|
      && forall j :: 0 <= j < |c.rt.children| ==>
           r.clip.rt.children[j].delay == c.rt.children[j].delay && r.clip.rt.children[j].clip.state == Destroyed
    ensures var r := Destroy(c, env);
      c.data.kind.Animation? && c.rt.AnimRt? ==> r.clip.rt == c.rt && r.env == DetachClip(env, c)
    ensures var r := Destroy(c, env);
      !(c.data.kind.Group? && c.rt.GroupRt?) && !(c.data.kind.Animation? && c.rt.AnimRt?) ==>
      r == Changed(c.(state := Destroyed), env)
  {
  }

  /** GroupClip.Destroy's loop from child `i` on: every child clip destroyed, delays kept. */
  function DestroyChildren(g: Clip, env: Env, i: nat, done: seq<ChildClip>): (r: SteppedChildren)
    requires g.rt.GroupRt? && |done| == i <= |g.rt.children|
    ensures |r.children| == |g.rt.children| && r.children[..i] == done
    ensures forall j :: i <= j < |g.rt.children| ==>
      && r.children[j].delay == g.rt.children[j].delay && r.children[j].clip.state == Destroyed
      && r.children[j].clip.id == g.rt.children[j].clip.id
    ensures r.env.queue == env.queue && r.env.nextId == env.nextId && r.env.tracks.Keys <= env.tracks.Keys
    decreases g, 0, |g.rt.children| - i
  {
    if i == |g.rt.children| then SteppedChildren(done, env)
    else
      var child := g.rt.children[i];
      var d := Destroy(child.clip, env);
      var r := DestroyChildren(g, d.env, i + 1, done + [ChildClip(child.delay, d.clip)]);
      assert r.children[i] == (done + [ChildClip(child.delay, d.clip)])[i];
      r
  }

  /** Every clip of the tree is Destroyed. */
  predicate AllDestroyed(c: Clip)
    decreases c, 1
  {
    c.state == Destroyed && (c.data.kind.Group? && c.rt.GroupRt? ==> ChildrenDestroyed(c, 0))
  }

  predicate ChildrenDestroyed(c: Clip, i: nat)
    requires c.rt.GroupRt?
    decreases c, 0, |c.rt.children| - i
  {
    i < |c.rt.children| ==> AllDestroyed(c.rt.children[i].clip) && ChildrenDestroyed(c, i + 1)
  }

  /** The outcome of DestroyIf: the clip, the shared state, and whether the clip itself was destroyed. */
  datatype DestroyedIf = DestroyedIf(clip: Clip, env: Env, destroyed: bool)

  /**
    RunnerClip.DestroyIf and GroupClip's override: a group first passes the
    test on to its children; then the clip is destroyed exactly when its own
    state equals `s`, and otherwise keeps its state.
  */
  function DestroyIf(c: Clip, env: Env, s: RunState): (r: DestroyedIf)
    ensures r.destroyed <==> c.state == s
    ensures r.clip.state == if c.state == s then Destroyed else c.state
    ensures r.clip == c.(state := r.clip.state, rt := r.clip.rt)
    ensures r.env.queue == env.queue && r.env.nextId == env.nextId
    decreases c, 2
  {
    var c' :=
      if c.data.kind.Group? && c.rt.GroupRt? then
        var d := DestroyIfChildren(c, env, s, 0, []);
        Changed(c.(rt := GroupRt(d.children)), d.env)
      else Changed(c, env);
    if c'.clip.state == s then
      var d := Destroy(c'.clip, c'.env);
      DestroyedIf(d.clip, d.env, true)
    else DestroyedIf(c'.clip, c'.env, false)
  }

  /**
    GroupClip.DestroyIf's loop from child `i` on: every child clip takes the
    same test, so exactly those in state `s` become Destroyed; the others keep
    their state, and every child keeps its delay and identity.
  */
  function DestroyIfChildren(g: Clip, env: Env, s: RunState, i: nat, done: seq<ChildClip>): (r: SteppedChildren)
    requires g.rt.GroupRt? && |done| == i <= |g.rt.children|
    ensures |r.children| == |g.rt.children| && r.children[..i] == done
    ensures forall j :: i <= j < |g.rt.children| ==>
      && r.children[j].delay == g.rt.children[j].delay && r.children[j].clip.id == g.rt.children[j].clip.id
      && r.children[j].clip.state == if g.rt.children[j].clip.state == s then Destroyed else g.rt.children[j].clip.state
    ensures r.env.queue == env.queue && r.env.nextId == env.nextId
    decreases g, 1, |g.rt.children| - i
  {
    if i == |g.rt.children| then SteppedChildren(done, env)
    else
      var child := g.rt.children[i];
      var d := DestroyIf(child.clip, env, s);
      var r := DestroyIfChildren(g, d.env, s, i + 1, done + [ChildClip(child.delay, d.clip)]);
      assert r.children[i] == (done + [ChildClip(child.delay, d.clip)])[i];
      r
  }

  /**
    GroupClip.DestroyIf passes the test on to every child before its own:
    a group not itself in state `s` keeps its children's delays and
    identities, and exactly the children in state `s` are now Destroyed; a
    group in state `s` is destroyed with all of its children.
  */
  lemma DestroyIfGroup(c: Clip, env: Env, s: RunState)
    requires c.data.kind.Group? && c.rt.GroupRt?
    ensures var r := DestroyIf(c, env, s);
      && r.clip.rt.GroupRt? && |r.clip.rt.children| == |c.rt.children|
      && forall j :: 0 <= j < |c.rt.children| ==>
           && r.clip.rt.children[j].delay == c.rt.children[j].delay
           && r.clip.rt.children[j].clip.id == c.rt.children[j].clip.id
           && r.clip.rt.children[j].clip.state ==
                if c.state == s || c.rt.children[j].clip.state == s then Destroyed else c.rt.children[j].clip.state
  {
    var d := DestroyIfChildren(c, env, s, 0, []);
    var c' := c.(rt := GroupRt(d.children));
    if c.state == s {
      var e := Destroy(c', d.env);
      assert DestroyIf(c, env, s).clip == e.clip;
      assert e.clip.rt == GroupRt(DestroyChildren(c', d.env, 0, []).children);
    }
  }

  /** What the as-written destroy of an animation clip leads to. */
  datatype Outcome = Finished(clip: Clip, env: Env) | NullReference

  /**
    AnimationClip.Destroy as written: it calls Playable.Destroy on the clip's
    playable unconditionally, and that field is still null for a clip that was
    never started.  Once the clip has started it agrees with Destroy.
  */
  function DestroyAnimationAsWritten(c: Clip, env: Env): (r: Outcome)
    requires c.data.kind.Animation?
    ensures c.rt.AnimRt? ==> r == Finished(Destroy(c, env).clip, Destroy(c, env).env)
    ensures !c.rt.AnimRt? ==> r.NullReference?
  {
    if c.rt.AnimRt? then Finished(c.(state := Destroyed), DetachClip(env, c))
    else NullReference
  }

  /**
    The destroy of a scheduled animation whose delay has not yet run out throws
    as written, while the corrected Destroy marks it Destroyed and leaves every
    mixer track as it was.
  */
  lemma NeverStartedAnimationDestroy(id: nat, d: ClipData, env: Env)
    requires d.kind.Animation?
    ensures DestroyAnimationAsWritten(NewClip(id, d), env) == NullReference
    ensures Destroy(NewClip(id, d), env) == Changed(NewClip(id, d).(state := Destroyed), env)
  {
  }

  /**
    The lifecycle only moves forward.  A Done or Destroyed clip is left exactly
    as it was and reports no advance.  A clip that has not started first gets
    its verified configuration and Elapsed 0; a Running clip keeps its
    configuration; either then adds `dt * speed` to Elapsed and is Done
    exactly when Elapsed has reached its duration, Running otherwise.
  */
  lemma StepLifecycle(c: Clip, env: Env, dt: real, p: real, eases: Eases)
    ensures var r := Step(c, env, dt, p, eases);
      && Rank(c.state) <= Rank(r.clip.state)
      && (Over(c.state) ==> r == Stepped(c, env, NotAdvanced))
      && (!Over(c.state) ==>
            && (r.clip.state == Running || r.clip.state == Done)
            && !r.progress.NotAdvanced?
            && (r.clip.state == Done <==> Reached(r.clip.elapsed, r.clip.data.duration)))
      && (c.state == NotStarted ==> r.clip.data == Verify(c.data).data && r.clip.elapsed == dt * r.clip.data.speed)
      && (c.state == Running ==> r.clip.data == c.data && r.clip.elapsed == c.elapsed + dt * c.data.speed)
  {
    if !Over(c.state) {
      var s := Start(c, env);
      assert Step(c, env, dt, p, eases) == StepStarted(s.clip, s.env, dt, p, eases, c.state);
      StepStartedRunning(s.clip, s.env, dt, p, eases, c.state);
    }
  }

  /**
    The step of a Running clip: it stays Running or becomes Done, reports an
    advance, keeps its configuration, adds `dt * speed` to Elapsed, and is Done
    exactly when Elapsed has reached its duration.
  */
  lemma StepStartedRunning(c: Clip, env: Env, dt: real, p: real, eases: Eases, lastState: RunState)
    requires c.state == Running
    ensures var r := StepStarted(c, env, dt, p, eases, lastState);
      && (r.clip.state == Running || r.clip.state == Done)
      && !r.progress.NotAdvanced?
      && r.clip.data == c.data && r.clip.elapsed == c.elapsed + dt * c.data.speed
      && (r.clip.state == Done <==> Reached(r.clip.elapsed, r.clip.data.duration))
  {
    var r := StepStarted(c, env, dt, p, eases, lastState);
    var a := Advance(c, dt);
    AdvanceRunning(c, dt);
    assert r.clip.state == a.clip.state && r.clip.data == a.clip.data;
    assert r.clip.elapsed == a.clip.elapsed && r.progress == a.progress;
  }

  /** A Running clip advances by `dt * speed` and is Done exactly when that reaches its duration. */
  lemma AdvanceRunning(c: Clip, dt: real)
    requires c.state == Running
    ensures var a := Advance(c, dt);
      && (a.clip.state == Running || a.clip.state == Done) && !a.progress.NotAdvanced?
      && a.clip.data == c.data && a.clip.elapsed == c.elapsed + dt * c.data.speed
      && (a.clip.state == Done <==> Reached(a.clip.elapsed, a.clip.data.duration))
  {
  }

  /**
    The subProgress of a Running clip whose Elapsed has not passed its
    duration, stepped by a positive scaled delta, is a fraction in [0, 1]: 1
    while it keeps running, and when it completes, the share of the step that
    brought Elapsed exactly to the duration.
  */
  lemma AdvanceFraction(c: Clip, dt: real)
    requires c.state == Running && c.data.speed > 0.0 && dt > 0.0
    requires Le(Finite(c.elapsed), c.data.duration)
    ensures var a := Advance(c, dt);
      && a.progress.Fraction?
      && 0.0 <= a.progress.value <= 1.0
      && (a.clip.state == Done ==> c.elapsed + a.progress.value * (dt * c.data.speed) == c.data.duration.value)
  {
    var step := dt * c.data.speed;
    assert step > 0.0;
    var a := Advance(c, dt);
    var elapsed := c.elapsed + step;
    if Reached(elapsed, c.data.duration) {
      var f := (step + c.data.duration.value - elapsed) / step;
      assert a.progress == Fraction(f);
      assert f * step == c.data.duration.value - c.elapsed;
      FractionBelowOne(c.data.duration.value - c.elapsed, step);
    }
  }

  lemma FractionBelowOne(x: real, step: real)
    requires 0.0 <= x <= step && step > 0.0
    ensures 0.0 <= x / step <= 1.0
  {
    assert x / step * step == x;
  }

  /** A clip that Step can take: configured references present before it starts, and a Running clip before its end. */
  predicate Steppable(c: Clip) {
    && (c.state == NotStarted ==> RefsPresent(c.data))
    && (c.state == Running ==> c.data.speed > 0.0 && 0.0 <= c.elapsed && !Reached(c.elapsed, c.data.duration))
  }

  /**
    With a positive delta, Step on a steppable clip reports either no advance or
    a fraction in [0, 1], and leaves a steppable clip.
  */
  lemma StepProgressWithin(c: Clip, env: Env, dt: real, p: real, eases: Eases)
    requires Steppable(c) && dt > 0.0
    ensures var r := Step(c, env, dt, p, eases);
      && (r.progress.NotAdvanced? || (r.progress.Fraction? && 0.0 <= r.progress.value <= 1.0))
      && Steppable(r.clip)
  {
    var s := Start(c, env);
    var r := StepStarted(s.clip, s.env, dt, p, eases, c.state);
    assert Step(c, env, dt, p, eases) == r;
    if !Over(c.state) {
      var a := Advance(s.clip, dt);
      if c.state == NotStarted {
        assert Verify(c.data).ok;
      } else {
        assert s.clip == c;
      }
      AdvanceSteppable(s.clip, dt);
      assert r.clip == a.clip.(rt := r.clip.rt) && r.progress == a.progress;
    }
  }

  /** A Running clip before its end, advanced by a positive delta, reports a fraction in [0, 1] and stays steppable. */
  lemma AdvanceSteppable(c: Clip, dt: real)
    requires c.state == Running && c.data.speed > 0.0 && dt > 0.0
    requires 0.0 <= c.elapsed && Le(Finite(c.elapsed), c.data.duration)
    ensures var a := Advance(c, dt);
      a.progress.Fraction? && 0.0 <= a.progress.value <= 1.0 && Steppable(a.clip)
  {
    AdvanceFraction(c, dt);
    assert dt * c.data.speed > 0.0;
  }

  /** Destroy leaves the whole tree of a clip Destroyed. */
  lemma {:induction false} DestroyAll(c: Clip, env: Env)
    ensures AllDestroyed(Destroy(c, env).clip)
    decreases c, 1
  {
    if c.data.kind.Group? && c.rt.GroupRt? {
      var d := DestroyChildren(c, env, 0, []);
      var r := Destroy(c, env).clip;
      assert r.rt.children == d.children;
      forall j | 0 <= j < |c.rt.children|
        ensures AllDestroyed(r.rt.children[j].clip)
      {
        DestroyChildrenAll(c, env, 0, [], j);
      }
      ChildrenDestroyedFrom(r, 0);
    }
  }

  lemma {:induction false} DestroyChildrenAll(g: Clip, env: Env, i: nat, done: seq<ChildClip>, j: nat)
    requires g.rt.GroupRt? && |done| == i <= j < |g.rt.children|
    ensures AllDestroyed(DestroyChildren(g, env, i, done).children[j].clip)
    decreases g, 0, |g.rt.children| - i
  {
    var child := g.rt.children[i];
    var d := Destroy(child.clip, env);
    var next := done + [ChildClip(child.delay, d.clip)];
    var r := DestroyChildren(g, d.env, i + 1, next);
    assert DestroyChildren(g, env, i, done) == r;
    if j == i {
      DestroyAll(child.clip, env);
      assert r.children[i] == next[i];
    } else {
      DestroyChildrenAll(g, d.env, i + 1, next, j);
    }
  }

  lemma {:induction false} ChildrenDestroyedFrom(c: Clip, i: nat)
    requires c.rt.GroupRt? && forall j :: i <= j < |c.rt.children| ==> AllDestroyed(c.rt.children[j].clip)
    ensures ChildrenDestroyed(c, i)
    decreases |c.rt.children| - i
  {
    if i < |c.rt.children| {
      ChildrenDestroyedFrom(c, i + 1);
    }
  }

  /** Every queued progress key lies in [0, 1]. */
  predicate KeysWithin(q: seq<Entry>) {
    forall i :: 0 <= i < |q| ==> 0.0 <= q[i].key <= 1.0
  }

  /**
    The invariant of the shared state: the callback queue is sorted by key with
    every key in [0, 1], and every mixer track keeps nonnegative weights.
  */
  predicate EnvOk(env: Env) {
    && Sorted(env.queue)
    && KeysWithin(env.queue)
    && (forall a :: a in env.tracks ==> Valid(env.tracks[a]))
  }

  lemma EnqueueKeepsEnvOk(env: Env, e: Entry)
    requires EnvOk(env) && 0.0 <= e.key <= 1.0
    ensures EnvOk(env.(queue := Insert(env.queue, e)))
  {
    var r := Insert(env.queue, e);
    InsertKeepsSorted(env.queue, e);
    forall i | 0 <= i < |r|
      ensures 0.0 <= r[i].key <= 1.0
    {
      assert r[i] in multiset(r);
      assert r[i] in multiset(env.queue) || r[i] == e;
    }
  }

  lemma StartKeepsEnvOk(c: Clip, env: Env)
    requires EnvOk(env)
    ensures EnvOk(Start(c, env).env)
  {
    if c.state == NotStarted && Verify(c.data).data.kind.Animation? {
      var a := Verify(c.data).data.kind.anim;
      if c.data.kind.Animation? && Verify(c.data).ok {
        AnimationVerifyClamps(c.data, c.data.kind.anim);
        assert Valid(TrackOf(env, a.animator.value));
      }
    }
  }

  lemma AnimationFrameKeepsEnvOk(c: Clip, env: Env, lastState: RunState)
    requires c.data.kind.Animation? && EnvOk(env)
    ensures EnvOk(AnimationFrame(c, env, lastState).env)
  {
    var a := c.data.kind.anim;
    if c.rt.AnimRt? && a.asset.Some? && a.animator.Some? && a.to.Finite? && NonZero(a.frameSpeeds) && a.animator.value in env.tracks {
      var t := if a.ending == Loop then FloatRemainder(c.elapsed, c.rt.cycle) else c.elapsed;
      var frame := To(a.asset.value, a.frameSpeeds, a.from, t);
      var exiting := a.ending == Once && frame + a.transition > a.to.value;
      var dirty := c.state != lastState || exiting != c.rt.exiting;
      SetFrameKeepsValid(env.tracks[a.animator.value], c.id, frame, a.to.value, c.state == Running, exiting, dirty);
      var track := SetFrame(env.tracks[a.animator.value], c.id, frame, a.to.value, c.state == Running, exiting, dirty);
      var env' := env.(tracks := env.tracks[a.animator.value := track]);
      assert AnimationFrame(c, env, lastState).env == env';
      assert forall k :: k in env'.tracks ==> Valid(env'.tracks[k]);
    }
  }

  /**
    A step keeps the shared state's invariant: the values and callbacks it
    queues carry progress keys in [0, 1] and go in at their sorted place, and
    the mixer tracks keep nonnegative weights.
  */
  lemma {:induction false} StepKeepsEnvOk(c: Clip, env: Env, dt: real, p: real, eases: Eases)
    requires EnvOk(env) && 0.0 <= p <= 1.0
    ensures EnvOk(Step(c, env, dt, p, eases).env)
    decreases Height(c), 2
  {
    var s := Start(c, env);
    StartNoHigher(c, env);
    StartKeepsEnvOk(c, env);
    StepStartedKeepsEnvOk(s.clip, s.env, dt, p, eases, c.state);
  }

  lemma {:induction false} RunScheduledKeepsEnvOk(c: Clip, env: Env, dt: real, p: real, eases: Eases)
    requires EnvOk(env) && 0.0 <= p <= 1.0
    ensures EnvOk(RunScheduled(c, env, dt, p, eases).env)
    decreases Height(c), 3
  {
    if dt >= 0.0 {
      StepKeepsEnvOk(c, env, dt, p, eases);
    }
  }

  lemma {:induction false} StepStartedKeepsEnvOk(c: Clip, env: Env, dt: real, p: real, eases: Eases, lastState: RunState)
    requires EnvOk(env) && 0.0 <= p <= 1.0
    ensures EnvOk(StepStarted(c, env, dt, p, eases, lastState).env)
    decreases Height(c), 1
  {
    var a := Advance(c, dt);
    if !a.progress.NotAdvanced? {
      var c' := a.clip;
      match c'.data.kind
      case Group(_) =>
        if c'.rt.GroupRt? {
          StepChildrenKeepsEnvOk(c', env, dt, p, eases, 0, []);
        }
      case Animation(_) =>
        AnimationFrameKeepsEnvOk(c', env, lastState);
      case Value(from, to, ease, setter) =>
        var t := TimeFraction(c'.elapsed, c'.data.duration);
        var et := if ease.Some? then eases(ease.value, t) else t;
        EnqueueKeepsEnvOk(env, Entry(p, SetValue(setter, Lerp(from, to, et))));
      case Invoke(callback) =>
        EnqueueKeepsEnvOk(env, Entry(p, Call(callback)));
      case _ =>
    }
  }

  lemma {:induction false} StepChildrenKeepsEnvOk(g: Clip, env: Env, dt: real, p: real, eases: Eases, i: nat, done: seq<ChildClip>)
    requires g.rt.GroupRt? && |done| == i <= |g.rt.children|
    requires EnvOk(env) && 0.0 <= p <= 1.0
    ensures EnvOk(StepChildren(g, env, dt, p, eases, i, done).env)
    decreases Height(g), 0, |g.rt.children| - i
  {
    var cs := g.rt.children;
    if i < |cs| {
      var child := cs[i];
      if Over(child.clip.state) {
        StepChildrenKeepsEnvOk(g, env, dt, p, eases, i + 1, done + [child]);
      } else {
        var res := Resolve(child.delay, dt, p);
        if res.steps {
          ChildLower(g, i);
          RunScheduledKeepsEnvOk(child.clip, env, res.dt, res.progress, eases);
          var s := RunScheduled(child.clip, env, res.dt, res.progress, eases);
          StepChildrenKeepsEnvOk(g, s.env, dt, p, eases, i + 1, done + [ChildClip(res.delay, s.clip)]);
        } else {
          StepChildrenKeepsEnvOk(g, env, dt, p, eases, i + 1, done + [ChildClip(res.delay, child.clip)]);
        }
      }
    }
  }

  lemma DetachClipKeepsEnvOk(env: Env, c: Clip)
    requires c.data.kind.Animation? && EnvOk(env)
    ensures EnvOk(DetachClip(env, c))
  {
    var animator := c.data.kind.anim.animator;
    if animator.Some? && animator.value in env.tracks {
      DetachNormalises(env.tracks[animator.value], c.id);
    }
  }

  /** Destroying a clip tree keeps the shared state's invariant. */
  lemma {:induction false} DestroyKeepsEnvOk(c: Clip, env: Env)
    requires EnvOk(env)
    ensures EnvOk(Destroy(c, env).env)
    decreases c, 1
  {
    if c.data.kind.Group? && c.rt.GroupRt? {
      DestroyChildrenKeepsEnvOk(c, env, 0, []);
    } else if c.data.kind.Animation? && c.rt.AnimRt? {
      DetachClipKeepsEnvOk(env, c);
    }
  }

  lemma {:induction false} DestroyChildrenKeepsEnvOk(g: Clip, env: Env, i: nat, done: seq<ChildClip>)
    requires g.rt.GroupRt? && |done| == i <= |g.rt.children| && EnvOk(env)
    ensures EnvOk(DestroyChildren(g, env, i, done).env)
    decreases g, 0, |g.rt.children| - i
  {
    if i < |g.rt.children| {
      var child := g.rt.children[i];
      var d := Destroy(child.clip, env);
      DestroyKeepsEnvOk(child.clip, env);
      DestroyChildrenKeepsEnvOk(g, d.env, i + 1, done + [ChildClip(child.delay, d.clip)]);
    }
  }

  lemma {:induction false} DestroyIfKeepsEnvOk(c: Clip, env: Env, s: RunState)
    requires EnvOk(env)
    ensures EnvOk(DestroyIf(c, env, s).env)
    decreases c, 2
  {
    var c' :=
      if c.data.kind.Group? && c.rt.GroupRt? then
        var d := DestroyIfChildren(c, env, s, 0, []);
        Changed(c.(rt := GroupRt(d.children)), d.env)
      else Changed(c, env);
    if c.data.kind.Group? && c.rt.GroupRt? {
      DestroyIfChildrenKeepsEnvOk(c, env, s, 0, []);
    }
    if c'.clip.state == s {
      DestroyKeepsEnvOk(c'.clip, c'.env);
    }
  }

  lemma {:induction false} DestroyIfChildrenKeepsEnvOk(g: Clip, env: Env, s: RunState, i: nat, done: seq<ChildClip>)
    requires g.rt.GroupRt? && |done| == i <= |g.rt.children| && EnvOk(env)
    ensures EnvOk(DestroyIfChildren(g, env, s, i, done).env)
    decreases g, 1, |g.rt.children| - i
  {
    if i < |g.rt.children| {
      var child := g.rt.children[i];
      var d := DestroyIf(child.clip, env, s);
      DestroyIfKeepsEnvOk(child.clip, env, s);
      DestroyIfChildrenKeepsEnvOk(g, d.env, s, i + 1, done + [ChildClip(child.delay, d.clip)]);
    }
  }
}
