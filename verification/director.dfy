/**
  The RunnerDirector: the root list of scheduled clips with their pending
  delays, the per-frame PrepareFrame (count delays down and step the clips)
  and ProcessFrame (run the queued callbacks, then drop the clips that are
  Done), and the teardown.
*/
module Director {
  import opened Time
  import opened Optional
  import opened Config
  import opened Invoker
  import opened Clips

  datatype Node = Node(delay: real, clip: Clip)

  /**
    The director's state: its nodes, the shared state of the running clips,
    and the actions its FrameInvoker has performed so far.
  */
  datatype World = World(nodes: seq<Node>, env: Env, performed: seq<Action>)

  /** What RunnerDirector.Run leaves, and the identity of the clip it returned (none for null). */
  datatype Scheduled = Scheduled(world: World, clip: Option<nat>)

  /**
    RunnerDirector.Run: a configuration whose Verify fails is refused (the
    source logs an error and returns null) and nothing changes; otherwise a new
    clip of the verified configuration is appended with its delay clamped to
    at least 0.
  */
  function Run(w: World, data: ClipData, delay: real): (r: Scheduled)
    ensures r.clip.Some? <==> RefsPresent(data)
    ensures r.clip.None? ==> r.world == w
    ensures r.clip.Some? ==>
      && r.clip.value == w.env.nextId
      && r.world.nodes == w.nodes + [Node(MaxReal(delay, 0.0), NewClip(r.clip.value, Verify(data).data))]
      && r.world.env == w.env.(nextId := w.env.nextId + 1)
      && r.world.performed == w.performed
  {
    var v := Verify(data);
    if !v.ok then Scheduled(w, None)
    else
      var id := w.env.nextId;
      var node := Node(MaxReal(delay, 0.0), NewClip(id, v.data));
      Scheduled(World(w.nodes + [node], w.env.(nextId := id + 1), w.performed), Some(id))
  }

  /** What PrepareFrame's loop leaves: the nodes handled so far, and the shared state. */
  datatype Prepared = Prepared(nodes: seq<Node>, env: Env)

  /**
    RunnerDirector.PrepareFrame's loop from node `i` on: each node counts its
    delay down and, once it has run out, its clip is stepped (through
    Scheduler.Running) with the overshoot as its delta and the share of the
    frame the delay used up as its progress key.
  */
  function PrepareNodes(nodes: seq<Node>, env: Env, dt: real, eases: Eases, i: nat, done: seq<Node>): (r: Prepared)
    requires |done| == i <= |nodes|
    ensures |r.nodes| == |nodes| && r.nodes[..i] == done
    ensures forall k :: i <= k < |nodes| ==> r.nodes[k].delay == Resolve(nodes[k].delay, dt, 0.0).delay
    ensures forall k :: i <= k < |nodes| && !Resolve(nodes[k].delay, dt, 0.0).steps ==> r.nodes[k].clip == nodes[k].clip
    ensures forall k :: i <= k < |nodes| ==> r.nodes[k].clip.id == nodes[k].clip.id
    decreases |nodes| - i
  {
    if i == |nodes| then Prepared(done, env)
    else
      var node := nodes[i];
      var res := Resolve(node.delay, dt, 0.0);
      var next :=
        if res.steps then
          var s := RunScheduled(node.clip, env, res.dt, res.progress, eases);
          StepLifecycle(node.clip, env, res.dt, res.progress, eases);
          Prepared([Node(res.delay, s.clip)], s.env)
        else Prepared([Node(res.delay, node.clip)], env);
      var r := PrepareNodes(nodes, next.env, dt, eases, i + 1, done + next.nodes);
      assert r.nodes[i] == (done + next.nodes)[i];
      r
  }

  /**
    A node whose delay has run out this frame has its clip stepped through
    Scheduler.Running with the overshoot of its delay as its delta and the share
    of the frame the delay used up as its progress key, in the shared state the
    nodes before it left.
  */
  lemma {:induction false} PrepareNodesDue(nodes: seq<Node>, env: Env, dt: real, eases: Eases, i: nat, done: seq<Node>, k: nat)
    requires |done| == i <= k < |nodes| && Resolve(nodes[k].delay, dt, 0.0).steps
    ensures var res := Resolve(nodes[k].delay, dt, 0.0);
      exists e: Env :: PrepareNodes(nodes, env, dt, eases, i, done).nodes[k].clip
        == RunScheduled(nodes[k].clip, e, res.dt, res.progress, eases).clip
    decreases |nodes| - i
  {
    var node := nodes[i];
    var res := Resolve(node.delay, dt, 0.0);
    if res.steps {
      var s := RunScheduled(node.clip, env, res.dt, res.progress, eases);
      if k == i {
        assert PrepareNodes(nodes, env, dt, eases, i, done).nodes[k].clip == s.clip;
      } else {
        PrepareNodesDue(nodes, s.env, dt, eases, i + 1, done + [Node(res.delay, s.clip)], k);
      }
    } else {
      PrepareNodesDue(nodes, env, dt, eases, i + 1, done + [Node(res.delay, node.clip)], k);
    }
  }

  /**
    RunnerDirector.PrepareFrame: every node counts its delay down as Resolve
    says, with progress starting from 0; a node whose delay has not run out
    keeps its clip, and the order of the clips is kept.
  */
  function PrepareFrame(w: World, dt: real, eases: Eases): (r: World)
    ensures |r.nodes| == |w.nodes| && r.performed == w.performed
    ensures Ids(r.nodes) == Ids(w.nodes)
    ensures forall k :: 0 <= k < |w.nodes| ==> r.nodes[k].delay == Resolve(w.nodes[k].delay, dt, 0.0).delay
    ensures forall k :: 0 <= k < |w.nodes| && !Resolve(w.nodes[k].delay, dt, 0.0).steps ==> r.nodes[k].clip == w.nodes[k].clip
  {
    var p := PrepareNodes(w.nodes, w.env, dt, eases, 0, []);
    World(p.nodes, p.env, w.performed)
  }

  /**
    The prune of RunnerDirector.ProcessFrame from node `i` on: DestroyIf(Done)
    on every clip in order, and the nodes whose clip it destroyed are removed.
  */
  function Prune(nodes: seq<Node>, env: Env, i: nat): (r: Prepared)
    requires i <= |nodes|
    ensures forall k :: 0 <= k < |r.nodes| ==> r.nodes[k].clip.state != Done
    ensures Ids(r.nodes) == Ids(Live(nodes[i..]))
    ensures r.env.queue == env.queue
    decreases |nodes| - i
  {
    if i == |nodes| then Prepared([], env)
    else
      var node := nodes[i];
      var d := DestroyIf(node.clip, env, Done);
      var rest := Prune(nodes, d.env, i + 1);
      LiveStep(nodes, i);
      if d.destroyed then rest
      else
        var kept := Node(node.delay, d.clip);
        assert kept.clip.id == node.clip.id && kept.clip.state != Done;
        IdsCons(kept, rest.nodes);
        IdsCons(node, Live(nodes[i + 1..]));
        Prepared([kept] + rest.nodes, rest.env)
  }

  /**
    The nodes Prune keeps are the live ones, in order, each with its delay and
    its clip as DestroyIf(Done) left it (a group has passed the test on to its
    children).
  */
  lemma {:induction false} PruneKept(nodes: seq<Node>, env: Env, i: nat)
    requires i <= |nodes|
    ensures PrunedAll(Live(nodes[i..]), Prune(nodes, env, i).nodes)
    decreases |nodes| - i
  {
    if i == |nodes| {
      assert nodes[i..] == [];
    } else {
      var node := nodes[i];
      var d := DestroyIf(node.clip, env, Done);
      var rest := Prune(nodes, d.env, i + 1);
      LiveStep(nodes, i);
      PruneUnfold(nodes, env, i);
      PruneKept(nodes, d.env, i + 1);
      if !d.destroyed {
        assert PrunedFrom(node, Node(node.delay, d.clip));
        PrunedAllCons(node, Node(node.delay, d.clip), Live(nodes[i + 1..]), rest.nodes);
      }
    }
  }

  /** Each kept node is PrunedFrom the live node at its position. */
  ghost predicate PrunedAll(live: seq<Node>, kept: seq<Node>) {
    |live| == |kept| && forall k :: 0 <= k < |kept| ==> PrunedFrom(live[k], kept[k])
  }

  lemma PrunedAllCons(n: Node, m: Node, live: seq<Node>, kept: seq<Node>)
    requires PrunedFrom(n, m) && PrunedAll(live, kept)
    ensures PrunedAll([n] + live, [m] + kept)
  {
    forall k | 0 <= k < |kept| + 1
      ensures PrunedFrom(([n] + live)[k], ([m] + kept)[k])
    {
      if k > 0 {
        assert ([n] + live)[k] == live[k - 1] && ([m] + kept)[k] == kept[k - 1];
      }
    }
  }

  /** One step of the prune: DestroyIf(Done) on node `i`'s clip, which is dropped exactly when that destroyed it. */
  lemma PruneUnfold(nodes: seq<Node>, env: Env, i: nat)
    requires i < |nodes|
    ensures var d := DestroyIf(nodes[i].clip, env, Done); var rest := Prune(nodes, d.env, i + 1);
      Prune(nodes, env, i) == if d.destroyed then rest else Prepared([Node(nodes[i].delay, d.clip)] + rest.nodes, rest.env)
  {
  }

  /**
    A left-to-right pass of `f` over the nodes' clips, threading the shared
    state: the reference the director's destroy loops are measured against.
  */
  function FoldNodes(ns: seq<Node>, env: Env, f: (Clip, Env) -> Env): Env
    decreases |ns|
  {
    if |ns| == 0 then env else f(ns[|ns| - 1].clip, FoldNodes(ns[..|ns| - 1], env, f))
  }

  /** The shared state after RunnerClip.Destroy. */
  function DestroyStep(c: Clip, env: Env): Env {
    Destroy(c, env).env
  }

  /** The shared state after RunnerClip.DestroyIf(Done). */
  function PruneStep(c: Clip, env: Env): Env {
    DestroyIf(c, env, Done).env
  }

  /** The prune's shared state is that of DestroyIf(Done) on every node's clip in order, removed or not. */
  lemma {:induction false} PruneFolds(nodes: seq<Node>, env: Env, i: nat, start: Env)
    requires i <= |nodes| && env == FoldNodes(nodes[..i], start, PruneStep)
    ensures Prune(nodes, env, i).env == FoldNodes(nodes, start, PruneStep)
    decreases |nodes| - i
  {
    if i == |nodes| {
      assert nodes[..i] == nodes;
    } else {
      var e := DestroyIf(nodes[i].clip, env, Done).env;
      assert nodes[..i + 1][..i] == nodes[..i];
      assert e == FoldNodes(nodes[..i + 1], start, PruneStep);
      PruneFolds(nodes, e, i + 1, start);
    }
  }

  /** A node as the prune keeps it: its delay, and its clip as DestroyIf(Done) left it in some shared state. */
  ghost predicate PrunedFrom(before: Node, after: Node) {
    exists e: Env :: after == Node(before.delay, DestroyIf(before.clip, e, Done).clip)
  }

  lemma LiveStep(nodes: seq<Node>, i: nat)
    requires i < |nodes|
    ensures Live(nodes[i..]) == if nodes[i].clip.state != Done then [nodes[i]] + Live(nodes[i + 1..]) else Live(nodes[i + 1..])
  {
    assert nodes[i..][0] == nodes[i] && nodes[i..][1..] == nodes[i + 1..];
  }

  lemma IdsCons(n: Node, ns: seq<Node>)
    ensures Ids([n] + ns) == [n.clip.id] + Ids(ns)
  {
  }

  /** The nodes whose clip is not Done, in order. */
  function Live(nodes: seq<Node>): seq<Node> {
    if |nodes| == 0 then []
    else if nodes[0].clip.state != Done then [nodes[0]] + Live(nodes[1..])
    else Live(nodes[1..])
  }

  /** The identities of the nodes' clips, in order. */
  function Ids(nodes: seq<Node>): (r: seq<nat>)
    ensures |r| == |nodes| && forall k :: 0 <= k < |nodes| ==> r[k] == nodes[k].clip.id
  {
    seq(|nodes|, k requires 0 <= k < |nodes| => nodes[k].clip.id)
  }

  /**
    RunnerDirector.ProcessFrame: the queued actions are performed in queue
    order and the queue emptied; then every node whose clip is Done is
    destroyed and removed, the others stay in order, and none left is Done.
  */
  function ProcessFrame(w: World): (r: World)
    ensures r.env.queue == []
    ensures r.performed == w.performed + Actions(w.env.queue)
    ensures Ids(r.nodes) == Ids(Live(w.nodes))
    ensures forall k :: 0 <= k < |r.nodes| ==> r.nodes[k].clip.state != Done
  {
    var f := Flush(w.env.queue, w.performed);
    assert w.nodes[0..] == w.nodes;
    var p := Prune(w.nodes, w.env.(queue := f.queue), 0);
    World(p.nodes, p.env, f.performed)
  }

  /**
    RunnerDirector.ProcessFrame when a queued callback may throw: without a
    throw it is ProcessFrame; with one, the exception leaves the queue as it
    was and skips the prune, so no node is destroyed or removed.
  */
  function ProcessFrameWith(w: World, throws: Action -> bool): (r: World)
    ensures (forall i :: 0 <= i < |w.env.queue| ==> !throws(w.env.queue[i].action)) ==> r == ProcessFrame(w)
    ensures (exists i :: 0 <= i < |w.env.queue| && throws(w.env.queue[i].action)) ==>
      && r.nodes == w.nodes && r.env == w.env
      && r.performed == w.performed + Actions(w.env.queue[..FirstThrow(w.env.queue, throws) + 1])
  {
    var f := InvokeAll(w.env.queue, w.performed, throws);
    if f.thrown then World(w.nodes, w.env, f.performed)
    else ProcessFrame(w)
  }

  /**
    One evaluation of the director's graph: PrepareFrame, then ProcessFrame.
    The callbacks the steps queued run in key order and the queue is left
    empty; the clips that are Done are gone and the others stay in order.
  */
  function Tick(w: World, dt: real, eases: Eases): (r: World)
    ensures r.env.queue == []
    ensures r.performed == w.performed + Actions(PrepareFrame(w, dt, eases).env.queue)
    ensures Ids(r.nodes) == Ids(Live(PrepareFrame(w, dt, eases).nodes))
    ensures forall k :: 0 <= k < |r.nodes| ==> r.nodes[k].clip.state != Done
  {
    ProcessFrame(PrepareFrame(w, dt, eases))
  }

  /**
    RunnerDirector.Destroy: every node's clip tree destroyed, the nodes and the
    queue cleared (queued actions are dropped, not performed).
  */
  function DestroyAll(w: World): (r: World)
    ensures r.nodes == [] && r.env.queue == [] && r.performed == w.performed
  {
    var env := DestroyNodes(w.nodes, w.env, 0);
    World([], env.(queue := []), w.performed)
  }

  /** RunnerDirector.Destroy's loop from node `i` on: destroys only touch mixer tracks. */
  function DestroyNodes(nodes: seq<Node>, env: Env, i: nat): (r: Env)
    requires i <= |nodes|
    ensures r.queue == env.queue && r.nextId == env.nextId
    ensures r.tracks.Keys <= env.tracks.Keys
    decreases |nodes| - i
  {
    if i == |nodes| then env
    else DestroyNodes(nodes, Destroy(nodes[i].clip, env).env, i + 1)
  }

  /** The teardown's shared state is that of Destroy on every node's clip in order. */
  lemma {:induction false} DestroyNodesFolds(nodes: seq<Node>, env: Env, i: nat, start: Env)
    requires i <= |nodes| && env == FoldNodes(nodes[..i], start, DestroyStep)
    ensures DestroyNodes(nodes, env, i) == FoldNodes(nodes, start, DestroyStep)
    decreases |nodes| - i
  {
    if i == |nodes| {
      assert nodes[..i] == nodes;
    } else {
      var e := Destroy(nodes[i].clip, env).env;
      assert nodes[..i + 1][..i] == nodes[..i];
      assert e == FoldNodes(nodes[..i + 1], start, DestroyStep);
      DestroyNodesFolds(nodes, e, i + 1, start);
    }
  }

  /**
    RunnerDirector.Destroy destroys every node's clip tree in node order (a
    started animation detaching its mixer contributor, a group its children),
    then drops the nodes and the queued actions.
  */
  lemma DestroyAllDestroys(w: World)
    ensures DestroyAll(w).env == FoldNodes(w.nodes, w.env, DestroyStep).(queue := [])
  {
    assert w.nodes[..0] == [];
    DestroyNodesFolds(w.nodes, w.env, 0, w.env);
  }

  /**
    RunnerDirector.ProcessFrame: after the queued actions, DestroyIf(Done)
    runs on every node's clip in order; the nodes kept are the live ones, each
    with its clip as that test left it.
  */
  lemma ProcessFramePrunes(w: World)
    ensures ProcessFrame(w).env == FoldNodes(w.nodes, w.env.(queue := []), PruneStep)
    ensures PrunedAll(Live(w.nodes), ProcessFrame(w).nodes)
  {
    var f := Flush(w.env.queue, w.performed);
    var start := w.env.(queue := f.queue);
    assert w.nodes[..0] == [] && w.nodes[0..] == w.nodes;
    PruneFolds(w.nodes, start, 0, start);
    PruneKept(w.nodes, start, 0);
  }

  /** The director's invariant: that of the shared state. */
  predicate WorldOk(w: World) {
    EnvOk(w.env)
  }

  lemma {:induction false} PrepareNodesKeepsEnvOk(nodes: seq<Node>, env: Env, dt: real, eases: Eases, i: nat, done: seq<Node>)
    requires |done| == i <= |nodes| && EnvOk(env)
    ensures EnvOk(PrepareNodes(nodes, env, dt, eases, i, done).env)
    decreases |nodes| - i
  {
    if i < |nodes| {
      var node := nodes[i];
      var res := Resolve(node.delay, dt, 0.0);
      if res.steps {
        RunScheduledKeepsEnvOk(node.clip, env, res.dt, res.progress, eases);
        var s := RunScheduled(node.clip, env, res.dt, res.progress, eases);
        PrepareNodesKeepsEnvOk(nodes, s.env, dt, eases, i + 1, done + [Node(res.delay, s.clip)]);
      } else {
        PrepareNodesKeepsEnvOk(nodes, env, dt, eases, i + 1, done + [Node(res.delay, node.clip)]);
      }
    }
  }

  lemma {:induction false} PruneKeepsEnvOk(nodes: seq<Node>, env: Env, i: nat)
    requires i <= |nodes| && EnvOk(env)
    ensures EnvOk(Prune(nodes, env, i).env)
    decreases |nodes| - i
  {
    if i < |nodes| {
      var d := DestroyIf(nodes[i].clip, env, Done);
      DestroyIfKeepsEnvOk(nodes[i].clip, env, Done);
      PruneKeepsEnvOk(nodes, d.env, i + 1);
    }
  }

  lemma {:induction false} DestroyNodesKeepsEnvOk(nodes: seq<Node>, env: Env, i: nat)
    requires i <= |nodes| && EnvOk(env)
    ensures EnvOk(DestroyNodes(nodes, env, i))
    decreases |nodes| - i
  {
    if i < |nodes| {
      DestroyKeepsEnvOk(nodes[i].clip, env);
      DestroyNodesKeepsEnvOk(nodes, Destroy(nodes[i].clip, env).env, i + 1);
    }
  }

  /** The teardown keeps the director's invariant. */
  lemma DestroyAllKeepsWorldOk(w: World)
    requires WorldOk(w)
    ensures WorldOk(DestroyAll(w))
  {
    DestroyNodesKeepsEnvOk(w.nodes, w.env, 0);
  }

  /**
    A frame keeps the director's invariant, and the actions it performs are
    those of a queue sorted by progress key, every key in [0, 1].
  */
  lemma TickKeepsWorldOk(w: World, dt: real, eases: Eases)
    requires WorldOk(w)
    ensures WorldOk(Tick(w, dt, eases))
    ensures var q := PrepareFrame(w, dt, eases).env.queue;
      && Sorted(q) && KeysWithin(q)
      && Tick(w, dt, eases).performed == w.performed + Actions(q)
  {
    PrepareNodesKeepsEnvOk(w.nodes, w.env, dt, eases, 0, []);
    var pw := PrepareFrame(w, dt, eases);
    var f := Flush(pw.env.queue, pw.performed);
    assert EnvOk(pw.env.(queue := f.queue));
    PruneKeepsEnvOk(pw.nodes, pw.env.(queue := f.queue), 0);
  }

  /**
    The destroy of a node whose animation has not yet started: after Run with a
    delay of 1 second and a frame of half a second, the clip is still not
    started, and the as-written AnimationClip.Destroy that RunnerDirector.Destroy
    would call on it dereferences its missing playable.
  */
  lemma DelayedAnimationDestroyThrows(w: World, data: ClipData, eases: Eases)
    requires data.kind.Animation? && RefsPresent(data)
    ensures var s := Run(w, data, 1.0);
      var p := PrepareFrame(s.world, 0.5, eases);
      var node := p.nodes[|w.nodes|];
      && node.delay == 0.5
      && node.clip.state == NotStarted
      && DestroyAnimationAsWritten(node.clip, p.env) == NullReference
  {
    var s := Run(w, data, 1.0);
    assert s.world.nodes[|w.nodes|] == Node(1.0, NewClip(w.env.nextId, Verify(data).data));
    assert Verify(data) == VerifyAnimation(data, data.kind.anim);
  }
}
