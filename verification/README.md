# Runner clip scheduler — a Dafny model

`Assets/Runner.cs` is a Unity timeline runner. A `RunnerDirector` holds a
list of scheduled clips, each with a pending delay. Every frame:

- `PrepareFrame` counts the delays down and steps the clips that are due.
- `ProcessFrame` performs the callbacks queued during the step, in
  progress-key order, then destroys and drops the clips that are `Done`.

Clips are configured by `RunnerClipData` trees:

- **Groups** own delayed children.
- **Animations** play a frame range of an animation asset with a piecewise
  frame-speed timeline, and blend into a per-animator mixer.
- **Value clips** queue a setter call.
- **Invoker clips** queue a callback.

Each configuration is normalised by `Verify` before it runs.

This project models that core as pure functions over immutable datatypes,
with time as `real`. The modules are:

| file | module | models |
|---|---|---|
| `time.dfy` | `Optional`, `Time` | durations that may be infinite, clamps, `Mathf.Lerp` |
| `timeline.dfy` | `Timeline` | the frame-speed list, `AnimationClipData.Len` and `To` |
| `config.dfy` | `Config` | the clip configurations and every `Verify` |
| `invoker.dfy` | `Invoker` | the director's `FrameInvoker` queue |
| `mixer.dfy` | `Mixer` | an animator's mixer: `UpdateWeightTo`, `UpdateWeight`, adding and removing contributors |
| `clips.dfy` | `Clips` | the clip lifecycle: start, step, group children, the animation frame, destroy |
| `director.dfy` | `Director` | `RunnerDirector.Run`, `PrepareFrame`, `ProcessFrame`, `Destroy` |
| `spline.dfy` | `Spline` | the curve branch of `Navigation.Lerp` |

Some of the source's terms are modelled differently:

- **The engine's mixer.** It is abstracted as a `Track`:
  - the list of contributors, one per animation clip on that animator;
  - the sequence of `(input, weight)` writes made to the mixer.
- **Shared state.** The state the clips share while running is an `Env`:
  - the callback queue;
  - the track of every animator;
  - the next free clip identity.
- **References.** Callbacks, setters, animators and ease functions are
  identified by number. Ease functions are an opaque parameter `eases`.

## Model

| member | source | states |
|---|---|---|
| Time.Lerp | Assets/Runner.cs:614 | Mathf.Lerp clamps its parameter: the result lies between the two ends, and is the start for t ≤ 0 and the end for t ≥ 1 |
| Timeline.SortByFrame | Assets/Runner.cs:367 | the frame-speed list is sorted by frame, keeps the same elements, and is left as it was when already sorted |
| Timeline.Normalise | Assets/Runner.cs:366-367 | after the RemoveAll and Sort the list is sorted by frame, has no zero speed and no frame outside [0, frameCount), is a permutation of the entries the filter keeps, and holds an entry exactly when the input holds it and the filter keeps it |
| Timeline.NormaliseKeepsPositive | Assets/Runner.cs:366-367 | the normalisation only removes entries, so positive speeds stay positive |
| Timeline.NormaliseIdempotent | Assets/Runner.cs:366-367 | filtering and sorting an already normalised list changes nothing |
| Timeline.Len | Assets/Runner.cs:374-403 | from and to are clamped into the clip; a reversed or empty range takes 0 s; with positive speeds sorted by frame inside the clip no range takes negative time |
| Timeline.LenWithoutSpeeds | Assets/Runner.cs:374-403 | without frame speeds, Len(from, to) is (to − from)/frameRate for from < to and 0 otherwise |
| Timeline.To | Assets/Runner.cs:404-441 | a duration ≤ 0 returns the clamped from; with positive speeds inside the clip the frame reached lies between the clamped from and the frame count |
| Timeline.ToScanWithinClip | Assets/Runner.cs:413-440 | the loop of To never returns a frame before `from` or past the frame count |
| Timeline.ToWithoutSpeeds | Assets/Runner.cs:404-411 | without frame speeds To(from, d) is from for d ≤ 0, the frame count once d·frameRate + from reaches it, and d·frameRate + from otherwise |
| Timeline.LenToRoundTrip | Assets/Runner.cs:374-411 | without frame speeds, To(from, d) is from + d·frameRate when that stays in the clip, and Len(from, To(from, d)) gives back d |
| Timeline.LenInvertsTo | Assets/Runner.cs:374-441 | with positive speeds sorted by frame inside the clip, whenever To(from, d) stops before the clip's end, Len(from, To(from, d)) gives back d: To inverts Len |
| Timeline.ToScanLen | Assets/Runner.cs:413-440 | when the loop of To stops before the clip's end, it stops inside a segment that starts before the frame reached, and the seconds already walked plus Len over the rest of the way equal d |
| Timeline.ToAsWritten | Assets/Runner.cs:404-441 | To as written returns the clamped from for no time, and agrees with the corrected To when there are no speeds or the start frame is not past the last speed entry |
| Timeline.ToScanAgree | Assets/Runner.cs:429-437 | the two ways of measuring the tail segment give the same loop result when the start frame is not past the last entry |
| Timeline.ToAsWrittenLeavesClip | Assets/Runner.cs:429-437 | To as written, from frame 50 of a 100-frame clip with one speed entry at frame 10, reaches frame 110 after 30 s; the corrected To stops at 100 |
| Config.VerifyBase | Assets/Runner.cs:172-177 | a speed ≤ 0 becomes 1 and a positive one is kept; a negative duration becomes 0 and a nonnegative one is kept; the kind is unchanged |
| Config.Verify | Assets/Runner.cs:172-177 | every Verify override succeeds exactly when the engine references of the whole tree are present; then the speed is positive and the duration nonnegative; the tree keeps its shape |
| Config.VerifyLeaf | Assets/Runner.cs:1225-1229 | InvokerClipData.Verify always succeeds, forces the speed to 1 and applies the base clamps; value and plain clips get exactly RunnerClipData.Verify; an engine-bound clip without its references keeps its speed and kind |
| Config.VerifyIdempotent | Assets/Runner.cs:172-177 | verifying a verified configuration again gives the same result and configuration |
| Config.VerifyChildren | Assets/Runner.cs:264-275 | the group loop keeps one entry per child and succeeds exactly when every child's references are present |
| Config.VerifyChildrenVisits | Assets/Runner.cs:267-273 | on success every child was clamped and verified; on failure the loop stopped at the first child whose Verify failed, with the later children untouched |
| Config.VerifyChildrenGrows | Assets/Runner.cs:272 | the running maximum never decreases |
| Config.VerifyChildrenSpan | Assets/Runner.cs:266-273 | on success every child's end (delay + duration/speed) is at most the computed duration, which is the initial value or some child's end |
| Config.VerifyChildrenIdempotent | Assets/Runner.cs:264-275 | running the group loop on its own output gives the same output |
| Config.GroupVerifyDuration | Assets/Runner.cs:264-275 | a verified group has every child delay clamped to ≥ 0 and every child verified, and its duration is the maximum child end, or 0 |
| Config.NormaliseAnimation | Assets/Runner.cs:360-367 | after the clamps 0 ≤ from ≤ to ≤ frameCount and 0 ≤ transition ≤ to − from; a zero weight becomes 1 and any other is kept; the frame speeds are sorted, nonzero and inside the clip; animator, asset and ending are kept |
| Config.NormaliseAnimationIdempotent | Assets/Runner.cs:360-367 | clamping from, to, transition and weight and normalising the frame speeds twice is the same as once |
| Config.VerifyAnimation | Assets/Runner.cs:355-372 | succeeds exactly when the animator and the asset are present, and otherwise changes nothing; then the parameters are the normalised ones, the speed is the base-normalised speed, and the duration is Len(from, to)/speed for an animation that plays once (Ending.None) and +∞ for Loop and Keep |
| Config.AnimationDurationWithoutSpeeds | Assets/Runner.cs:369 | without frame speeds an animation that plays once lasts (to − from)/(frameRate·speed), with from and to clamped into the clip and the speed normalised |
| Config.AnimationVerifyClamps | Assets/Runner.cs:355-372 | a verified animation has from = Clamp(from, 0, frameCount), to = Clamp(to, from, frameCount), transition = Clamp(transition, 0, to − from), a nonzero weight kept, the same animator and ending, and exactly the input frame speeds the filter keeps, sorted by frame |
| Config.VerifyAnimationAsWritten | Assets/Runner.cs:355-372 | as written, the result is the corrected Verify's for a positive speed; with speed 0 an animation that plays once gets an infinite duration, and with a negative speed and a positive play length a duration of 0 |
| Config.AnimationVerifyAsWrittenNotIdempotent | Assets/Runner.cs:369-371 | as written, speed −1 gives duration 0 on the first Verify and 2 on the second; the corrected Verify gives 2 at once |
| Invoker.InsertPos | Assets/Runner.cs:106-114 | the insertion point is the first entry whose key exceeds the new key: every earlier key is ≤ it |
| Invoker.Insert | Assets/Runner.cs:115 | Invoke makes the list one longer and puts the new entry in it |
| Invoker.InsertPermutes | Assets/Runner.cs:115 | Invoke adds exactly the new entry: the multiset of entries grows by that entry and nothing else |
| Invoker.InsertKeepsSorted | Assets/Runner.cs:104-116 | inserting into a key-sorted list keeps it sorted |
| Invoker.InsertStable | Assets/Runner.cs:104-116 | among equal keys the new entry comes after those already queued, and their order is unchanged |
| Invoker.InsertSortedSplits | Assets/Runner.cs:104-116 | on a sorted list, Invoke equals "entries with key ≤ k, the new entry, entries with key > k" |
| Invoker.Flush | Assets/Runner.cs:118-123 | InvokeImmediate performs every queued action once, in list order, and empties the list |
| Invoker.FirstThrow | Assets/Runner.cs:120-121 | the first queued callback that throws: none before it throws, and it throws unless it is the queue's length |
| Invoker.InvokeAll | Assets/Runner.cs:118-123 | with callbacks that may throw: a throw happens exactly when some queued callback throws; then the callbacks up to and including the first throwing one have run and the queue is left as it was, since the Clear is skipped; otherwise it is InvokeImmediate without throws |
| Mixer.ScanFlags | Assets/Runner.cs:557-572 | the first loop of UpdateWeightTo sets the limit flag exactly when some desired weight is ≥ 1000; otherwise it records whether some is positive and whether some lies in (−1000, 0) |
| Mixer.UpdateWeightTo | Assets/Runner.cs:552-590 | each target weight comes from the first tier that applies: ≥ 1000, then positive, then (−1000, 0), then any nonzero; exiting or non-running clips get 0, every target is ≥ 0, and nothing else changes |
| Mixer.Blend | Assets/Runner.cs:604-619 | a fade is armed exactly when the transition length is positive, the weight is off target and no fade runs, and starts from the current weight; its counter advances by the frames and the fade ends (−1) once the counter reaches the length; while fading the weight is weightFrom + (target − weightFrom)·counter/length, and the target at the end; without a fade the weight jumps to the target; the weight stays between the fade's start and its target |
| Mixer.FadeEndsOnTarget | Assets/Runner.cs:611-616 | a fade that reaches its transition length lands on the target and is disarmed (back to −1) |
| Mixer.SettledStays | Assets/Runner.cs:605-619 | a contributor on target with no fade running is left unchanged |
| Mixer.UpdateWeight | Assets/Runner.cs:599-628 | every contributor is blended, and one write per input is appended, carrying weight/total, or 0 when the total is not positive |
| Mixer.NormalisedSumsToOne | Assets/Runner.cs:622-627 | the written weights lie in [0, 1] and sum to 1 when the total is positive; they are all 0 otherwise |
| Mixer.UpdateWeightKeepsValid | Assets/Runner.cs:599-628 | UpdateWeight keeps every weight nonnegative and the write log in step with the contributors |
| Mixer.UpdateWeightNormalises | Assets/Runner.cs:599-628 | after UpdateWeight on a valid track, the last writes lie in [0, 1] and sum to 1 whenever the weights' total is positive |
| Mixer.Find | Assets/Runner.cs:631-634 | the first contributor of the given clip, or −1 when there is none |
| Mixer.Attach | Assets/Runner.cs:515-523 | Playable.Create appends a contributor at `from` with weight 0 and transition 0 (not −1), and writes weight 0 for the new input |
| Mixer.SetFrame | Assets/Runner.cs:528-551 | SetFrame records the new frame on the clip's first contributor, moves no other contributor's frame, keeps the contributors and their order, and changes nothing when the clip has no contributor |
| Mixer.Retarget | Assets/Runner.cs:534-540 | the clip's contributor takes the new frame and flags while every other keeps its frame and flags; weights and fade counters are untouched; without the dirty flag every target is kept |
| Mixer.SetFrameTargets | Assets/Runner.cs:538-540 | the targets are recomputed by UpdateWeightTo, from the contributor with its new flags, exactly when the dirty flag is set, and otherwise kept |
| Mixer.SetFrameBlend | Assets/Runner.cs:542-547 | the blend runs when the dirty flag is set or the contributor's fade is running, advanced by frame − last, or by frame + to − last when the frame went back; otherwise no weight changes and nothing is written |
| Mixer.SetFrameKeepsValid | Assets/Runner.cs:528-551 | SetFrame keeps the track valid |
| Mixer.Detach | Assets/Runner.cs:629-658 | Playable.Destroy removes exactly the clip's contributor, keeping the others in order, and drops the track when it was the last; a clip without a contributor changes nothing |
| Mixer.DetachRetargets | Assets/Runner.cs:636-654 | when contributors remain, their targets are recomputed among themselves and each is blended with delta 0; the normalised weights are written after the earlier writes |
| Mixer.DetachNormalises | Assets/Runner.cs:647-655 | after a removal the track stays valid, and the weights the re-blend writes sum to 1 when the total is positive |
| Clips.NewChildren | Assets/Runner.cs:290-292 | GroupClip.Run creates one fresh clip per configured child, with the configured delay and a fresh identity |
| Clips.Start | Assets/Runner.cs:193-201 | a clip that has started is left alone; a NotStarted clip becomes Running with Elapsed 0 and the re-verified configuration, and keeps its identity |
| Clips.StartGroup | Assets/Runner.cs:285-294 | GroupClip.Run creates the child clips from the verified children, numbered from the next free identity, which moves past them; nothing else of the shared state changes |
| Clips.StartAttaches | Assets/Runner.cs:456-465 | AnimationClip.Run of an animation that verifies: the cycle is Len(from, to)/speed and the clip is not exiting; its animator's track gains exactly one contributor, at the end, for this clip, at the from frame, with weight 0, target the configured weight and fade the transition; other tracks, the queue and the identities are kept |
| Clips.StartPlain | Assets/Runner.cs:193-201 | starting any other clip leaves the shared state and the clip's runtime alone |
| Clips.Advance | Assets/Runner.cs:202-222 | a Running clip adds dt·speed to Elapsed and is Done exactly when Elapsed reaches the duration, reporting 1 while it has not; any other clip does not advance |
| Clips.AdvanceFraction | Assets/Runner.cs:209-219 | with dt > 0 and Elapsed ≤ duration, the reported fraction lies in [0, 1], and it is the share of the scaled step that reaches the duration exactly |
| Clips.StepLifecycle | Assets/Runner.cs:193-222 | a step never moves the state backwards; a Done or Destroyed clip is untouched and reports −1; otherwise the clip is Running or Done, and Done exactly when Elapsed reached the duration |
| Clips.StepStartedRunning | Assets/Runner.cs:202-222 | from Running, the base step adds dt·speed to Elapsed, keeps the configuration, and leaves the clip Done exactly when Elapsed reached the duration and Running otherwise |
| Clips.StepStarted | Assets/Runner.cs:202-222 | the kind-specific step runs only after the base step advanced: the clip is the base step's clip apart from its runtime, the progress is the base step's, and a clip that did not advance leaves the shared state untouched |
| Clips.StepStartedInvoke | Assets/Runner.cs:1235-1242 | a Running invoker clip queues exactly its callback under the key it was handed, sorted in after equal keys, and changes nothing else of the shared state |
| Clips.StepStartedValue | Assets/Runner.cs:1206-1217 | a Running value clip queues its setter under the key it was handed with the value Lerp(from, to, ease(TimeFraction(Elapsed, duration))), Elapsed taken after the advance |
| Clips.StepStartedGroup | Assets/Runner.cs:295-318 | a Running group steps its children with its own unscaled delta and the key it was handed: each child counts its delay down by that delta as Resolve says |
| Clips.StepStartedGroupDue | Assets/Runner.cs:305-317 | a child of a Running group whose delay runs out is stepped through Scheduler.Running with the overshoot of its delay and the key Resolve composes from the group's key |
| Clips.Step | Assets/Runner.cs:193-222 | a step keeps the clip's identity; a Done or Destroyed clip is untouched and reports that it did not advance |
| Clips.RunScheduled | Assets/Runner.cs:240-247 | Scheduler.Running steps a clip, as Step does, exactly for a nonnegative delta; a negative delta changes nothing |
| Clips.StepProgressWithin | Assets/Runner.cs:202-222 | with dt > 0, stepping a clip whose references are present gives −1 or a fraction in [0, 1], and keeps Elapsed ≤ duration for a running clip |
| Clips.Resolve | Assets/Runner.cs:300-318 | a positive delay becomes delay − dt and steps exactly when delay ≤ dt; then the child delta is the overshoot dt − delay, in [0, dt), and the progress p + (1 − p)·delay/dt lies in [p, 1]; a non-positive delay steps with dt and p unchanged |
| Clips.StepChildren | Assets/Runner.cs:295-321 | every child keeps its identity; Done and Destroyed children are untouched; every other child counts its delay down as Resolve says and keeps its clip unless the delay ran out; a negative delta changes no clip and no shared state |
| Clips.StepChildrenDue | Assets/Runner.cs:305-317 | a child whose delay ran out this frame is stepped through Scheduler.Running with Resolve's delta and progress key |
| Clips.TimeFraction | Assets/Runner.cs:1211 | the value clip's time fraction lies in [0, 1]; for a positive duration it is Elapsed/duration while Elapsed is within the duration, 1 once Elapsed reaches it, 0 before it starts; an infinite duration gives 0 |
| Clips.FloatRemainder | Assets/Runner.cs:473 | C#'s float `%`: x − r is a multiple of y by the quotient truncated toward zero, and r lies in [0, |y|) for x ≥ 0 and in (−|y|, 0] for x < 0 |
| Clips.AnimationFrame | Assets/Runner.cs:466-478 | the animation step changes only its exiting flag and its track; the queue and identities are untouched |
| Clips.AnimationFrameExiting | Assets/Runner.cs:466-474 | the frame is To(from, t) for t = Elapsed, or Elapsed % cycle (in [0, cycle)) when looping; with positive speeds inside the clip it lies between the clamped from and the clip's end; the clip is exiting exactly when it plays once and frame + transition passes to |
| Clips.AnimationFrameTracks | Assets/Runner.cs:475 | the clip's contributor records the frame To computed; every other track is kept, and an animator without a track changes no state |
| Clips.AnimationFrameMixer | Assets/Runner.cs:466-475 | the animator's track takes SetFrame with the frame To computes, the end frame for a wrap, the clip's flags, and a dirty flag set exactly when the state differs from the one before the step or the exiting flag changed |
| Clips.DetachClip | Assets/Runner.cs:481 | AnimationClip.Destroy's Playable.Destroy keeps the queue and the next identity and never adds a mixer track |
| Clips.DetachClipOthers | Assets/Runner.cs:481 | AnimationClip.Destroy's Playable.Destroy keeps every other animator's track, and a clip whose animator is missing or has no track leaves the state as it was |
| Clips.DetachClipOwn | Assets/Runner.cs:629-658 | on the clip's own animator's track, Playable.Destroy removes the clip's first contributor, keeping the others' clips in order, and drops the track exactly when that was the last one; a track without the clip is kept as it is |
| Clips.Destroy | Assets/Runner.cs:329-334 | Destroy marks the clip Destroyed and keeps its identity, configuration and Elapsed; it leaves the queue and the identities alone and only ever removes tracks |
| Clips.DestroyEffects | Assets/Runner.cs:329-334 | a group's children are all Destroyed with their delays kept; a started animation keeps its runtime and detaches its contributor; any other clip leaves the shared state alone |
| Clips.DestroyChildren | Assets/Runner.cs:331-332 | every child is destroyed, and the delays are kept |
| Clips.DestroyAll | Assets/Runner.cs:329-334 | after Destroy, every clip of the tree is Destroyed |
| Clips.DestroyChildrenAll | Assets/Runner.cs:331-332 | after the group's loop, every child's whole tree is Destroyed |
| Clips.DestroyIf | Assets/Runner.cs:223-231 | DestroyIf(s) reports true and destroys exactly when the state equals s; otherwise the state is kept |
| Clips.DestroyIfChildren | Assets/Runner.cs:324-325 | every child of a group takes the same test: exactly the children in the given state become Destroyed, the others keep theirs, and each keeps its delay and identity |
| Clips.DestroyIfGroup | Assets/Runner.cs:322-328 | a group passes DestroyIf on to its children before its own test: the children in the state become Destroyed, and all of them when the group itself is |
| Clips.DestroyAnimationAsWritten | Assets/Runner.cs:479-483 | an animation clip that has a playable is destroyed like Destroy; one that never started dereferences a null playable |
| Clips.NeverStartedAnimationDestroy | Assets/Runner.cs:479-483 | destroying a never-started animation clip fails as written, while the corrected Destroy only marks it Destroyed |
| Clips.EnqueueKeepsEnvOk | Assets/Runner.cs:1215 | queueing an entry with key in [0, 1] keeps the queue sorted with keys in [0, 1] and every track valid |
| Clips.StartKeepsEnvOk | Assets/Runner.cs:456-465 | starting a clip, including adding an animation's contributor, keeps the shared state valid |
| Clips.AnimationFrameKeepsEnvOk | Assets/Runner.cs:466-478 | the animation step keeps the shared state valid |
| Clips.RunScheduledKeepsEnvOk | Assets/Runner.cs:240-247 | a scheduled step with progress key in [0, 1] keeps the queue sorted with keys in [0, 1] and every track valid |
| Clips.StepKeepsEnvOk | Assets/Runner.cs:202-222 | a clip step keeps the shared state valid |
| Clips.StepStartedKeepsEnvOk | Assets/Runner.cs:1235-1242 | the kind-specific part of a step, including the invoker clip's enqueue, keeps the shared state valid |
| Clips.StepChildrenKeepsEnvOk | Assets/Runner.cs:300-318 | the group's child loop keeps the shared state valid, since every child key stays in [p, 1] |
| Clips.DetachClipKeepsEnvOk | Assets/Runner.cs:481 | removing an animation's contributor keeps the shared state valid |
| Clips.DestroyKeepsEnvOk | Assets/Runner.cs:329-334 | destroying a clip tree keeps the shared state valid |
| Clips.DestroyChildrenKeepsEnvOk | Assets/Runner.cs:331-332 | destroying a group's children keeps the shared state valid |
| Clips.DestroyIfKeepsEnvOk | Assets/Runner.cs:322-328 | DestroyIf on a clip tree keeps the shared state valid |
| Clips.DestroyIfChildrenKeepsEnvOk | Assets/Runner.cs:324-325 | DestroyIf on a group's children keeps the shared state valid |
| Director.Run | Assets/Runner.cs:46-57 | Run returns a clip exactly when Verify succeeds: it appends one node holding a fresh clip of the verified configuration, with delay max(delay, 0); otherwise it returns null and changes nothing |
| Director.PrepareNodes | Assets/Runner.cs:69-88 | the nodes keep their order and identities; every node's delay counts down as Resolve with progress 0 says, and a node whose delay has not run out keeps its clip |
| Director.PrepareNodesDue | Assets/Runner.cs:74-86 | a node whose delay ran out this frame has its clip stepped through Scheduler.Running with the overshoot as delta and the share of the frame the delay used up as progress key |
| Director.PrepareFrame | Assets/Runner.cs:69-88 | every node counts its delay down as Resolve with progress 0 says, a node still waiting keeps its clip, the identities stay in order, and nothing is performed |
| Director.Prune | Assets/Runner.cs:92-97 | exactly the nodes whose clip is not Done remain, in order, and none left is Done |
| Director.ProcessFrame | Assets/Runner.cs:89-98 | the queued actions are performed in queue order and the queue emptied; then exactly the nodes whose clip is not Done remain, in order |
| Director.PruneKept | Assets/Runner.cs:92-97 | each node the prune keeps is the live node at its position with its delay, and its clip as DestroyIf(Done) left it |
| Director.PruneFolds | Assets/Runner.cs:92-97 | the prune's shared state is that of DestroyIf(Done) on every node's clip in turn, removed or not |
| Director.ProcessFramePrunes | Assets/Runner.cs:89-98 | after the queued actions, DestroyIf(Done) runs on every node's clip in turn, and each kept node's clip is as that test left it |
| Director.ProcessFrameWith | Assets/Runner.cs:89-98 | when a queued callback throws, the callbacks up to and including it have run, the queue is left as it was and no node is destroyed or removed; otherwise it is ProcessFrame |
| Director.Tick | Assets/Runner.cs:69-98 | after a frame the queue is empty, exactly the actions PrepareFrame queued have been performed, in queue order, and exactly the prepared nodes whose clip is not Done remain, in order |
| Director.DestroyAll | Assets/Runner.cs:60-67 | Destroy clears the nodes and the queue without performing the queued actions |
| Director.DestroyNodes | Assets/Runner.cs:62-63 | destroying every node's clip keeps the queue and the identities, and only ever removes tracks |
| Director.DestroyNodesFolds | Assets/Runner.cs:62-63 | the teardown's shared state is that of Destroy on every node's clip in turn |
| Director.DestroyAllDestroys | Assets/Runner.cs:60-67 | Destroy destroys every node's clip tree in node order, then drops the queued actions |
| Director.PrepareNodesKeepsEnvOk | Assets/Runner.cs:69-88 | the node loop keeps the shared state valid, every root key lying in [0, 1] |
| Director.PruneKeepsEnvOk | Assets/Runner.cs:92-97 | the prune keeps the shared state valid |
| Director.DestroyNodesKeepsEnvOk | Assets/Runner.cs:62-63 | destroying every node's clip keeps the shared state valid |
| Director.DestroyAllKeepsWorldOk | Assets/Runner.cs:60-67 | the teardown keeps the director's state valid |
| Director.TickKeepsWorldOk | Assets/Runner.cs:69-98 | a frame keeps the state valid, and performs exactly the actions of a queue sorted by key with every key in [0, 1] |
| Director.DelayedAnimationDestroyThrows | Assets/Runner.cs:60-67 | an animation run with delay 1 is still not started after a 0.5 s frame, and its as-written destroy throws |
| Spline.LerpUnclamped | Assets/Runner.cs:905-907 | the extrapolation line passes through its first point at t = 0 and its second at t = 1 |
| Spline.BlendIsHermite | Assets/Runner.cs:918-923 | each section is the cubic Hermite curve from b to c whose tangents are (c − a)/2 and (d − b)/2, the uniform Catmull-Rom spline |
| Spline.Blend | Assets/Runner.cs:917-922 | each Catmull-Rom section starts at b (u = 0), ends at c (u = 1), and is constant when all four control points are equal |
| Spline.Locate | Assets/Runner.cs:911-913 | the section index lies in [0, n − 1], u lies in [0, 1], and index + u = t·n; u = 1 only in the last section |
| Spline.CurveLerp | Assets/Runner.cs:900-923 | at or before 0 the curve is the line through the first two points, at or after 1 the line through the last two, each at parameter t |
| Spline.CurvePassesKnots | Assets/Runner.cs:909-923 | the curve passes through the k-th path point at t = k/(n − 1) |
| Spline.CurveEndsMeetLines | Assets/Runner.cs:902-923 | the straight-line extrapolations before 0 and after 1 meet the curve at its end points |
| Spline.ConstantPath | Assets/Runner.cs:900-923 | a path that stays at one point yields that point for every t |

## Left out

- **Unity graph plumbing.** PlayableGraph, outputs, `AnimationClipPlayable`,
  the audio playables and mixer connect/disconnect (Assets/Runner.cs:20-44,
  495-526, 835-861) are engine calls. The mixer is a recorded sequence of
  weight writes per animator.
- **`Playable.SetTime`, `AudioClipPlayable` and `SoundClip`.** They are
  engine calls. `SoundClipData`'s duration derives from engine sample counts.
- **`ActiveClip` and `ActiveClipData`.** Activator binding and particle
  simulation are engine side effects. Their `Verify`, like those of Sound,
  Move, Rotate and Scale, is kept only as "references present or not"
  (`Config.BoundKind`).
- **The `Ease` library.** It is floating-point trigonometry with no contract.
  Ease functions are an opaque parameter.
- **Navigation's linear mode, the sampled spline length and `Trace`.** They
  need Euclidean distance (a square root) and a float stepping loop.
- **Move/Rotate/Scale transform writes, `LookRotation` and the generic
  `Lerpper` dispatch.** They write engine state. `ValueClip` is modelled for
  `float` values.
- **The `Runner` MonoBehaviour, `Speed` and `Update`.** They are engine
  drivers. `Director.Tick` stands for one graph evaluation.
- **Assets/Test/RunnerTest.cs.** It is editor UI with no assertions.
- **IEEE float arithmetic.**
  - Time and weights are exact reals.
  - A few 0/0 cases get a fixed value:
    - a zero-length fade is complete at once (`Mixer.Blend`);
    - a value clip of duration 0 is at its end;
    - `% 0` in the loop time gives 0.
  - A step of no time that completes a clip reports `Indeterminate`.
- **The stability of `List.Sort` on frame speeds.** `List.Sort` is unstable,
  and two entries at the same frame may end up in either order. The model
  sorts stably.
- **`Debug.LogError` and `Debug.Assert`.**
  - A failed Verify in `RunnerClip.Run` only logs, and the clip runs anyway.
    The model does the same.
  - The `Debug.Assert` on the Navigation path (Assets/Runner.cs:873) demands
    at least two points; it is a precondition of `Spline.CurveLerp`, so a
    one-point path is not modelled as a constant curve.
- **What user callbacks do.** Callbacks and setters are identities recorded in
  `performed`. Whether one throws is a parameter `throws`
  (`Invoker.InvokeAll`, `Director.ProcessFrameWith`). `InvokeImmediate`
  (Assets/Runner.cs:118-123) has no catch, so a throw leaves the queue in
  place. `Director.Tick` uses the callbacks that do not throw.
- **Starting a clip whose references have gone.** `RunnerClip.Run` only logs
  a failed Verify and still returns true (Assets/Runner.cs:196-200). So for an
  animation whose animator or asset was destroyed after `RunnerDirector.Run`,
  `AnimationClip.Run` goes on to `Len`, which reads the missing asset, and
  `Playable.Create`, which reads `animator.name` (Assets/Runner.cs:461-463,
  509); both throw. The model instead starts such a clip as Running with no
  contributor (`Clips.StartPlain`), and its steps change no track
  (`Clips.AnimationFrameExiting`). Clips scheduled through
  `RunnerDirector.Run` passed Verify there, and `Config.VerifyIdempotent`
  keeps the second Verify passing while the references stay.
- **The animation weight range.** `[Range(-1000, 1000)]` on `weight`
  (Assets/Runner.cs:352) is an editor attribute. `Verify`
  (Assets/Runner.cs:355-372) only replaces 0 by 1, and so does the model.
- **A group completion callback.** `GroupClip` (Assets/Runner.cs:280-335) has
  none, so none is modelled.
- **Object identity.** Clips are identified by a natural number handed out
  in creation order. The source compares `AnimationClip` references.
- Timeline.Len: the nonnegative-length clause needs positive frame speeds.
  `Verify`'s RemoveAll (Assets/Runner.cs:366) drops only zero speeds, so a
  negative speed survives and the model keeps it too. `Len` and `To` then
  compute the same formulas as the source, but `Timeline.Len`,
  `Timeline.To`, `Timeline.LenInvertsTo`, `Config.VerifyAnimation`'s
  unclamped duration and `Clips.AnimationFrameExiting` state their bounds
  only for positive speeds.
- Timeline.LenInvertsTo: it is stated only for a frame reached before the
  clip's end. When To stops at the frame count, the model states no relation
  between Len and d.
- Mixer.SetFrame: its own contract states the frame it records and that the
  contributors stay in place. The retarget and the blend's delta are stated
  on `Mixer.SetFrameTargets` and `Mixer.SetFrameBlend`, and validity on
  `Mixer.SetFrameKeepsValid`.
- Director.PrepareFrame: a due node's step is stated on
  `Director.PrepareNodesDue` for some shared state, namely the one the nodes
  before it left, without naming that state.
- Clips.StepChildrenDue: likewise, it names the step a due child gets but not
  the shared state it gets it in.
- Clips.AnimationFrame: its own contract states only what it leaves alone.
  The frame it computes, the track it writes and the dirty flag it passes to
  SetFrame are stated on `Clips.AnimationFrameExiting`,
  `Clips.AnimationFrameTracks` and `Clips.AnimationFrameMixer`.

## Findings

| source | as written | input that shows it | evidently intended | confidence | as-written member | corrected member |
|---|---|---|---|---|---|---|
| Assets/Runner.cs:369-371 | the duration is divided by `speed` before `base.Verify()` replaces a non-positive speed by 1, so Verify is not idempotent | speed −1, a 2 s animation, no frame speeds, ending None: duration 0 after the first Verify, 2 after the second | divide by the normalised speed, so one Verify gives 2 and a second changes nothing | high (proved on the model, not executed) | Config.AnimationVerifyAsWrittenNotIdempotent | Config.VerifyIdempotent |
| Assets/Runner.cs:431-435 | the tail segment of `To` is measured from the last speed entry's `frame`, while playback starts at `beg = max(from, frame)` | a clip of 100 frames at 1 fps, one speed entry (frame 10, ×2), from 50, 30 s: frame 110, past the clip's end | measure the tail from `beg`, so the result stays within [from, frameCount] | high (proved on the model, not executed) | Timeline.ToAsWrittenLeavesClip | Timeline.To |
| Assets/Runner.cs:479-483 | `AnimationClip.Destroy` calls `playable.Destroy` even when the clip never started, and `playable` is then null | `RunnerDirector.Run` of an animation with delay 1, one frame of 0.5 s, then `RunnerDirector.Destroy` | a never-started clip only becomes Destroyed | high (proved on the model, not executed) | Clips.NeverStartedAnimationDestroy | Clips.DestroyAll |

The model uses the corrected `Config.VerifyAnimation`, `Timeline.To` and
`Clips.Destroy` everywhere else.

For a clip started through `RunnerDirector.Run`, the first finding only
changes intermediate values: the clip is verified twice, once in `Run` and
once at its start, and the second pass gives the corrected duration.
