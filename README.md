# Rect complete step stage: verified model of the node state logic

The program draws a row of five nodes. Each node can animate a pair of
corner brackets that grow out of its centre and shrink back. This project
models the sequential state logic behind that animation, in three parts.

- `State` (module `ScaleStep`, `state.dfy`) is the per-node progress
  machine. It has three fields: `scale`, `prevScale` (the last settled
  value) and `dir` (0 when idle, 1 or -1 while moving). `startUpdating` is
  edge triggered. `update` moves `scale` by `0.05 * dir` per tick. Once the
  scale has moved more than 1 away from `prevScale`, it snaps to
  `prevScale + dir` and settles. The class methods are proved against two
  value functions, `Tick` and `Begin`. The lemmas are stated about those
  functions on the `Progress` datatype.
- `Animator` (module `Animation`, `animator.dfy`) is an idempotent
  start/stop flag that guards one periodic timer.
- `RCSNode` (module `NodeChain`, `node.dfy`) is a node of a doubly linked
  chain. Its constructor builds the successor node recursively and sets
  the successor's `prev` back to itself. `getNext` follows a link, or runs
  a boundary callback and returns the node itself. `update` and
  `startUpdating` delegate to the node's `State`.

How the model represents the source:

- JavaScript numbers in `State` and in `getNext`'s `dir` are exact Dafny
  `real`s. So `dir := 1 - 2 * prevScale` is written exactly as the source
  writes it, for any state.
- No callback is modelled as a function value. Instead, every method that
  takes a callback returns `calls`, the number of times it would run that
  callback.
- `setInterval` is not called by the model. `Animator.Start` receives the
  handle it would return, as a parameter.
- The ghost set `live` stands for the runtime's timers. It holds the
  handles of the animator's timers that are still firing.

## Model

| member | source | states |
|---|---|---|
| `ScaleStep.Tick` | RectCompleteStepStage.ts:39-47 | runs the callback at most once, and exactly when the moved scale lies more than 1 from prevScale; keeps the reachable-state invariant; on an idle reachable state changes nothing and runs no callback; a completing tick settles scale and prevScale on old prevScale + dir with dir 0; a non-completing tick moves scale by exactly 0.05 * dir and keeps prevScale and dir |
| `ScaleStep.Begin` | RectCompleteStepStage.ts:49-54 | runs the callback once exactly when idle; when moving changes nothing; never touches scale or prevScale; keeps the invariant; on a reachable idle state picks dir 1 iff prevScale is 0 and dir -1 iff prevScale is 1 |
| `ScaleStep.StartTwice` | RectCompleteStepStage.ts:49-54 | on a reachable state a second start in a row is a no-op without callback, so two starts run the callback once if idle and never otherwise |
| `ScaleStep.RunKeepsInv` | RectCompleteStepStage.ts:35-54 | any sequence of startUpdating/update calls keeps prevScale in {0,1}, dir in {-1,0,1}, dir pointing away from prevScale, scale == prevScale when idle, and scale within [0,1] |
| `ScaleStep.Reachable` | RectCompleteStepStage.ts:35-37 | the invariant holds after every sequence of calls on a freshly constructed State |
| `ScaleStep.IdleTicks` | RectCompleteStepStage.ts:39-46 | any number of ticks on an idle reachable state change nothing and run no callback, although update has no explicit guard |
| `ScaleStep.CompletesWithin` | RectCompleteStepStage.ts:40-46 | a moving state given enough ticks to pass the threshold ends settled on its target, with the callback run exactly once over all those ticks |
| `ScaleStep.Completes` | RectCompleteStepStage.ts:40-46 | every step in progress completes within 21 ticks, settling on 1 - prevScale with exactly one callback |
| `ScaleStep.FirstTickMoves` | RectCompleteStepStage.ts:40-41 | on a reachable idle state, the first tick after a start does not complete: it moves scale by 0.05 * the new dir and runs no callback |
| `ScaleStep.TickApproaches` | RectCompleteStepStage.ts:40-41 | a non-completing tick brings scale strictly closer to the target and adds exactly 0.05 to the distance moved |
| `ScaleStep.State.constructor` | RectCompleteStepStage.ts:34-37 | a new State has scale, prevScale and dir all 0 and satisfies the invariant |
| `ScaleStep.State.Update` | RectCompleteStepStage.ts:39-47 | the new fields and the callback count are those of Tick on the old fields; the invariant is kept |
| `ScaleStep.State.StartUpdating` | RectCompleteStepStage.ts:49-54 | the new fields and the callback count are those of Begin on the old fields; the invariant is kept |
| `Animation.Animator.constructor` | RectCompleteStepStage.ts:57-59 | a new Animator is not animated and owns no live timer |
| `Animation.Animator.Start` | RectCompleteStepStage.ts:61-66 | when not animated, sets animated, stores the new handle and adds exactly that one timer; when animated, changes nothing; afterwards exactly one timer is live |
| `Animation.Animator.Stop` | RectCompleteStepStage.ts:68-73 | when animated, clears animated and removes the stored timer; when not animated, changes nothing; afterwards no timer is live |
| `Animation.StartStopStart` | RectCompleteStepStage.ts:57-73 | from a stopped valid animator, start, start again, stop and start ends valid, animated, with exactly the third timer live (that no sequence ever has two live timers is `Animator.Valid`, kept by Start and Stop) |
| `NodeChain.RCSNode.constructor` | RectCompleteStepStage.ts:76-90 | builds a valid chain of fresh nodes, as many as from index i to the last index, with no prev on the new node and every node's State fresh and initial |
| `NodeChain.RCSNode.Update` | RectCompleteStepStage.ts:119-121 | the node's State changes exactly as State.update does and the chain links stay valid |
| `NodeChain.RCSNode.StartUpdating` | RectCompleteStepStage.ts:123-125 | the node's State changes exactly as State.startUpdating does and the chain links stay valid |
| `NodeChain.RCSNode.GetNext` | RectCompleteStepStage.ts:127-137 | returns next for dir 1 and prev for any other dir without callback when that link exists; otherwise runs the callback once and returns the node itself |
| `NodeChain.Linked` | RectCompleteStepStage.ts:81-90 | in a valid chain the k-th node has index i + k, every node but the last has a next whose prev is that node, the last has no next, and the nodes' states are distinct |
| `NodeChain.Neighbours` | RectCompleteStepStage.ts:127-137 | in a chain with a root without prev, getNext hits the boundary iff going forward from the last node or backward from the root; otherwise it reaches the adjacent node with the next or previous index |
| `NodeChain.FullChain` | RectCompleteStepStage.ts:81-90 | the chain built from index 0 has exactly 5 nodes with indices 0..4, the last without next |
| `NodeChain.MarkFactor` | RectCompleteStepStage.ts:102 | the factor of a mark lies in [0,1]; mark 0 follows the lower half of the scale and mark 1 the upper half, each stretched to [0,1] |
| `NodeChain.SettledMarks` | RectCompleteStepStage.ts:102 | a node settled at 0 draws neither mark and one settled at 1 draws both in full |

## Left out

- The `RectCompleteStepStage` class (canvas creation, `render`, the empty mouse-down handler, `init`). It is DOM and rendering glue with no state logic.
- `RCSNode.draw`, apart from the per-mark factor. Its canvas transforms and strokes are pixel geometry.
- The timing of `setInterval` and `clearInterval`: the 50 ms period and when the callback fires. These are runtime calls. Only the `animated` flag, the stored handle and the set of live timers are kept.
- The callbacks themselves, which are opaque function arguments. Only the number of times each one would run is modelled.
- JavaScript floating point. The sum of repeated 0.05 steps is exact in the model. The completion bound of 21 ticks is therefore an upper bound; the model does not claim the exact tick count of the floating-point program.
- `NodeChain.RCSNode.constructor`: the index `i` is a Dafny `int`. The source accepts any number, including fractions.
- `NodeChain.RCSNode.constructor`: `state` and `i` are `const` fields. The source never reassigns them.
- No code coordinates the nodes (an active index, or flipping direction from `getNext`'s callback). The source file contains no such code, so none is modelled.
