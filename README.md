# Lemur core, modelled in Dafny

Lemur is a small Swift rendering library on top of Metal. For each frame,
a `CanvasRenderer` draws a `Canvas` to a drawable:

- a `Canvas` holds three ordered lists of mesh instances (opaque, shaded
  and weighted) and a camera;
- the renderer keeps a ring of three frame slots;
- each slot has its own growable uniform buffers, one `UniformBufferChain`
  per uniform type, all selected by one `SharedCounter`;
- a counting semaphore bounds the number of frames the GPU still holds;
- a `RenderEngine` caches the render pipelines per output format and
  builds them in the background.

Next to the renderer sits an `InputManager`: a queue of timestamped input
events, with a one-second eviction window on insert, partial draining by
deadline, and reductions (`mouseDrag`, `scroll`, `isKeyDown`) over arrays
of events.

The project has eight modules, one per part of the program:

| module | file | models |
|---|---|---|
| `Wrappers` | wrappers.dfy | `Option` |
| `FrameSlots` | frameslots.dfy | `SharedCounter` and the modulo ring it walks |
| `Uniforms` | uniforms.dfy | `UniformBufferChain` |
| `Scene` | scene.dfy | `LMMesh`, `Camera` (its state only), `LMMeshInstance`, `Canvas` |
| `Pipelines` | pipelines.dfy | the vertex layouts and pipeline descriptors of `RenderData.init`, `RenderDataHolder`, and the `RenderEngine` cache (`getRenderDataHolder`) |
| `Commands` | commands.dfy | the commands a frame records, as a trace, and the functions that say which trace a frame produces |
| `Renderer` | renderer.dfy | `CanvasRenderer`: `init`, `updateRenderTargets` and `render` |
| `Input` | input.dfy | `InputEvent`, the `[InputEvent]` reductions and `InputManager` |

## How the platform is represented

- **GPU buffers.** A buffer is an `array` of uniform records. Its byte
  length is `itemStride` times the array length. Arrays keep their own
  identity, so this matters for `render`:
  - it takes the mesh chains' current buffers (`CanvasRenderer.swift:606-608`)
    before the uploads that may replace them (614-633);
  - the model says which buffer each bind command names;
  - it says what that buffer holds: the values that fit in it;
  - it says the bound buffer is the slot's current buffer exactly when
    every value fit.
- **Which buffers a frame writes.** The `modifies` clauses name the chain
  objects and, of the buffers that already exist, only the slot's buffer of
  each chain: `SlotBuffer()` for the current slot, `NextSlotBuffer()` for
  the slot the next tick selects. Every other buffer a chain has allocated
  keeps its records. That covers the other slots' buffers and the buffers
  replaced by growth. Buffers made during the call are new and may be
  written.
- **The frame semaphore.** It is a count of free permits, `permits`, plus a
  count of releases still owed by completed handlers, `inFlight`.
  `permits + inFlight == 3` holds between frames.
- **Blocking wait.** When no permit is free, the wait is modelled as one
  earlier frame completing first (`FrameCompleted`).
- **The encoder.** It is an appended trace of `Command`s.
  `FrameCommands` is the specification of one committed frame. The lemmas
  in `Commands` project a trace onto one kind of command (`Only`): draws,
  pipeline selections, presents and waits.
- **Metal factory calls that may fail** become boolean inputs:
  - `makeCommandBuffer`;
  - `makeRenderCommandEncoder`;
  - `makeTexture` in `updateRenderTargets`.

  Whether the render data for the drawable's format is built is read from
  the holder.
- **Pipeline compilation** is a foreign call. A compiled pipeline is the
  descriptor it was compiled from. `FinishBuild` is the background task's
  body: it stores either that render data or an opaque error.
- **Per-frame inputs.** The camera's `viewProjection` matrix is a
  parameter of `Render`. `Vector3` and `Quaternion` are records of `real`
  components. `Matrix4` wraps a sequence of `real` entries; its length is
  not constrained to 16. The model only copies these values.
- **Clocks.** `InputManager.add` reads the clock once for the new event's
  timestamp (`InputEvent.swift:97`). It reads it again inside the
  `removeAll` closure (103), once for every element tested. The model
  takes the first reading `now` and one reading per tested element as
  parameters. `EvictEach` tests the `i`-th event of the queue against the
  `i`-th reading. `EvictEachConstant` shows that with equal readings this
  is eviction against a single cutoff (`Evict`). The deadline of `fetch`
  is a parameter. Timestamps and deltas are exact `real`s, because
  the code only compares and adds them.
- **Where code and comments disagree, the model follows the code.**
  - The eviction window is 1 second (`InputEvent.swift:103`); the comment
    above it says 5 seconds.
  - A nil canvas returns before the semaphore wait and presents nothing
    (`CanvasRenderer.swift:594-597`); the comment there says "draw empty
    screen".
  - `fetch(until: now)` right after `add` at `now` returns every queued
    event stamped at or before `now`, not only the new one
    (`InputEvent.swift:93-113`). It returns the new event alone only when
    nothing older survived the eviction. `AddThenFetch` states the general
    case and the empty-queue case.

## Model

| member | source | states |
|---|---|---|
| FrameSlots.NextSlot | Sources/Lemur/CanvasRenderer.swift:425-427 | the next slot stays in `[0, maxValue)`; it is `current + 1`, or wraps to 0 after the last slot |
| FrameSlots.AfterTicks | Sources/Lemur/CanvasRenderer.swift:425-427 | any number of ticks stays inside the ring |
| FrameSlots.AfterTicksAdvances | Sources/Lemur/CanvasRenderer.swift:425-427 | `n` ticks from `current` land on `(current + n) % maxValue` |
| FrameSlots.FullRoundReturns | Sources/Lemur/CanvasRenderer.swift:416-428 | after `maxValue` ticks the counter is back where it started |
| FrameSlots.NoEarlyReturn | Sources/Lemur/CanvasRenderer.swift:416-428 | between 1 and `maxValue - 1` ticks never bring the counter back to where it started |
| FrameSlots.AfterTicksCompose | Sources/Lemur/CanvasRenderer.swift:425-427 | `i` ticks followed by `j` ticks land where `i + j` ticks do |
| FrameSlots.RoundVisitsEachSlotOnce | Sources/Lemur/CanvasRenderer.swift:416-428 | the `maxValue` slots of one round are pairwise distinct, so each slot is used exactly once per round and reused only after a full round |
| FrameSlots.SharedCounter.constructor | Sources/Lemur/CanvasRenderer.swift:420-423 | a new counter is at slot 0 of a ring of `maxValue` slots |
| FrameSlots.SharedCounter.Tick | Sources/Lemur/CanvasRenderer.swift:425-427 | `tick` keeps the value in `[0, maxValue)` and sets it to `(old + 1) % maxValue` |
| Uniforms.GrownCapacity | Sources/Lemur/CanvasRenderer.swift:465-472 | an index below the capacity keeps it; otherwise the new capacity is a multiple of the step, above the index by at most one step, and never below the old capacity |
| Uniforms.GrowOneAtATime | Sources/Lemur/CanvasRenderer.swift:465-472 | growing for index `i` and then `i + 1` gives the same capacity as growing straight for `i + 1`, so uploading records one by one grows to the same capacity |
| Uniforms.UniformBufferChain.constructor | Sources/Lemur/CanvasRenderer.swift:454-462 | a new chain has no buffers and capacity 0, and its step is `max(4, capacityStep)` |
| Uniforms.UniformBufferChain.ReallocateIfNeeded | Sources/Lemur/CanvasRenderer.swift:465-494 | for an index below the capacity nothing changes. Otherwise there is one new buffer per ring slot, all distinct and of the grown capacity, and each keeps its predecessor's records at the same positions |
| Uniforms.UniformBufferChain.CurrentBuffer | Sources/Lemur/CanvasRenderer.swift:443-446 | returns the current slot's buffer after making room for record 0, so it has at least one record |
| Uniforms.UniformBufferChain.OffsetForItem | Sources/Lemur/CanvasRenderer.swift:448-451 | returns `itemStride * index`, and afterwards the index is below the capacity |
| Uniforms.UniformBufferChain.SetValue | Sources/Lemur/CanvasRenderer.swift:497-502 | the index fits; `value` is stored at `index` of the current slot's buffer; every other record of that buffer and every other slot's buffer keeps its contents; a buffer replaced by growth is not touched |
| Scene.LMMesh.constructor | Sources/Lemur/Canvas.swift:16-25 | stores the vertex buffer, vertex count and texture unchanged, in immutable fields |
| Scene.Camera.constructor | Sources/Lemur/Canvas.swift:29-38 | a new camera is at (0, 0.5, 1.5), unrotated, with a 1x1 viewport and a 45-degree field of view |
| Scene.LMMeshInstance.constructor | Sources/Lemur/Canvas.swift:108-116 | stores the given mesh; both transforms start as the identity |
| Scene.LMMeshInstance.SetTransform | Sources/Lemur/Canvas.swift:108-111 | changes only this instance's `transform`; its mesh, its `transform1`, other instances and every mesh are untouched |
| Scene.LMMeshInstance.SetMesh | Sources/Lemur/Canvas.swift:108-111 | changes only this instance's `mesh`; the meshes themselves and other instances are untouched |
| Scene.Canvas.constructor | Sources/Lemur/Canvas.swift:120-133 | a new canvas has three empty instance lists and its own new camera |
| Scene.MeshesOf | Sources/Lemur/CanvasRenderer.swift:686-687 | the meshes of an instance list, one per instance and in list order |
| Pipelines.FormatSize | Sources/Lemur/CanvasRenderer.swift:112-128 | every attribute format takes a positive multiple of 4 bytes, at most 12 |
| Pipelines.PackedIsWellFormed | Sources/Lemur/CanvasRenderer.swift:112-130 | attributes laid out back to back from offset 0, with the stride equal to their total size, fit inside the stride and do not overlap |
| Pipelines.OpaqueMeshLayout | Sources/Lemur/CanvasRenderer.swift:112-130 | the opaque layout has three attributes in buffer 0, packed, inside its stride of 32 and not overlapping |
| Pipelines.ShadedMeshLayout | Sources/Lemur/CanvasRenderer.swift:150-168 | the shaded layout has three attributes in buffer 0, packed, inside its stride of 24 and not overlapping |
| Pipelines.WeightedMeshLayout | Sources/Lemur/CanvasRenderer.swift:188-221 | the weighted layout has six attributes in buffer 0, packed, inside its stride of 52 and not overlapping |
| Pipelines.MeshPipeline | Sources/Lemur/CanvasRenderer.swift:98-110 | a mesh pipeline satisfies `PipelineMatches` for the requested formats (colour attachment in the output format, unblended, the depth/stencil format on both attachments, alpha-to-coverage on) exactly when its vertex layout is well-formed; it keeps its shader pair and layout |
| Pipelines.BuildRenderData | Sources/Lemur/CanvasRenderer.swift:83-226 | render data built for a format pair carries that pair; each of its three pipelines matches it and has a well-formed layout with stride 32, 24 or 52 |
| Pipelines.RenderDataHolder.constructor | Sources/Lemur/CanvasRenderer.swift:62-66 | a new holder has neither data nor an error |
| Pipelines.Occurrences | Sources/Lemur/CanvasRenderer.swift:316-335 | counts how often a key occurs among the started builds; the count is 0 exactly when the key is absent |
| Pipelines.StartBuildIfNew | Sources/Lemur/CanvasRenderer.swift:316-323 | after a lookup the key's build has been started; a build starts only for a key not seen before, and the builds stay duplicate-free |
| Pipelines.StartBuildsForKeepsDistinct | Sources/Lemur/CanvasRenderer.swift:316-323 | any sequence of lookups leaves a duplicate-free list of builds, holding exactly the keys looked up |
| Pipelines.OneBuildPerKey | Sources/Lemur/CanvasRenderer.swift:316-335 | whatever the order and number of lookups, exactly one build is started for each key looked up, and none for any other key |
| Pipelines.RenderEngine.constructor | Sources/Lemur/CanvasRenderer.swift:244 | the cache starts empty, with no build started |
| Pipelines.RenderEngine.GetRenderDataHolder | Sources/Lemur/CanvasRenderer.swift:316-335 | a cached key returns the identical holder and changes nothing. A new key gets a fresh empty holder, which is cached, and its one build is started. Different keys keep distinct holders |
| Pipelines.RenderEngine.FinishBuild | Sources/Lemur/CanvasRenderer.swift:324-332 | the background build stores the render data for its key, or, when it throws, the error |
| Commands.Texture.constructor | Sources/Lemur/CanvasRenderer.swift:567-573 | a new texture has the format and size it was made for |
| Commands.DrawCommands | Sources/Lemur/CanvasRenderer.swift:686-693 | drawing `n` instances records three commands per instance |
| Commands.DrawCommandsShape | Sources/Lemur/CanvasRenderer.swift:686-693 | instance `i` binds its uniform record at offset `stride * i`, then its mesh, then draws its mesh's vertex count |
| Commands.DrawsOf | Sources/Lemur/CanvasRenderer.swift:692 | one draw per mesh, with that mesh's vertex count, in list order |
| Commands.MeshDraws | Sources/Lemur/CanvasRenderer.swift:692 | one draw per mesh of a list, with that mesh's vertex count, in list order |
| Commands.InstanceOnly | Sources/Lemur/CanvasRenderer.swift:687-692 | one instance issues exactly one draw, of its mesh's vertex count, and no pipeline, present or wait command |
| Commands.DrawCommandsOnly | Sources/Lemur/CanvasRenderer.swift:686-693 | the instances of a category issue exactly their meshes' draws, in order, and nothing else of interest |
| Commands.CategoryOnly | Sources/Lemur/CanvasRenderer.swift:684-694 | a category issues its pipeline once, and only when it has instances, plus exactly its meshes' draws |
| Commands.MeshPassOnly | Sources/Lemur/CanvasRenderer.swift:673-719 | a mesh pass contains what its categories contain, in the order opaque, shaded, weighted |
| Commands.FinishOnly | Sources/Lemur/CanvasRenderer.swift:721-736 | the end of a frame has exactly one present; it has a wait exactly when the frame has a target time or waiting is forced; it has no draw and no pipeline |
| Commands.FrameOnly | Sources/Lemur/CanvasRenderer.swift:663-736 | a frame's commands of any kind are those of its mesh pass, if any, followed by those of its ending |
| Commands.PipelineOrder | Sources/Lemur/CanvasRenderer.swift:684-718 | a category's pipeline is selected exactly when it has instances, and at most three are selected |
| Commands.FramePipelines | Sources/Lemur/CanvasRenderer.swift:684-718 | with render data, a frame selects the pipelines of exactly the non-empty categories, in the order opaque, shaded, weighted; without it, none |
| Commands.FrameDraws | Sources/Lemur/CanvasRenderer.swift:673-719 | with render data, every instance is drawn once with its mesh's vertex count, category by category in list order; without it, nothing is drawn |
| Commands.FramePresents | Sources/Lemur/CanvasRenderer.swift:723-728 | a frame presents exactly once: at the target time exactly when there is one and waiting is not forced, otherwise immediately |
| Commands.FrameWaits | Sources/Lemur/CanvasRenderer.swift:733-736 | a frame waits until scheduled exactly when it has a target time or waiting is forced |
| Commands.FrameEnds | Sources/Lemur/CanvasRenderer.swift:731-736 | the commit is the last command, or is followed only by the wait when the frame waits |
| Commands.NoRenderDataStillPresents | Sources/Lemur/CanvasRenderer.swift:673-731 | without render data a frame draws nothing and selects no pipeline, yet still ends encoding, presents and commits |
| Commands.EmptySceneDrawsNothing | Sources/Lemur/CanvasRenderer.swift:673-719 | with render data but no instances, only the raster state and the scene uniforms are set |
| Renderer.Outcome | Sources/Lemur/CanvasRenderer.swift:587-667 | a frame is committed exactly when there is an engine, a canvas, a command buffer and an encoder; no engine and no canvas are the two early returns |
| Renderer.MeshUniforms | Sources/Lemur/CanvasRenderer.swift:614-625 | the `i`-th record of an opaque or shaded list holds the `i`-th instance's transform |
| Renderer.WeightedMeshUniforms | Sources/Lemur/CanvasRenderer.swift:628-633 | the `i`-th weighted record holds the `i`-th instance's two transforms |
| Renderer.ContentOf | Sources/Lemur/CanvasRenderer.swift:614-633 | what a frame reads of each instance list: one uniform record and one mesh per instance |
| Renderer.UploadUniforms | Sources/Lemur/CanvasRenderer.swift:614-618 | after `setValue(values[i], at: i)` for every `i` in order, the current slot's buffer holds every value at its index and the capacity is that of growing for the last index. The slot's old buffer received the values that fit in it and keeps its records past them, and it is still current exactly when all values fit. Other slots keep their contents. Only the chain and the slot's buffer are written, so no other buffer changes |
| Renderer.BindThenUpload | Sources/Lemur/CanvasRenderer.swift:606-618 | the handle taken before the upload holds the values that fit in it, and it is the slot's buffer after the upload exactly when all of them fit. Only the chain and the slot's buffer are written, so every other buffer keeps its records |
| Renderer.WriteThenBind | Sources/Lemur/CanvasRenderer.swift:649-650 | the scene uniform is written before its buffer is taken, so the bound buffer is the current one and holds the value at record 0. Only the chain and the slot's buffer are written |
| Renderer.CanvasRenderer.constructor | Sources/Lemur/CanvasRenderer.swift:508-541 | a new renderer has every permit free, the counter at slot 0, four empty chains (mesh step 512, scene step 4), no canvas, no depth/stencil target and an empty trace |
| Renderer.CanvasRenderer.FrameCompleted | Sources/Lemur/CanvasRenderer.swift:669-671 | a completed handler returns one permit that a frame in flight held |
| Renderer.CanvasRenderer.UpdateRenderTargets | Sources/Lemur/CanvasRenderer.swift:562-574 | a target of the drawable's size is kept. Otherwise it is replaced by a new target of that size in the depth/stencil format, or by nil when the texture cannot be made |
| Renderer.CanvasRenderer.UploadStandardMeshUniforms | Sources/Lemur/CanvasRenderer.swift:606-625 | each chain ends as `Uploaded` states for its own values. Only the two chains and their current slots' buffers are written. Each handle is taken just before its own chain's upload, where the code takes all handles first (606-608) and uploads after (614-625). The two orders give the same handles and records, because an upload writes only its own chain and that chain's slot buffer |
| Renderer.CanvasRenderer.UploadWeightedAndScene | Sources/Lemur/CanvasRenderer.swift:608-650 | the weighted chain ends as `Uploaded` states for its values; the scene buffer bound is the current one and holds the scene uniform at record 0. Only the two chains and their current slots' buffers are written. The weighted handle is taken just before its upload rather than with the others (608), which gives the same handle for the same reason |
| Renderer.CanvasRenderer.UploadFrameUniforms | Sources/Lemur/CanvasRenderer.swift:606-650 | once the slot is chosen, every instance's uniforms and the scene uniform are uploaded to the slot's buffers, as `Uploaded` states for each mesh chain. Of the existing buffers only the current slot's buffer of each chain is written |
| Renderer.CanvasRenderer.PrepareUniforms | Sources/Lemur/CanvasRenderer.swift:604-650 | the slot advances by one tick; every instance's uniforms are uploaded to the new slot's buffers; the scene buffer holds the camera's `viewProjection`. Of the buffers that exist before, only the new slot's buffer of each chain is written; the other slots' buffers and those replaced by growth keep their records |
| Renderer.CanvasRenderer.EncodeCategory | Sources/Lemur/CanvasRenderer.swift:684-694 | appends exactly the commands of one category: nothing when it is empty, otherwise its pipeline and then each instance in order |
| Renderer.CanvasRenderer.EncodeMeshPass | Sources/Lemur/CanvasRenderer.swift:673-719 | appends the raster state, the scene uniforms and then the three categories in order |
| Renderer.CanvasRenderer.EncodeFrame | Sources/Lemur/CanvasRenderer.swift:663-736 | appends exactly `FrameCommands`: the begun pass, the mesh pass when render data exists, then the end, the present, the commit and the optional wait |
| Renderer.CanvasRenderer.AcquireFrameSlot | Sources/Lemur/CanvasRenderer.swift:602 | the wait takes one permit, after one in-flight frame has released its own when none was free |
| Renderer.CanvasRenderer.SubmitFrame | Sources/Lemur/CanvasRenderer.swift:652-736 | without a command buffer or an encoder, the permit comes back at once and nothing is recorded. Otherwise the frame stays in flight until its completed handler runs and records exactly its commands. The render target is updated unless the command buffer failed |
| Renderer.CanvasRenderer.PrepareFrame | Sources/Lemur/CanvasRenderer.swift:602-650 | the wait takes a permit, the slot advances and every uniform is uploaded to the new slot's buffers. The canvas, trace and target are unchanged, and no existing buffer outside the new slot is written |
| Renderer.CanvasRenderer.DrawCanvas | Sources/Lemur/CanvasRenderer.swift:602-736 | every frame past the wait gives back exactly one permit, at once or through its completed handler, so the permit balance holds again. Its slot advances and the uniforms are uploaded. A committed frame records exactly `FrameCommands`, binding the handles taken before the uploads. No existing buffer outside the new slot is written |
| Renderer.CanvasRenderer.Render | Sources/Lemur/CanvasRenderer.swift:580-737 | the outcome follows the checks in order. The render data holder is looked up, and its build started, before the canvas is checked. Without an engine or a canvas, permits, counter, chains, target and trace are unchanged; otherwise the slot advances. No existing buffer outside the new slot is written |
| Input.EvictEach | Sources/Lemur/InputEvent.swift:103 | the survivors of eviction with one clock reading per tested event are events of the queue, at most as many |
| Input.Evict | Sources/Lemur/InputEvent.swift:103 | eviction against one cutoff keeps exactly the events stamped no earlier than the cutoff (as a set of events; `EvictCounts` fixes the multiplicities) |
| Input.EvictEachConstant | Sources/Lemur/InputEvent.swift:103 | when every reading is the same, eviction with a reading per event is eviction against that reading minus one second |
| Input.EvictEachWithin | Sources/Lemur/InputEvent.swift:103 | with no reading before `earliest`, the survivors are, in order, a subsequence of what the cutoff `earliest - 1` keeps, so none is older than that cutoff |
| Input.EvictEachKeepsNewer | Sources/Lemur/InputEvent.swift:103 | with no reading after `latest`, every event the cutoff `latest - 1` keeps survives, and in order |
| Input.EvictEachAppend | Sources/Lemur/InputEvent.swift:103 | eviction with a reading per event distributes over concatenation of the queue and of its readings |
| Input.EvictEachIsSubsequence | Sources/Lemur/InputEvent.swift:103 | eviction with a reading per event keeps the survivors in their original order |
| Input.EvictCounts | Sources/Lemur/InputEvent.swift:103 | every event at or after the cutoff keeps all of its occurrences, and every older event has none left |
| Input.Due | Sources/Lemur/InputEvent.swift:109 | keeps exactly the events stamped at or before the deadline |
| Input.Pending | Sources/Lemur/InputEvent.swift:110 | keeps exactly the events stamped after the deadline |
| Input.EvictAppend | Sources/Lemur/InputEvent.swift:103 | eviction distributes over concatenation |
| Input.EvictIsSubsequence | Sources/Lemur/InputEvent.swift:103 | eviction keeps the survivors in their original order |
| Input.DueIsSubsequence | Sources/Lemur/InputEvent.swift:109 | `fetch` returns events in queue order |
| Input.PendingIsSubsequence | Sources/Lemur/InputEvent.swift:110 | `fetch` keeps the remaining events in queue order |
| Input.AddEvictsAndKeepsOrder | Sources/Lemur/InputEvent.swift:93-104 | after `add`, no queued event is older than one second before the earliest eviction reading, and the survivors keep their order |
| Input.AddAppendsAtEnd | Sources/Lemur/InputEvent.swift:93-104 | when the clock moves by at most a second between stamping the new event and testing it, the new event is kept, at the end, after the surviving old events |
| Input.FetchPartitions | Sources/Lemur/InputEvent.swift:107-113 | the returned and the remaining events partition the old queue, each in queue order |
| Input.FetchCountsAdd | Sources/Lemur/InputEvent.swift:109-110 | as multisets, the returned and the remaining events add up to the old queue |
| Input.FetchTwiceIsEmpty | Sources/Lemur/InputEvent.swift:107-113 | a second `fetch` with the same deadline returns nothing |
| Input.DueOfLate | Sources/Lemur/InputEvent.swift:109-110 | when no event is later than the deadline, `fetch` returns them all and leaves nothing |
| Input.AddThenFetch | Sources/Lemur/InputEvent.swift:93-113 | `add` at `now` and then `fetch(until: now)` returns the survivors followed by the new event, and empties the queue, when the new event is tested within a second of `now`; from an empty queue it returns exactly the new event |
| Input.ReduceDeltasSum | Sources/Lemur/InputEvent.swift:42-69 | the `reduce` fold from any partial result is that result when no event is selected, and otherwise the partial result plus the sum of the selected deltas |
| Input.MouseDragMeaning | Sources/Lemur/InputEvent.swift:42-54 | `mouseDrag(b)` is nil exactly when no event is a mouse drag with button `b`, and otherwise the sum of those drags' deltas; touch drags and other buttons do not count |
| Input.ScrollMeaning | Sources/Lemur/InputEvent.swift:57-69 | `scroll()` is nil exactly when there is no scroll event, and otherwise the sum of their deltas |
| Input.IsKeyDownMeaning | Sources/Lemur/InputEvent.swift:72-80 | `isKeyDown(k)` holds exactly when some event is a key-down of `k` |
| Input.KeyUpNeverCounts | Sources/Lemur/InputEvent.swift:72-80 | inserting a key-up event anywhere never changes `isKeyDown` |
| Input.InputManager.constructor | Sources/Lemur/InputEvent.swift:86-91 | a new manager has an empty queue |
| Input.InputManager.Add | Sources/Lemur/InputEvent.swift:93-105 | the queue becomes the old queue with the new event appended, minus every event older than one second before the clock reading taken when it is tested |
| Input.InputManager.Fetch | Sources/Lemur/InputEvent.swift:107-113 | returns exactly the queued events stamped at or before the deadline, in order, and keeps exactly the later ones |

## Left out

- Concurrency. The model does not include:
  - the blocking of `DispatchSemaphore`;
  - `AccessSemaphore`, the mutual exclusion around the input queue;
  - the `Task` that builds render data;
  - completed handlers running on another thread.

  Frames are sequential. `FrameCompleted` and `FinishBuild` are separate
  operations the caller may interleave between frames.
- Render, reading render data: the model reads the holder's `data` when the
  holder is looked up, not at encode time (`CanvasRenderer.swift:673`). With
  no concurrent build, both reads give the same value.
- Render, reading the canvas: each frame reads the canvas's instance lists
  once (`ContentOf`), where the code reads them again while encoding.
  Nothing changes the canvas during a frame.
- Metal objects. These are opaque handles or values:
  - devices and queues;
  - textures and vertex buffers;
  - pipeline, depth/stencil and sampler states;
  - the render pass descriptor and its clear colours.

  `RenderEngine.init`, `createTexture` and `createBuffer` are not part of
  this model.
- Buffer allocation: `makeBuffer` in `reallocateIfNeeded` always succeeds.
  The `fatalError` path is not modelled. A new buffer's records start with
  default values where the bytes are uninitialised.
- Uniform strides: `MemoryLayout<T>.stride` of the three uniform types are
  abstract positive constructor parameters.
- Record indices are natural numbers. The code takes them from `enumerated()`,
  so they are never negative.
- Camera math: the view, projection, `rotate`, `magnify` and `drag` are not
  modelled. `render` takes the camera's `viewProjection` as a parameter.
  `Matrix4` is a sequence of `real` entries of unconstrained length, and
  `Vector3` and `Quaternion` are records of `real`s; there is no
  floating-point rounding.
- Timestamp parameters: `render`'s `timestamp` and `presentationTimestamp`
  are unused by the code and are left out.
- Logging: the macOS run-loop mode `print` and the log messages on failure
  are left out.
- `CanvasRenderer.init` failure: the throw when no render engine exists is
  left out. The constructor models the initialiser once an engine exists.
- LMCanvas: `LMCanvas`, the type of `CanvasRenderer.canvas`, is not part of
  this model. It is treated as `Canvas`.
- Return type: `getRenderDataHolder` returns an optional holder but always
  a non-nil one. The model returns a holder.
- Platform glue: `GraphicsView` and `UpdateLink` are not part of this model.
- Order of the eviction readings: `EvictEach` pairs the `i`-th reading with
  the `i`-th queued event. This assumes that `removeAll(where:)` calls its
  closure once per element, front to back. The Swift standard library is
  not part of this model.
- Slot reuse: the frames that use a slot are not tracked, so the model does
  not relate the slot a frame writes to the frames still in flight. The
  `modifies` clauses only show that the other slots' buffers are left as
  they are.
- Renderer.CanvasRenderer.Render: states the outcome, the render data
  lookup, the early returns and the slot advance. It leaves the uploads,
  the permit balance and the recorded trace to `DrawCanvas`, which `Render`
  calls with what it read of the canvas.
