/**
 * `CanvasRenderer`: draws one frame of a `Canvas` at a time. It keeps a ring
 * of `NumSemaphores` frame slots, each with its own uniform buffers, so the
 * CPU can fill one slot while the GPU still reads the others; a counting
 * semaphore bounds the frames in flight.
 *
 * The semaphore is a permit count, and the command buffer's completed
 * handler is a deferred release counted in `inFlight` until
 * `FrameCompleted` delivers it. The encoder is a trace of `Command`s.
 * Creating a command buffer, an encoder or the depth/stencil texture may
 * fail; each is a boolean input.
 */
module Renderer {
  import opened Wrappers
  import opened Scene
  import opened FrameSlots
  import opened Uniforms
  import opened Pipelines
  import opened Commands

  /** The number of frame slots, and the initial count of the frame semaphore. */
  const NumSemaphores: int := 3

  /** The growth step of the three mesh uniform chains. */
  const MeshCapacityStep: int := 512

  /** The growth step of the scene uniform chain. */
  const SceneCapacityStep: int := 4

  datatype MeshUniform = MeshUniform(model: Matrix4)

  datatype WeightedMeshUniform = WeightedMeshUniform(model0: Matrix4, model1: Matrix4)

  datatype SceneUniform = SceneUniform(viewProjection: Matrix4, ambient: Vector3)

  /** The zero vector a default-initialised `SceneUniform` holds in `ambient`. */
  const NoAmbient: Vector3 := Vector3(0.0, 0.0, 0.0)

  /** What a frame reads of the `CAMetalDrawable`: its identity and its texture's format and size. */
  datatype Drawable = Drawable(id: nat, pixelFormat: PixelFormat, width: int, height: int)

  /** Which return of `render(to:...)` a frame took. */
  datatype FrameOutcome = NoRenderEngine | NoCanvas | NoCommandBuffer | NoEncoder | Committed

  /** The outcome, from the checks `render` makes in order. */
  function Outcome(hasEngine: bool, hasCanvas: bool, commandBufferMade: bool, encoderMade: bool): (r: FrameOutcome)
    ensures r == Committed <==> hasEngine && hasCanvas && commandBufferMade && encoderMade
    ensures r == NoRenderEngine <==> !hasEngine
    ensures r == NoCanvas <==> hasEngine && !hasCanvas
  {
    if !hasEngine then NoRenderEngine
    else if !hasCanvas then NoCanvas
    else if !commandBufferMade then NoCommandBuffer
    else if !encoderMade then NoEncoder
    else Committed
  }

  /** A frame reaches `frameSemaphore.wait()` exactly when it has an engine and a canvas. */
  predicate PassedWait(outcome: FrameOutcome) {
    outcome == NoCommandBuffer || outcome == NoEncoder || outcome == Committed
  }

  /** The mesh uniforms of the opaque and shaded instances, in list order. */
  function MeshUniforms(instances: seq<LMMeshInstance>): (r: seq<MeshUniform>)
    reads instances
    ensures |r| == |instances|
    ensures forall i :: 0 <= i < |instances| ==> r[i] == MeshUniform(instances[i].transform)
  {
    if instances == [] then [] else [MeshUniform(instances[0].transform)] + MeshUniforms(instances[1..])
  }

  /** The uniforms of the weighted instances, in list order. */
  function WeightedMeshUniforms(instances: seq<LMMeshInstance>): (r: seq<WeightedMeshUniform>)
    reads instances
    ensures |r| == |instances|
    ensures forall i :: 0 <= i < |instances| ==>
              r[i] == WeightedMeshUniform(instances[i].transform, instances[i].transform1)
  {
    if instances == [] then []
    else [WeightedMeshUniform(instances[0].transform, instances[0].transform1)] + WeightedMeshUniforms(instances[1..])
  }

  /**
   * What a frame reads of the canvas, once, at its start: the uniforms and
   * the meshes of the three instance lists.
   */
  datatype CanvasContent = CanvasContent(
    opaqueUniforms: seq<MeshUniform>, shadedUniforms: seq<MeshUniform>,
    weightedUniforms: seq<WeightedMeshUniform>,
    opaqueMeshes: seq<LMMesh>, shadedMeshes: seq<LMMesh>, weightedMeshes: seq<LMMesh>)

  function ContentOf(c: Canvas): (r: CanvasContent)
    reads c, c.opaqueMeshes, c.shadedMeshes, c.weightedMeshes
    ensures |r.opaqueUniforms| == |r.opaqueMeshes| == |c.opaqueMeshes|
    ensures |r.shadedUniforms| == |r.shadedMeshes| == |c.shadedMeshes|
    ensures |r.weightedUniforms| == |r.weightedMeshes| == |c.weightedMeshes|
  {
    CanvasContent(MeshUniforms(c.opaqueMeshes), MeshUniforms(c.shadedMeshes), WeightedMeshUniforms(c.weightedMeshes),
                  MeshesOf(c.opaqueMeshes), MeshesOf(c.shadedMeshes), MeshesOf(c.weightedMeshes))
  }

  /**
   * One of the upload loops of `render`: `setValue(values[i], at: i)` for each
   * `i` in order. The current slot's buffer ends up holding every value at
   * its index; the slot's buffer from before the loop received the values
   * that fit in it and kept its records past them; it is still the current
   * buffer exactly when no value fell outside it.
   */
  method UploadUniforms<T(0)>(chain: UniformBufferChain<T>, values: seq<T>)
    requires chain.Valid() && chain.counter.Valid() && chain.capacity > 0
    modifies chain, chain.SlotBuffer()
    ensures chain.Valid()
    ensures old(chain.Allocated) <= chain.Allocated && fresh(chain.Allocated - old(chain.Allocated))
    ensures chain.capacity == if |values| == 0 then old(chain.capacity)
                              else GrownCapacity(old(chain.capacity), |values| - 1, chain.capacityStep)
    ensures chain.capacity >= old(chain.capacity) && chain.capacity >= |values|
    ensures var slot := chain.counter.currentValue;
      && (forall i :: 0 <= i < |values| ==> chain.buffers[slot][i] == values[i])
      && (forall i :: 0 <= i < |values| && i < old(chain.capacity) ==> old(chain.buffers[slot])[i] == values[i])
      && (chain.buffers[slot] == old(chain.buffers[slot]) <==> |values| <= old(chain.capacity))
      && (forall j :: |values| <= j < old(chain.capacity) ==> old(chain.buffers[slot])[j] == old(chain.buffers[slot][j]))
      && (forall k :: 0 <= k < |old(chain.buffers)| && k != slot
            ==> chain.buffers[k][..old(chain.capacity)] == old(chain.buffers[k][..]))
  {
    ghost var slot := chain.counter.currentValue;
    ghost var first := chain.buffers[slot];
    ghost var others := chain.buffers;
    var i := 0;
    while i < |values|
      invariant 0 <= i <= |values|
      invariant chain.Valid() && chain.counter.Valid() && chain.counter.currentValue == slot
      invariant others == old(chain.buffers) && 0 <= slot < |others|
      invariant old(chain.Allocated) <= chain.Allocated && fresh(chain.Allocated - old(chain.Allocated))
      invariant chain.capacity == if i == 0 then old(chain.capacity)
                                  else GrownCapacity(old(chain.capacity), i - 1, chain.capacityStep)
      invariant chain.capacity >= i && |chain.buffers| == |others|
      invariant forall j :: 0 <= j < i ==> chain.buffers[slot][j] == values[j]
      invariant forall j :: 0 <= j < i && j < old(chain.capacity) ==> first[j] == values[j]
      invariant forall j :: i <= j < old(chain.capacity) ==> first[j] == old(first[j])
      invariant i <= old(chain.capacity) ==> chain.buffers == others
      invariant i > old(chain.capacity) ==> forall k :: 0 <= k < |chain.buffers| ==> fresh(chain.buffers[k])
      invariant forall k :: 0 <= k < |others| && k != slot
                  ==> chain.buffers[k][..old(chain.capacity)] == old(chain.buffers[k][..])
    {
      if i > 0 {
        GrowOneAtATime(old(chain.capacity), i - 1, chain.capacityStep);
      }
      chain.SetValue(values[i], i);
      i := i + 1;
    }
  }

  /**
   * The current buffer of a mesh chain is taken (`currentBuffer`) before the
   * upload loop that may replace it. The handle keeps the slot's buffer as
   * it was after making room for record 0: it holds the values that fit in
   * it, and it is still the slot's buffer exactly when all of them fit.
   */
  method BindThenUpload<T(0)>(chain: UniformBufferChain<T>, values: seq<T>) returns (bound: array<T>)
    requires chain.Valid() && chain.counter.Valid()
    modifies chain, chain.SlotBuffer()
    ensures chain.Valid() && chain.counter.Valid()
    ensures old(chain.Allocated) <= chain.Allocated && fresh(chain.Allocated - old(chain.Allocated))
    ensures bound in chain.Allocated
    ensures Uploaded(chain, bound, values, old(chain.capacity))
    ensures old(chain.capacity) > 0 ==> bound == old(chain.buffers[chain.counter.currentValue])
  {
    bound := chain.CurrentBuffer();
    UploadUniforms(chain, values);
  }

  /**
   * The scene uniform is written at record 0 of the current slot
   * (`setValue(_:at: 0)`), and then the slot's buffer is taken
   * (`currentBuffer`); record 0 already fits, so the handle holds the value.
   */
  method WriteThenBind<T(0)>(chain: UniformBufferChain<T>, value: T) returns (bound: array<T>)
    requires chain.Valid() && chain.counter.Valid()
    modifies chain, chain.SlotBuffer()
    ensures chain.Valid() && chain.counter.Valid()
    ensures old(chain.Allocated) <= chain.Allocated && fresh(chain.Allocated - old(chain.Allocated))
    ensures bound in chain.Allocated
    ensures 0 <= chain.counter.currentValue < |chain.buffers| && bound == chain.buffers[chain.counter.currentValue]
    ensures bound.Length > 0 && bound[0] == value
  {
    chain.SetValue(value, 0);
    bound := chain.CurrentBuffer();
  }

  /**
   * What a frame's upload leaves in a chain: `bound` is the handle `render`
   * took before uploading; the current slot's buffer holds `values`; the
   * handle holds the values that fit in it and is the slot's buffer exactly
   * when all of them fit.
   */
  ghost predicate Uploaded<T(0)>(chain: UniformBufferChain<T>, bound: array<T>, values: seq<T>, oldCapacity: nat)
    reads chain, chain.counter, chain.buffers, bound
  {
    var slot := chain.counter.currentValue;
    && chain.capacityStep > 0
    && 0 <= slot < |chain.buffers|
    && |values| <= chain.buffers[slot].Length
    && bound.Length == GrownCapacity(oldCapacity, 0, chain.capacityStep)
    && (forall i :: 0 <= i < |values| ==> chain.buffers[slot][i] == values[i])
    && (forall i :: 0 <= i < |values| && i < bound.Length ==> bound[i] == values[i])
    && (bound == chain.buffers[slot] <==> |values| <= bound.Length)
  }

  /** How many completed frames the semaphore wait lets release their permit first: one when none is available. */
  function WaitReleases(permits: int): (r: int)
    ensures r == 0 || r == 1
    ensures r == 1 <==> permits == 0
  {
    if permits == 0 then 1 else 0
  }

  /** The uniform buffers `render` binds in one frame. */
  datatype FrameBindings = FrameBindings(
    opaqueUniforms: array<MeshUniform>,
    shadedUniforms: array<MeshUniform>,
    weightedUniforms: array<WeightedMeshUniform>,
    sceneUniforms: array<SceneUniform>)

  /** The depth/stencil target a pass is begun with. */
  function TargetOf(target: Texture?): Option<Texture> {
    if target == null then None else Some(target)
  }

  class CanvasRenderer {
    const depthStencilPixelFormat: PixelFormat
    var canvas: Canvas?

    /** `frameSemaphore`: permits available, and releases deferred to completed handlers. */
    var permits: int
    var inFlight: int

    const sharedCounter: SharedCounter
    const standardMeshUniforms: UniformBufferChain<MeshUniform>
    const shadedMeshUniforms: UniformBufferChain<MeshUniform>
    const weightedMeshUniforms: UniformBufferChain<WeightedMeshUniform>
    const sceneUniformChain: UniformBufferChain<SceneUniform>

    var depthStencilTarget: Texture?

    /** Everything committed to the render queue so far. */
    var trace: seq<Command>

    /**
     * The four chains count on the shared counter, have the steps `init`
     * gives them and own disjoint buffers; the two standard-uniform chains
     * share one record stride.
     */
    ghost predicate ChainsValid()
      reads sharedCounter, standardMeshUniforms, shadedMeshUniforms, weightedMeshUniforms, sceneUniformChain
    {
      && depthStencilPixelFormat == Depth32FloatStencil8
      && sharedCounter.Valid() && sharedCounter.maxValue == NumSemaphores
      && standardMeshUniforms.Valid() && standardMeshUniforms.counter == sharedCounter
      && shadedMeshUniforms.Valid() && shadedMeshUniforms.counter == sharedCounter
      && weightedMeshUniforms.Valid() && weightedMeshUniforms.counter == sharedCounter
      && sceneUniformChain.Valid() && sceneUniformChain.counter == sharedCounter
      && standardMeshUniforms.capacityStep == MeshCapacityStep
      && shadedMeshUniforms.capacityStep == MeshCapacityStep
      && weightedMeshUniforms.capacityStep == MeshCapacityStep
      && sceneUniformChain.capacityStep == SceneCapacityStep
      && shadedMeshUniforms.itemStride == standardMeshUniforms.itemStride
      && standardMeshUniforms != shadedMeshUniforms && standardMeshUniforms.Allocated !! shadedMeshUniforms.Allocated
    }

    /** Between frames, every one of the `NumSemaphores` permits is either available or held by a frame in flight. */
    ghost predicate Valid()
      reads this, sharedCounter, standardMeshUniforms, shadedMeshUniforms, weightedMeshUniforms, sceneUniformChain
    {
      && ChainsValid()
      && 0 <= permits && 0 <= inFlight && permits + inFlight == NumSemaphores
    }

    /**
     * `init()` once the render engine exists; the record strides of the
     * three uniform types are abstract positive constants.
     */
    constructor (meshUniformStride: nat, weightedMeshUniformStride: nat, sceneUniformStride: nat)
      requires meshUniformStride > 0 && weightedMeshUniformStride > 0 && sceneUniformStride > 0
      ensures Valid()
      ensures canvas == null && depthStencilTarget == null && trace == []
      ensures permits == NumSemaphores && inFlight == 0
      ensures fresh(sharedCounter) && sharedCounter.currentValue == 0
      ensures fresh(standardMeshUniforms) && standardMeshUniforms.capacity == 0
      ensures fresh(shadedMeshUniforms) && shadedMeshUniforms.capacity == 0
      ensures fresh(weightedMeshUniforms) && weightedMeshUniforms.capacity == 0
      ensures fresh(sceneUniformChain) && sceneUniformChain.capacity == 0
      ensures standardMeshUniforms.itemStride == meshUniformStride
      ensures weightedMeshUniforms.itemStride == weightedMeshUniformStride
      ensures sceneUniformChain.itemStride == sceneUniformStride
    {
      depthStencilPixelFormat := Depth32FloatStencil8;
      canvas := null;
      permits, inFlight := NumSemaphores, 0;
      var counter := new SharedCounter(NumSemaphores);
      sharedCounter := counter;
      standardMeshUniforms := new UniformBufferChain(counter, meshUniformStride, MeshCapacityStep);
      shadedMeshUniforms := new UniformBufferChain(counter, meshUniformStride, MeshCapacityStep);
      weightedMeshUniforms := new UniformBufferChain(counter, weightedMeshUniformStride, MeshCapacityStep);
      sceneUniformChain := new UniformBufferChain(counter, sceneUniformStride, SceneCapacityStep);
      depthStencilTarget := null;
      trace := [];
    }

    /** A committed frame's completed handler runs: it signals the semaphore. */
    method FrameCompleted()
      requires Valid() && inFlight > 0
      modifies this`permits, this`inFlight
      ensures Valid()
      ensures permits == old(permits) + 1 && inFlight == old(inFlight) - 1
    {
      permits, inFlight := permits + 1, inFlight - 1;
    }

    /**
     * What `updateRenderTargets` leaves as the depth/stencil target, from the
     * target `before` and a drawable of the given size: the same target when
     * it has that size, otherwise a new one of that size (nil when the
     * texture cannot be made).
     */
    predicate TargetFor(before: Texture?, after: Texture?, width: int, height: int, textureMade: bool) {
      if before != null && before.width == width && before.height == height then after == before
      else if textureMade then
        && after != null && after != before
        && after.pixelFormat == depthStencilPixelFormat && after.width == width && after.height == height
      else after == null
    }

    /**
     * `updateRenderTargets`: keeps a target of the drawable's size, and
     * otherwise replaces it by a new one (nil when the texture cannot be made).
     */
    method UpdateRenderTargets(width: int, height: int, textureMade: bool)
      modifies this`depthStencilTarget
      ensures TargetFor(old(depthStencilTarget), depthStencilTarget, width, height, textureMade)
      ensures depthStencilTarget != old(depthStencilTarget) && depthStencilTarget != null ==> fresh(depthStencilTarget)
    {
      if depthStencilTarget != null && depthStencilTarget.width == width && depthStencilTarget.height == height {
        return;
      }
      if textureMade {
        depthStencilTarget := new Texture(depthStencilPixelFormat, width, height);
      } else {
        depthStencilTarget := null;
      }
    }

    /**
     * The opaque and the shaded upload loops of a frame: each chain's current
     * buffer is taken, then every instance's uniforms are written at its list
     * index. The two chains hold one record type in disjoint buffers, so the
     * second upload leaves what the first one wrote.
     *
     * `render` takes the three mesh handles first and uploads afterwards;
     * here each handle is taken just before its own chain's upload. The two
     * orders give the same handles and records: an upload changes only its
     * own chain and the slot's buffer of that chain, and taking a handle
     * changes nothing but that chain's buffers.
     */
    method UploadStandardMeshUniforms(opaqueValues: seq<MeshUniform>, shadedValues: seq<MeshUniform>)
      returns (opaqueBuffer: array<MeshUniform>, shadedBuffer: array<MeshUniform>)
      requires ChainsValid()
      modifies standardMeshUniforms, standardMeshUniforms.SlotBuffer(), shadedMeshUniforms, shadedMeshUniforms.SlotBuffer()
      ensures ChainsValid()
      ensures Uploaded(standardMeshUniforms, opaqueBuffer, opaqueValues, old(standardMeshUniforms.capacity))
      ensures Uploaded(shadedMeshUniforms, shadedBuffer, shadedValues, old(shadedMeshUniforms.capacity))
    {
      opaqueBuffer := BindThenUpload(standardMeshUniforms, opaqueValues);
      shadedBuffer := BindThenUpload(shadedMeshUniforms, shadedValues);
    }

    /**
     * The weighted upload loop, then the scene uniform: written at record 0
     * of the scene chain's current buffer, which is taken afterwards.
     */
    method UploadWeightedAndScene(weightedValues: seq<WeightedMeshUniform>, scene: SceneUniform)
      returns (weightedBuffer: array<WeightedMeshUniform>, sceneBuffer: array<SceneUniform>)
      requires ChainsValid()
      modifies weightedMeshUniforms, weightedMeshUniforms.SlotBuffer(), sceneUniformChain, sceneUniformChain.SlotBuffer()
      ensures ChainsValid()
      ensures Uploaded(weightedMeshUniforms, weightedBuffer, weightedValues, old(weightedMeshUniforms.capacity))
      ensures 0 <= sharedCounter.currentValue < |sceneUniformChain.buffers|
      ensures sceneBuffer == sceneUniformChain.buffers[sharedCounter.currentValue]
      ensures sceneBuffer.Length > 0 && sceneBuffer[0] == scene
    {
      weightedBuffer := BindThenUpload(weightedMeshUniforms, weightedValues);
      sceneBuffer := WriteThenBind(sceneUniformChain, scene);
    }

    /**
     * The uploads of a frame once its slot is chosen: the three mesh chains'
     * current buffers are taken and every instance's uniforms are uploaded,
     * then the scene uniform is written and its buffer taken. Of the buffers
     * that exist before, only the current slot's buffer of each chain is
     * written.
     */
    method UploadFrameUniforms(opaqueValues: seq<MeshUniform>, shadedValues: seq<MeshUniform>, weightedValues: seq<WeightedMeshUniform>,
                               viewProjection: Matrix4) returns (b: FrameBindings)
      requires ChainsValid()
      modifies standardMeshUniforms, shadedMeshUniforms, weightedMeshUniforms, sceneUniformChain,
               standardMeshUniforms.SlotBuffer(), shadedMeshUniforms.SlotBuffer(),
               weightedMeshUniforms.SlotBuffer(), sceneUniformChain.SlotBuffer()
      ensures ChainsValid()
      ensures Uploaded(standardMeshUniforms, b.opaqueUniforms, opaqueValues, old(standardMeshUniforms.capacity))
      ensures Uploaded(shadedMeshUniforms, b.shadedUniforms, shadedValues, old(shadedMeshUniforms.capacity))
      ensures Uploaded(weightedMeshUniforms, b.weightedUniforms, weightedValues, old(weightedMeshUniforms.capacity))
      ensures 0 <= sharedCounter.currentValue < |sceneUniformChain.buffers|
      ensures b.sceneUniforms == sceneUniformChain.buffers[sharedCounter.currentValue]
      ensures b.sceneUniforms.Length > 0 && b.sceneUniforms[0] == SceneUniform(viewProjection, NoAmbient)
    {
      var opaqueBuffer, shadedBuffer := UploadStandardMeshUniforms(opaqueValues, shadedValues);
      var weightedBuffer, sceneBuffer := UploadWeightedAndScene(weightedValues, SceneUniform(viewProjection, NoAmbient));
      b := FrameBindings(opaqueBuffer, shadedBuffer, weightedBuffer, sceneBuffer);
    }

    /**
     * The uniform half of a frame: the shared counter advances to the next
     * slot, the three mesh chains' current buffers are taken and every
     * instance's uniforms are uploaded, then the scene uniform is written and
     * its buffer taken. Of the buffers that exist before the frame, only the
     * next slot's buffer of each chain is written; the buffers of the other
     * slots keep their records.
     */
    method PrepareUniforms(opaqueValues: seq<MeshUniform>, shadedValues: seq<MeshUniform>, weightedValues: seq<WeightedMeshUniform>,
                           viewProjection: Matrix4) returns (b: FrameBindings)
      requires ChainsValid()
      modifies sharedCounter, standardMeshUniforms, shadedMeshUniforms, weightedMeshUniforms, sceneUniformChain,
               standardMeshUniforms.NextSlotBuffer(), shadedMeshUniforms.NextSlotBuffer(),
               weightedMeshUniforms.NextSlotBuffer(), sceneUniformChain.NextSlotBuffer()
      ensures ChainsValid()
      ensures sharedCounter.currentValue == NextSlot(old(sharedCounter.currentValue), NumSemaphores)
      ensures Uploaded(standardMeshUniforms, b.opaqueUniforms, opaqueValues, old(standardMeshUniforms.capacity))
      ensures Uploaded(shadedMeshUniforms, b.shadedUniforms, shadedValues, old(shadedMeshUniforms.capacity))
      ensures Uploaded(weightedMeshUniforms, b.weightedUniforms, weightedValues, old(weightedMeshUniforms.capacity))
      ensures 0 <= sharedCounter.currentValue < |sceneUniformChain.buffers|
      ensures b.sceneUniforms == sceneUniformChain.buffers[sharedCounter.currentValue]
      ensures b.sceneUniforms.Length > 0 && b.sceneUniforms[0] == SceneUniform(viewProjection, NoAmbient)
    {
      ghost var next := NextSlot(sharedCounter.currentValue, NumSemaphores);
      sharedCounter.Tick();
      assert sharedCounter.currentValue == next;
      b := UploadFrameUniforms(opaqueValues, shadedValues, weightedValues, viewProjection);
    }

    /**
     * One category's block of the pass: when it has instances, its pipeline
     * is set and then, for each instance in order, its uniform record at
     * `stride * index`, its mesh and a draw of the mesh's vertex count.
     * `meshes` are the instances' meshes, which nothing changes while a
     * frame is encoded.
     */
    method EncodeCategory(category: MeshCategory, buffer: object, stride: nat, meshes: seq<LMMesh>)
      modifies this`trace
      ensures trace == old(trace) + CategoryCommands(category, buffer, stride, meshes)
    {
      if |meshes| == 0 {
        return;
      }
      ghost var before := trace;
      trace := trace + [SetPipeline(category)];
      ghost var head := trace;
      var i := 0;
      while i < |meshes|
        invariant 0 <= i <= |meshes|
        invariant trace == head + DrawCommands(buffer, stride, meshes, i)
      {
        AppendAssoc(head, DrawCommands(buffer, stride, meshes, i), InstanceCommands(buffer, stride * i, meshes[i]));
        trace := trace + InstanceCommands(buffer, stride * i, meshes[i]);
        i := i + 1;
      }
      AppendAssoc(before, [SetPipeline(category)], DrawCommands(buffer, stride, meshes, |meshes|));
    }

    /** The commands of a frame whose render data is built: raster state, scene uniforms, then the three categories. */
    method EncodeMeshPass(p: MeshPass)
      modifies this`trace
      ensures trace == old(trace) + MeshPassCommands(p)
    {
      ghost var before := trace;
      var head := [ConfigureRasterState, BindSceneUniforms(p.sceneBuffer)];
      trace := trace + head;
      EncodeCategory(Opaque, p.opaqueBuffer, p.meshStride, p.opaqueMeshes);
      AppendAssoc(before, head, OpaquePart(p));
      EncodeCategory(Shaded, p.shadedBuffer, p.meshStride, p.shadedMeshes);
      AppendAssoc(before, head + OpaquePart(p), ShadedPart(p));
      EncodeCategory(Weighted, p.weightedBuffer, p.weightedStride, p.weightedMeshes);
      AppendAssoc(before, head + OpaquePart(p) + ShadedPart(p), WeightedPart(p));
    }

    /**
     * The commands of a committed frame, in order: the pass is begun; when
     * the render data is built, the raster state and scene uniforms are set
     * and the three categories are drawn; then the encoding is ended and the
     * drawable presented, the buffer committed and, for a paced frame,
     * waited on until scheduled.
     */
    method EncodeFrame(begin: Command, pass: Option<MeshPass>, drawable: nat, targetTimestamp: Option<real>, forceWait: bool)
      modifies this`trace
      ensures trace == old(trace) + FrameCommands(begin, pass, drawable, targetTimestamp, forceWait)
    {
      ghost var before := trace;
      trace := trace + [begin];
      ghost var body: seq<Command> := [];
      if pass.Some? {
        EncodeMeshPass(pass.value);
        body := MeshPassCommands(pass.value);
      }
      AppendAssoc(before, [begin], body);
      var finish := FinishCommands(drawable, targetTimestamp, forceWait);
      trace := trace + finish;
      AppendAssoc(before, [begin] + body, finish);
    }

    /**
     * `frameSemaphore.wait()`: takes a permit. When none is available the
     * wait blocks until a committed frame completes, so one completed
     * handler runs first.
     */
    method AcquireFrameSlot()
      requires Valid()
      modifies this`permits, this`inFlight
      ensures 0 <= permits && 0 <= inFlight && permits + inFlight == NumSemaphores - 1
      ensures permits == old(permits) + WaitReleases(old(permits)) - 1
      ensures inFlight == old(inFlight) - WaitReleases(old(permits))
    {
      if permits == 0 {
        FrameCompleted();
      }
      permits := permits - 1;
    }

    /**
     * The part of a frame after the uploads: with a command buffer and an
     * encoder it records the frame and arranges for the permit to come back
     * when the GPU completes it; without either the permit is given back at
     * once. `pass` is what the frame draws when the render data is built.
     */
    method SubmitFrame(pass: Option<MeshPass>, drawable: Drawable, targetTimestamp: Option<real>, forceWait: bool,
                       commandBufferMade: bool, encoderMade: bool, depthTextureMade: bool)
      returns (outcome: FrameOutcome)
      requires 0 <= permits && 0 <= inFlight && permits + inFlight == NumSemaphores - 1
      modifies this`permits, this`inFlight, this`depthStencilTarget, this`trace
      ensures 0 <= permits && 0 <= inFlight && permits + inFlight == NumSemaphores
      ensures outcome == Outcome(true, true, commandBufferMade, encoderMade)
      ensures outcome != Committed ==>
                permits == old(permits) + 1 && inFlight == old(inFlight) && trace == old(trace)
      ensures outcome == Committed ==>
                && permits == old(permits) && inFlight == old(inFlight) + 1
                && trace == old(trace) + FrameCommands(BeginPass(drawable.id, TargetOf(depthStencilTarget)), pass,
                                                       drawable.id, targetTimestamp, forceWait)
      ensures outcome == NoCommandBuffer ==> depthStencilTarget == old(depthStencilTarget)
      ensures outcome != NoCommandBuffer ==>
                TargetFor(old(depthStencilTarget), depthStencilTarget, drawable.width, drawable.height, depthTextureMade)
      ensures depthStencilTarget != old(depthStencilTarget) && depthStencilTarget != null ==> fresh(depthStencilTarget)
    {
      if !commandBufferMade {
        permits := permits + 1;
        return NoCommandBuffer;
      }
      UpdateRenderTargets(drawable.width, drawable.height, depthTextureMade);
      if !encoderMade {
        permits := permits + 1;
        return NoEncoder;
      }
      // the completed handler will signal the semaphore
      inFlight := inFlight + 1;
      EncodeFrame(BeginPass(drawable.id, TargetOf(depthStencilTarget)), pass, drawable.id, targetTimestamp, forceWait);
      return Committed;
    }

    /**
     * The first half of a frame: the semaphore wait takes a permit (after
     * one completed frame has released its own when none was left), then
     * the slot advances and every uniform is uploaded to the slot's buffers.
     */
    method PrepareFrame(content: CanvasContent, viewProjection: Matrix4) returns (b: FrameBindings)
      requires Valid()
      modifies this`permits, this`inFlight, sharedCounter, standardMeshUniforms, shadedMeshUniforms,
               weightedMeshUniforms, sceneUniformChain,
               standardMeshUniforms.NextSlotBuffer(), shadedMeshUniforms.NextSlotBuffer(),
               weightedMeshUniforms.NextSlotBuffer(), sceneUniformChain.NextSlotBuffer()
      ensures ChainsValid()
      ensures canvas == old(canvas) && trace == old(trace) && depthStencilTarget == old(depthStencilTarget)
      ensures 0 <= permits && 0 <= inFlight && permits + inFlight == NumSemaphores - 1
      ensures permits == old(permits) + WaitReleases(old(permits)) - 1
      ensures inFlight == old(inFlight) - WaitReleases(old(permits))
      ensures sharedCounter.currentValue == NextSlot(old(sharedCounter.currentValue), NumSemaphores)
      ensures Uploaded(standardMeshUniforms, b.opaqueUniforms, content.opaqueUniforms, old(standardMeshUniforms.capacity))
      ensures Uploaded(shadedMeshUniforms, b.shadedUniforms, content.shadedUniforms, old(shadedMeshUniforms.capacity))
      ensures Uploaded(weightedMeshUniforms, b.weightedUniforms, content.weightedUniforms,
                       old(weightedMeshUniforms.capacity))
      ensures 0 <= sharedCounter.currentValue < |sceneUniformChain.buffers|
      ensures b.sceneUniforms == sceneUniformChain.buffers[sharedCounter.currentValue]
      ensures b.sceneUniforms.Length > 0 && b.sceneUniforms[0] == SceneUniform(viewProjection, NoAmbient)
    {
      AcquireFrameSlot();
      b := PrepareUniforms(content.opaqueUniforms, content.shadedUniforms, content.weightedUniforms, viewProjection);
    }

    /**
     * A frame from `frameSemaphore.wait()` on, for what it read of the canvas
     * and whether the render data for the drawable is built: it takes a
     * frame slot, uploads every instance's uniforms and the scene uniform to
     * the slot's buffers and submits the frame.
     */
    method DrawCanvas(content: CanvasContent, renderDataBuilt: bool, drawable: Drawable, targetTimestamp: Option<real>,
                      forceWait: bool, viewProjection: Matrix4,
                      commandBufferMade: bool, encoderMade: bool, depthTextureMade: bool)
      returns (outcome: FrameOutcome, b: FrameBindings)
      requires Valid()
      modifies this, sharedCounter, standardMeshUniforms, shadedMeshUniforms, weightedMeshUniforms,
               sceneUniformChain,
               standardMeshUniforms.NextSlotBuffer(), shadedMeshUniforms.NextSlotBuffer(),
               weightedMeshUniforms.NextSlotBuffer(), sceneUniformChain.NextSlotBuffer()
      ensures Valid() && canvas == old(canvas)
      ensures outcome == Outcome(true, true, commandBufferMade, encoderMade)
      // a slot is taken, a new one every frame, and every uniform is uploaded to it
      ensures sharedCounter.currentValue == NextSlot(old(sharedCounter.currentValue), NumSemaphores)
      ensures Uploaded(standardMeshUniforms, b.opaqueUniforms, content.opaqueUniforms,
                       old(standardMeshUniforms.capacity))
      ensures Uploaded(shadedMeshUniforms, b.shadedUniforms, content.shadedUniforms,
                       old(shadedMeshUniforms.capacity))
      ensures Uploaded(weightedMeshUniforms, b.weightedUniforms, content.weightedUniforms,
                       old(weightedMeshUniforms.capacity))
      ensures 0 <= sharedCounter.currentValue < |sceneUniformChain.buffers|
      ensures b.sceneUniforms == sceneUniformChain.buffers[sharedCounter.currentValue]
      ensures b.sceneUniforms.Length > 0 && b.sceneUniforms[0] == SceneUniform(viewProjection, NoAmbient)
      // the wait takes a permit, after one completed frame has released its own when none was left;
      // a frame that is not committed gives its permit back at once
      ensures outcome != Committed ==>
                && permits == old(permits) + WaitReleases(old(permits))
                && inFlight == old(inFlight) - WaitReleases(old(permits))
                && trace == old(trace)
      ensures outcome == Committed ==>
                && permits == old(permits) + WaitReleases(old(permits)) - 1
                && inFlight == old(inFlight) - WaitReleases(old(permits)) + 1
      ensures outcome == NoCommandBuffer ==> depthStencilTarget == old(depthStencilTarget)
      ensures outcome != NoCommandBuffer ==>
                TargetFor(old(depthStencilTarget), depthStencilTarget, drawable.width, drawable.height, depthTextureMade)
      ensures depthStencilTarget != old(depthStencilTarget) && depthStencilTarget != null ==> fresh(depthStencilTarget)
      // a committed frame records exactly the commands of its pass
      ensures outcome == Committed ==>
                trace == old(trace) + FrameCommands(
                  BeginPass(drawable.id, TargetOf(depthStencilTarget)),
                  if renderDataBuilt then
                    Some(MeshPass(b.sceneUniforms, standardMeshUniforms.itemStride, weightedMeshUniforms.itemStride,
                                  b.opaqueUniforms, content.opaqueMeshes,
                                  b.shadedUniforms, content.shadedMeshes,
                                  b.weightedUniforms, content.weightedMeshes))
                  else None,
                  drawable.id, targetTimestamp, forceWait)
    {
      b := PrepareFrame(content, viewProjection);
      var pass := if renderDataBuilt then
                    Some(MeshPass(b.sceneUniforms, standardMeshUniforms.itemStride, weightedMeshUniforms.itemStride,
                                  b.opaqueUniforms, content.opaqueMeshes, b.shadedUniforms, content.shadedMeshes,
                                  b.weightedUniforms, content.weightedMeshes))
                  else None;
      outcome := SubmitFrame(pass, drawable, targetTimestamp, forceWait, commandBufferMade, encoderMade, depthTextureMade);
    }

    /**
     * `render(to:...)`: one frame. The render data for the drawable's format
     * is looked up (and its build started) before the canvas is checked;
     * without an engine or a canvas nothing else happens, and otherwise the
     * frame is drawn as `DrawCanvas` states.
     */
    method Render(engine: RenderEngine?, drawable: Drawable, targetTimestamp: Option<real>, forceWait: bool,
                  viewProjection: Matrix4, commandBufferMade: bool, encoderMade: bool, depthTextureMade: bool)
      returns (outcome: FrameOutcome)
      requires Valid()
      requires engine != null ==> engine.Valid()
      modifies this, sharedCounter, standardMeshUniforms, shadedMeshUniforms, weightedMeshUniforms,
               sceneUniformChain,
               standardMeshUniforms.NextSlotBuffer(), shadedMeshUniforms.NextSlotBuffer(),
               weightedMeshUniforms.NextSlotBuffer(), sceneUniformChain.NextSlotBuffer(), engine
      ensures Valid() && canvas == old(canvas)
      ensures outcome == Outcome(engine != null, canvas != null, commandBufferMade, encoderMade)
      ensures engine != null ==>
                && engine.Valid()
                && engine.builds == StartBuildIfNew(old(engine.builds),
                                                    RenderDataSettings(drawable.pixelFormat, depthStencilPixelFormat))
      ensures !PassedWait(outcome) ==>
                && permits == old(permits) && inFlight == old(inFlight)
                && trace == old(trace) && depthStencilTarget == old(depthStencilTarget)
                && sharedCounter.currentValue == old(sharedCounter.currentValue)
                && unchanged(standardMeshUniforms, shadedMeshUniforms, weightedMeshUniforms, sceneUniformChain)
      ensures PassedWait(outcome) ==>
                sharedCounter.currentValue == NextSlot(old(sharedCounter.currentValue), NumSemaphores)
    {
      if engine == null {
        return NoRenderEngine;
      }
      var holder := engine.GetRenderDataHolder(drawable.pixelFormat, depthStencilPixelFormat);
      if canvas == null {
        return NoCanvas;
      }
      var b;
      outcome, b := DrawCanvas(ContentOf(canvas), holder.data.Some?, drawable, targetTimestamp, forceWait, viewProjection,
                               commandBufferMade, encoderMade, depthTextureMade);
    }
  }
}
