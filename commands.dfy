/**
 * The commands one frame records into a Metal command buffer, as an
 * abstract trace, and the functions that say which trace a frame produces.
 * Buffers are identified by the objects that model them, so a command that
 * binds a uniform buffer names exactly which buffer it binds.
 */
module Commands {
  import opened Wrappers
  import opened Scene

  /** A render target texture, with the size it was made for. */
  class Texture {
    const pixelFormat: nat
    const width: int
    const height: int

    constructor (pixelFormat: nat, width: int, height: int)
      ensures this.pixelFormat == pixelFormat && this.width == width && this.height == height
    {
      this.pixelFormat := pixelFormat;
      this.width := width;
      this.height := height;
    }
  }

  datatype MeshCategory = Opaque | Shaded | Weighted

  datatype Command =
      /** `makeRenderCommandEncoder`: the drawable's texture, cleared, and the depth/stencil target (or none). */
    | BeginPass(colorTarget: nat, depthStencilTarget: Option<Texture>)
      /** Counter-clockwise front faces, the write-if-less depth state, back-face culling, nearest-neighbour sampling. */
    | ConfigureRasterState
      /** The scene uniform buffer at offset 0, for the vertex stage (index 2) and the fragment stage (index 0). */
    | BindSceneUniforms(buffer: object)
    | SetPipeline(category: MeshCategory)
      /** A mesh uniform buffer at `offset`, vertex buffer index 1. */
    | BindUniform(buffer: object, offset: int)
      /** The mesh's vertex buffer (index 0, offset 0) and its texture (fragment index 0). */
    | BindMesh(vertexBuffer: nat, texture: nat)
    | Draw(vertexCount: int)
    | EndEncoding
    | Present(drawable: nat)
    | PresentAt(drawable: nat, time: real)
    | Commit
    | WaitUntilScheduled

  /** The three commands that draw one instance whose uniform record is at `offset`. */
  function InstanceCommands(buffer: object, offset: int, mesh: LMMesh): seq<Command> {
    [BindUniform(buffer, offset), BindMesh(mesh.vertexBuffer, mesh.texture), Draw(mesh.numVertices)]
  }

  /** Drawing the first `n` meshes, the `i`-th with its uniform record at `stride * i`. */
  function DrawCommands(buffer: object, stride: nat, meshes: seq<LMMesh>, n: nat): (r: seq<Command>)
    requires n <= |meshes|
    ensures |r| == 3 * n
  {
    if n == 0 then []
    else DrawCommands(buffer, stride, meshes, n - 1) + InstanceCommands(buffer, stride * (n - 1), meshes[n - 1])
  }

  /**
   * Instance `i` occupies commands `3 i` to `3 i + 2`: its uniform record at
   * offset `stride * i`, then its mesh, then a draw of the mesh's vertex count.
   */
  lemma {:induction false} DrawCommandsShape(buffer: object, stride: nat, meshes: seq<LMMesh>, n: nat)
    requires n <= |meshes|
    ensures var r := DrawCommands(buffer, stride, meshes, n);
      forall i :: 0 <= i < n ==>
        && r[3 * i] == BindUniform(buffer, stride * i)
        && r[3 * i + 1] == BindMesh(meshes[i].vertexBuffer, meshes[i].texture)
        && r[3 * i + 2] == Draw(meshes[i].numVertices)
  {
    if n > 0 {
      DrawCommandsShape(buffer, stride, meshes, n - 1);
    }
  }

  /** One category: nothing when it has no instances, otherwise its pipeline and then every instance in order. */
  function CategoryCommands(category: MeshCategory, buffer: object, stride: nat, meshes: seq<LMMesh>): seq<Command> {
    if |meshes| == 0 then [] else [SetPipeline(category)] + DrawCommands(buffer, stride, meshes, |meshes|)
  }

  /** The uniform buffer each category draws from, and the meshes of its instances in list order. */
  datatype MeshPass = MeshPass(
    sceneBuffer: object,
    meshStride: nat,
    weightedStride: nat,
    opaqueBuffer: object, opaqueMeshes: seq<LMMesh>,
    shadedBuffer: object, shadedMeshes: seq<LMMesh>,
    weightedBuffer: object, weightedMeshes: seq<LMMesh>)

  function OpaquePart(p: MeshPass): seq<Command> {
    CategoryCommands(Opaque, p.opaqueBuffer, p.meshStride, p.opaqueMeshes)
  }

  /** Shaded meshes use records of the standard mesh uniform's stride. */
  function ShadedPart(p: MeshPass): seq<Command> {
    CategoryCommands(Shaded, p.shadedBuffer, p.meshStride, p.shadedMeshes)
  }

  function WeightedPart(p: MeshPass): seq<Command> {
    CategoryCommands(Weighted, p.weightedBuffer, p.weightedStride, p.weightedMeshes)
  }

  /** What a frame records when render data is available. */
  function MeshPassCommands(p: MeshPass): seq<Command> {
    [ConfigureRasterState, BindSceneUniforms(p.sceneBuffer)] + OpaquePart(p) + ShadedPart(p) + WeightedPart(p)
  }

  /** How the frame is handed over: presented at a target time, or as soon as possible. */
  function PresentCommand(drawable: nat, targetTimestamp: Option<real>, forceWait: bool): Command {
    if targetTimestamp.Some? && !forceWait then PresentAt(drawable, targetTimestamp.value) else Present(drawable)
  }

  /** Ending the pass, presenting, committing, and waiting until scheduled when the frame is paced. */
  function FinishCommands(drawable: nat, targetTimestamp: Option<real>, forceWait: bool): seq<Command> {
    [EndEncoding, PresentCommand(drawable, targetTimestamp, forceWait), Commit]
    + (if targetTimestamp.Some? || forceWait then [WaitUntilScheduled] else [])
  }

  /** The whole trace of a committed frame; `pass` is `None` when the render data is not built yet. */
  function FrameCommands(begin: Command, pass: Option<MeshPass>, drawable: nat,
                         targetTimestamp: Option<real>, forceWait: bool): seq<Command> {
    [begin]
    + (if pass.Some? then MeshPassCommands(pass.value) else [])
    + FinishCommands(drawable, targetTimestamp, forceWait)
  }

  // ---------------------------------------------------------------------------
  // What a trace contains

  datatype CommandKind = DrawKind | PipelineKind | PresentKind | WaitKind

  predicate IsKind(c: Command, kind: CommandKind) {
    match kind
    case DrawKind => c.Draw?
    case PipelineKind => c.SetPipeline?
    case PresentKind => c.Present? || c.PresentAt?
    case WaitKind => c.WaitUntilScheduled?
  }

  /** The commands of one kind in a trace, in trace order. */
  function Only(cmds: seq<Command>, kind: CommandKind): (r: seq<Command>)
    ensures |r| <= |cmds|
  {
    if cmds == [] then []
    else (if IsKind(cmds[0], kind) then [cmds[0]] else []) + Only(cmds[1..], kind)
  }

  /** Appending to a trace in steps appends the concatenation of the steps. */
  lemma AppendAssoc<T>(a: seq<T>, b: seq<T>, c: seq<T>)
    ensures a + b + c == a + (b + c)
  {
  }

  lemma {:induction false} OnlyAppend(a: seq<Command>, b: seq<Command>, kind: CommandKind)
    ensures Only(a + b, kind) == Only(a, kind) + Only(b, kind)
  {
    if a == [] {
      assert a + b == b;
    } else {
      var head := if IsKind(a[0], kind) then [a[0]] else [];
      assert (a + b)[0] == a[0];
      assert (a + b)[1..] == a[1..] + b;
      OnlyAppend(a[1..], b, kind);
      assert Only(a + b, kind) == head + Only(a[1..] + b, kind);
      assert Only(a, kind) == head + Only(a[1..], kind);
      AppendAssoc(head, Only(a[1..], kind), Only(b, kind));
    }
  }

  /** A command of the kind occurs in a trace iff it occurs among the trace's commands of that kind. */
  lemma {:induction false} OnlyContains(cmds: seq<Command>, kind: CommandKind, c: Command)
    requires IsKind(c, kind)
    ensures c in cmds <==> c in Only(cmds, kind)
  {
    if cmds != [] {
      OnlyContains(cmds[1..], kind, c);
      assert cmds == [cmds[0]] + cmds[1..];
    }
  }

  lemma OneOnly(c: Command, kind: CommandKind)
    ensures Only([c], kind) == if IsKind(c, kind) then [c] else []
  {
    assert [c][1..] == [];
  }

  lemma ThreeOnly(a: Command, b: Command, c: Command, kind: CommandKind)
    ensures Only([a, b, c], kind) == Only([a], kind) + Only([b], kind) + Only([c], kind)
  {
    assert [a, b, c] == [a] + [b] + [c];
    OnlyAppend([a], [b], kind);
    OnlyAppend([a] + [b], [c], kind);
  }

  /** The draws issued for the first `n` meshes of a list: one per mesh, of its vertex count, in list order. */
  function DrawsOf(meshes: seq<LMMesh>, n: nat): (r: seq<Command>)
    requires n <= |meshes|
    ensures |r| == n
    ensures forall i :: 0 <= i < n ==> r[i] == Draw(meshes[i].numVertices)
  {
    if n == 0 then [] else DrawsOf(meshes, n - 1) + [Draw(meshes[n - 1].numVertices)]
  }

  /** The draws issued for a list of meshes: one per mesh, of its vertex count, in list order. */
  function MeshDraws(meshes: seq<LMMesh>): (r: seq<Command>)
    ensures |r| == |meshes|
    ensures forall i :: 0 <= i < |meshes| ==> r[i] == Draw(meshes[i].numVertices)
  {
    DrawsOf(meshes, |meshes|)
  }

  /** One instance issues one draw, of its mesh's vertex count, and nothing else of interest. */
  lemma InstanceOnly(buffer: object, offset: int, mesh: LMMesh, kind: CommandKind)
    ensures Only(InstanceCommands(buffer, offset, mesh), kind) == if kind == DrawKind then [Draw(mesh.numVertices)] else []
  {
    var a, b, c := BindUniform(buffer, offset), BindMesh(mesh.vertexBuffer, mesh.texture), Draw(mesh.numVertices);
    ThreeOnly(a, b, c, kind);
    OneOnly(a, kind);
    OneOnly(b, kind);
    OneOnly(c, kind);
  }

  /** Drawing one more instance adds exactly that instance's draw to the commands of interest. */
  lemma DrawCommandsStep(buffer: object, stride: nat, meshes: seq<LMMesh>, n: nat, kind: CommandKind)
    requires 0 < n <= |meshes|
    ensures Only(DrawCommands(buffer, stride, meshes, n), kind)
         == Only(DrawCommands(buffer, stride, meshes, n - 1), kind)
            + (if kind == DrawKind then [Draw(meshes[n - 1].numVertices)] else [])
  {
    OnlyAppend(DrawCommands(buffer, stride, meshes, n - 1), InstanceCommands(buffer, stride * (n - 1), meshes[n - 1]), kind);
    InstanceOnly(buffer, stride * (n - 1), meshes[n - 1], kind);
  }

  lemma {:induction false} DrawCommandsDraws(buffer: object, stride: nat, meshes: seq<LMMesh>, n: nat)
    requires n <= |meshes|
    ensures Only(DrawCommands(buffer, stride, meshes, n), DrawKind) == DrawsOf(meshes, n)
  {
    if n > 0 {
      DrawCommandsDraws(buffer, stride, meshes, n - 1);
      DrawCommandsStep(buffer, stride, meshes, n, DrawKind);
    }
  }

  lemma {:induction false} DrawCommandsOthers(buffer: object, stride: nat, meshes: seq<LMMesh>, n: nat, kind: CommandKind)
    requires n <= |meshes| && kind != DrawKind
    ensures Only(DrawCommands(buffer, stride, meshes, n), kind) == []
  {
    if n > 0 {
      DrawCommandsOthers(buffer, stride, meshes, n - 1, kind);
      DrawCommandsStep(buffer, stride, meshes, n, kind);
      assert Only(DrawCommands(buffer, stride, meshes, n), kind) == [] + [];
    }
  }

  /** The first `n` instances issue exactly the draws of their meshes, and no command of any other kind of interest. */
  lemma DrawCommandsOnly(buffer: object, stride: nat, meshes: seq<LMMesh>, n: nat, kind: CommandKind)
    requires n <= |meshes|
    ensures Only(DrawCommands(buffer, stride, meshes, n), kind) == if kind == DrawKind then DrawsOf(meshes, n) else []
  {
    if kind == DrawKind {
      DrawCommandsDraws(buffer, stride, meshes, n);
    } else {
      DrawCommandsOthers(buffer, stride, meshes, n, kind);
    }
  }

  /**
   * A category issues its pipeline once, before its draws, only when it has
   * instances, and its draws are exactly those of its meshes.
   */
  lemma CategoryOnly(category: MeshCategory, buffer: object, stride: nat, meshes: seq<LMMesh>, kind: CommandKind)
    ensures Only(CategoryCommands(category, buffer, stride, meshes), kind)
         == match kind
            case DrawKind => MeshDraws(meshes)
            case PipelineKind => if |meshes| == 0 then [] else [SetPipeline(category)]
            case _ => []
  {
    if |meshes| > 0 {
      DrawCommandsOnly(buffer, stride, meshes, |meshes|, kind);
      OnlyAppend([SetPipeline(category)], DrawCommands(buffer, stride, meshes, |meshes|), kind);
      OneOnly(SetPipeline(category), kind);
    }
  }

  /** The pass's fixed state and scene bindings contribute nothing of interest. */
  lemma PassHeadOnly(sceneBuffer: object, kind: CommandKind)
    ensures Only([ConfigureRasterState, BindSceneUniforms(sceneBuffer)], kind) == []
  {
    assert [ConfigureRasterState, BindSceneUniforms(sceneBuffer)]
        == [ConfigureRasterState] + [BindSceneUniforms(sceneBuffer)];
    OnlyAppend([ConfigureRasterState], [BindSceneUniforms(sceneBuffer)], kind);
    OneOnly(ConfigureRasterState, kind);
    OneOnly(BindSceneUniforms(sceneBuffer), kind);
  }

  /** A prefix with nothing of interest contributes nothing to a three-part trace. */
  lemma OnlyThree(a: seq<Command>, b: seq<Command>, c: seq<Command>, kind: CommandKind)
    requires Only(a, kind) == []
    ensures Only(a + b + c, kind) == Only(b, kind) + Only(c, kind)
  {
    OnlyAppend(a, b, kind);
    OnlyAppend(a + b, c, kind);
  }

  lemma FourOnly(a: seq<Command>, b: seq<Command>, c: seq<Command>, d: seq<Command>, kind: CommandKind)
    requires Only(a, kind) == []
    ensures Only(a + b + c + d, kind) == Only(b, kind) + Only(c, kind) + Only(d, kind)
  {
    OnlyAppend(a, b, kind);
    OnlyAppend(a + b, c, kind);
    OnlyAppend(a + b + c, d, kind);
  }

  /** A mesh pass contains what its three categories contain, in the order opaque, shaded, weighted. */
  lemma MeshPassOnly(p: MeshPass, kind: CommandKind)
    ensures Only(MeshPassCommands(p), kind)
         == Only(OpaquePart(p), kind) + Only(ShadedPart(p), kind) + Only(WeightedPart(p), kind)
  {
    PassHeadOnly(p.sceneBuffer, kind);
    FourOnly([ConfigureRasterState, BindSceneUniforms(p.sceneBuffer)], OpaquePart(p), ShadedPart(p), WeightedPart(p), kind);
  }

  /** The three fixed commands that end a frame contain only its present. */
  lemma FinishHeadOnly(present: Command, kind: CommandKind)
    requires present.Present? || present.PresentAt?
    ensures Only([EndEncoding, present, Commit], kind) == if kind == PresentKind then [present] else []
  {
    ThreeOnly(EndEncoding, present, Commit, kind);
    OneOnly(EndEncoding, kind);
    OneOnly(present, kind);
    OneOnly(Commit, kind);
  }

  lemma FinishOnly(drawable: nat, targetTimestamp: Option<real>, forceWait: bool, kind: CommandKind)
    ensures Only(FinishCommands(drawable, targetTimestamp, forceWait), kind)
         == match kind
            case PresentKind => [PresentCommand(drawable, targetTimestamp, forceWait)]
            case WaitKind => if targetTimestamp.Some? || forceWait then [WaitUntilScheduled] else []
            case _ => []
  {
    var present := PresentCommand(drawable, targetTimestamp, forceWait);
    var wait: seq<Command> := if targetTimestamp.Some? || forceWait then [WaitUntilScheduled] else [];
    FinishHeadOnly(present, kind);
    if wait != [] {
      OneOnly(WaitUntilScheduled, kind);
    } else {
      assert Only(wait, kind) == [];
    }
    OnlyAppend([EndEncoding, present, Commit], wait, kind);
  }

  lemma FrameOnly(begin: Command, pass: Option<MeshPass>, drawable: nat,
                  targetTimestamp: Option<real>, forceWait: bool, kind: CommandKind)
    requires begin.BeginPass?
    ensures Only(FrameCommands(begin, pass, drawable, targetTimestamp, forceWait), kind)
         == (if pass.Some? then Only(MeshPassCommands(pass.value), kind) else [])
            + Only(FinishCommands(drawable, targetTimestamp, forceWait), kind)
  {
    var finish := FinishCommands(drawable, targetTimestamp, forceWait);
    OneOnly(begin, kind);
    if pass.Some? {
      OnlyThree([begin], MeshPassCommands(pass.value), finish, kind);
    } else {
      OnlyThree([begin], [], finish, kind);
      assert Only([], kind) == [];
    }
  }

  /** The pipelines of the categories with at least one instance, in the order opaque, shaded, weighted. */
  function PipelineOrder(p: MeshPass): (r: seq<Command>)
    ensures SetPipeline(Opaque) in r <==> |p.opaqueMeshes| > 0
    ensures SetPipeline(Shaded) in r <==> |p.shadedMeshes| > 0
    ensures SetPipeline(Weighted) in r <==> |p.weightedMeshes| > 0
    ensures |r| <= 3
  {
    (if |p.opaqueMeshes| > 0 then [SetPipeline(Opaque)] else [])
    + (if |p.shadedMeshes| > 0 then [SetPipeline(Shaded)] else [])
    + (if |p.weightedMeshes| > 0 then [SetPipeline(Weighted)] else [])
  }

  /**
   * With render data, a frame selects the pipelines of exactly the non-empty
   * categories, in the order opaque, shaded, weighted; without it, none.
   */
  lemma FramePipelines(begin: Command, pass: Option<MeshPass>, drawable: nat,
                       targetTimestamp: Option<real>, forceWait: bool)
    requires begin.BeginPass?
    ensures Only(FrameCommands(begin, pass, drawable, targetTimestamp, forceWait), PipelineKind)
         == if pass.Some? then PipelineOrder(pass.value) else []
  {
    FrameOnly(begin, pass, drawable, targetTimestamp, forceWait, PipelineKind);
    FinishOnly(drawable, targetTimestamp, forceWait, PipelineKind);
    if pass.Some? {
      var p := pass.value;
      MeshPassOnly(p, PipelineKind);
      CategoryOnly(Opaque, p.opaqueBuffer, p.meshStride, p.opaqueMeshes, PipelineKind);
      CategoryOnly(Shaded, p.shadedBuffer, p.meshStride, p.shadedMeshes, PipelineKind);
      CategoryOnly(Weighted, p.weightedBuffer, p.weightedStride, p.weightedMeshes, PipelineKind);
    }
  }

  /**
   * With render data, a frame draws every instance once, with its mesh's
   * vertex count, category by category in list order; without it, nothing.
   */
  lemma FrameDraws(begin: Command, pass: Option<MeshPass>, drawable: nat,
                   targetTimestamp: Option<real>, forceWait: bool)
    requires begin.BeginPass?
    ensures Only(FrameCommands(begin, pass, drawable, targetTimestamp, forceWait), DrawKind)
         == if pass.Some?
            then MeshDraws(pass.value.opaqueMeshes) + MeshDraws(pass.value.shadedMeshes)
                 + MeshDraws(pass.value.weightedMeshes)
            else []
  {
    FrameOnly(begin, pass, drawable, targetTimestamp, forceWait, DrawKind);
    FinishOnly(drawable, targetTimestamp, forceWait, DrawKind);
    if pass.Some? {
      var p := pass.value;
      MeshPassOnly(p, DrawKind);
      CategoryOnly(Opaque, p.opaqueBuffer, p.meshStride, p.opaqueMeshes, DrawKind);
      CategoryOnly(Shaded, p.shadedBuffer, p.meshStride, p.shadedMeshes, DrawKind);
      CategoryOnly(Weighted, p.weightedBuffer, p.weightedStride, p.weightedMeshes, DrawKind);
    }
  }

  /**
   * A frame presents exactly once, at the target time iff there is one and
   * waiting is not forced, and otherwise immediately.
   */
  lemma FramePresents(begin: Command, pass: Option<MeshPass>, drawable: nat,
                      targetTimestamp: Option<real>, forceWait: bool)
    requires begin.BeginPass?
    ensures Only(FrameCommands(begin, pass, drawable, targetTimestamp, forceWait), PresentKind)
         == if targetTimestamp.Some? && !forceWait then [PresentAt(drawable, targetTimestamp.value)]
            else [Present(drawable)]
  {
    FrameOnly(begin, pass, drawable, targetTimestamp, forceWait, PresentKind);
    FinishOnly(drawable, targetTimestamp, forceWait, PresentKind);
    if pass.Some? {
      var p := pass.value;
      MeshPassOnly(p, PresentKind);
      CategoryOnly(Opaque, p.opaqueBuffer, p.meshStride, p.opaqueMeshes, PresentKind);
      CategoryOnly(Shaded, p.shadedBuffer, p.meshStride, p.shadedMeshes, PresentKind);
      CategoryOnly(Weighted, p.weightedBuffer, p.weightedStride, p.weightedMeshes, PresentKind);
    }
  }

  /**
   * A frame waits until scheduled iff it has a target time or waiting is
   * forced; the wait is then the last command, right after the commit, and
   * otherwise the commit is the last command.
   */
  lemma FrameWaits(begin: Command, pass: Option<MeshPass>, drawable: nat,
                   targetTimestamp: Option<real>, forceWait: bool)
    requires begin.BeginPass?
    ensures WaitUntilScheduled in FrameCommands(begin, pass, drawable, targetTimestamp, forceWait)
        <==> targetTimestamp.Some? || forceWait
  {
    var frame := FrameCommands(begin, pass, drawable, targetTimestamp, forceWait);
    FrameOnly(begin, pass, drawable, targetTimestamp, forceWait, WaitKind);
    FinishOnly(drawable, targetTimestamp, forceWait, WaitKind);
    if pass.Some? {
      var p := pass.value;
      MeshPassOnly(p, WaitKind);
      CategoryOnly(Opaque, p.opaqueBuffer, p.meshStride, p.opaqueMeshes, WaitKind);
      CategoryOnly(Shaded, p.shadedBuffer, p.meshStride, p.shadedMeshes, WaitKind);
      CategoryOnly(Weighted, p.weightedBuffer, p.weightedStride, p.weightedMeshes, WaitKind);
    }
    OnlyContains(frame, WaitKind, WaitUntilScheduled);
  }

  /**
   * A frame ends with its commit, followed by the wait until scheduled when
   * it has a target time or waiting is forced.
   */
  lemma FrameEnds(begin: Command, pass: Option<MeshPass>, drawable: nat,
                  targetTimestamp: Option<real>, forceWait: bool)
    ensures var frame := FrameCommands(begin, pass, drawable, targetTimestamp, forceWait);
      && (targetTimestamp.Some? || forceWait ==>
            frame[|frame| - 1] == WaitUntilScheduled && frame[|frame| - 2] == Commit)
      && (targetTimestamp.None? && !forceWait ==> frame[|frame| - 1] == Commit)
  {
    var finish := FinishCommands(drawable, targetTimestamp, forceWait);
    var frame := FrameCommands(begin, pass, drawable, targetTimestamp, forceWait);
    var prefix := [begin] + (if pass.Some? then MeshPassCommands(pass.value) else []);
    assert frame == prefix + finish;
    assert frame[|frame| - 1] == finish[|finish| - 1];
    assert frame[|frame| - 2] == finish[|finish| - 2];
  }

  /** Without render data a frame draws nothing, yet still ends the pass, presents and commits. */
  lemma NoRenderDataStillPresents(begin: Command, drawable: nat, targetTimestamp: Option<real>, forceWait: bool)
    requires begin.BeginPass?
    ensures var frame := FrameCommands(begin, None, drawable, targetTimestamp, forceWait);
      && Only(frame, DrawKind) == [] && Only(frame, PipelineKind) == []
      && frame[1] == EndEncoding && frame[2] == PresentCommand(drawable, targetTimestamp, forceWait)
      && frame[3] == Commit
  {
    FrameDraws(begin, None, drawable, targetTimestamp, forceWait);
    FramePipelines(begin, None, drawable, targetTimestamp, forceWait);
  }

  /** A scene with no instances selects no pipeline and draws nothing, even with render data. */
  lemma EmptySceneDrawsNothing(p: MeshPass)
    requires p.opaqueMeshes == [] && p.shadedMeshes == [] && p.weightedMeshes == []
    ensures MeshPassCommands(p) == [ConfigureRasterState, BindSceneUniforms(p.sceneBuffer)]
  {
  }
}
