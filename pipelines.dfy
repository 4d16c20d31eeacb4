/**
 * Render data per output format: the three mesh pipelines of `RenderData`,
 * their vertex layouts, and the `RenderEngine` cache that builds render data
 * once per (pixel format, depth/stencil pixel format) pair.
 *
 * Pipeline compilation is a foreign call: a compiled pipeline is represented
 * by the descriptor it was compiled from, and a build either yields the
 * render data or fails with an opaque error.
 */
module Pipelines {
  import opened Wrappers

  /** `MTLPixelFormat`, by its raw value. */
  type PixelFormat = nat

  /** `MTLPixelFormat.depth32Float_stencil8`. */
  const Depth32FloatStencil8: PixelFormat := 260

  // ---------------------------------------------------------------------------
  // Vertex layouts

  datatype VertexFormat = Float | Float2 | Float3

  /** Size in bytes of one attribute of the format. */
  function FormatSize(f: VertexFormat): (r: nat)
    ensures 4 <= r <= 12 && r % 4 == 0
  {
    match f
    case Float => 4
    case Float2 => 8
    case Float3 => 12
  }

  datatype VertexAttribute = VertexAttribute(format: VertexFormat, bufferIndex: nat, offset: nat)

  /** The attributes of `vertexDescriptor` and the stride of its layout 0 (step function per vertex). */
  datatype VertexLayout = VertexLayout(attributes: seq<VertexAttribute>, stride: nat)

  function AttributeEnd(a: VertexAttribute): nat {
    a.offset + FormatSize(a.format)
  }

  /**
   * Every attribute is read from buffer 0, lies inside one vertex record of
   * `stride` bytes, and no two attributes share a byte.
   */
  ghost predicate WellFormed(layout: VertexLayout) {
    var attrs := layout.attributes;
    && (forall i :: 0 <= i < |attrs| ==> attrs[i].bufferIndex == 0)
    && (forall i :: 0 <= i < |attrs| ==> AttributeEnd(attrs[i]) <= layout.stride)
    && (forall i, j :: 0 <= i < j < |attrs| ==>
          AttributeEnd(attrs[i]) <= attrs[j].offset || AttributeEnd(attrs[j]) <= attrs[i].offset)
  }

  /**
   * The attributes are laid out back to back from offset 0 in declaration
   * order, all in buffer 0, and the stride is exactly their total size.
   */
  ghost predicate Packed(layout: VertexLayout) {
    var attrs := layout.attributes;
    && |attrs| > 0
    && attrs[0].offset == 0
    && (forall i :: 0 <= i < |attrs| ==> attrs[i].bufferIndex == 0)
    && (forall i :: 0 < i < |attrs| ==> attrs[i].offset == AttributeEnd(attrs[i - 1]))
    && layout.stride == AttributeEnd(attrs[|attrs| - 1])
  }

  /** In a packed layout an attribute ends no later than any later attribute starts. */
  lemma {:induction false} PackedOrdered(layout: VertexLayout, i: nat, j: nat)
    requires Packed(layout) && i < j < |layout.attributes|
    ensures AttributeEnd(layout.attributes[i]) <= layout.attributes[j].offset
    decreases j - i
  {
    var attrs := layout.attributes;
    if i + 1 < j {
      PackedOrdered(layout, i + 1, j);
      assert attrs[i + 1].offset == AttributeEnd(attrs[i]);
    } else {
      assert attrs[j].offset == AttributeEnd(attrs[j - 1]);
    }
  }

  lemma PackedIsWellFormed(layout: VertexLayout)
    requires Packed(layout)
    ensures WellFormed(layout)
  {
    var attrs := layout.attributes;
    var n := |attrs|;
    forall i | 0 <= i < n
      ensures AttributeEnd(attrs[i]) <= layout.stride
    {
      if i < n - 1 {
        PackedOrdered(layout, i, n - 1);
      }
    }
    forall i, j | 0 <= i < j < n
      ensures AttributeEnd(attrs[i]) <= attrs[j].offset
    {
      PackedOrdered(layout, i, j);
    }
  }

  /** Opaque meshes: position (float3 at 0), UV (float2 at 12), normal (float3 at 20), stride 32. */
  function OpaqueMeshLayout(): (layout: VertexLayout)
    ensures Packed(layout) && WellFormed(layout)
    ensures |layout.attributes| == 3 && layout.stride == 32
  {
    var layout := VertexLayout([VertexAttribute(Float3, 0, 0),
                                VertexAttribute(Float2, 0, 12),
                                VertexAttribute(Float3, 0, 20)], 32);
    PackedIsWellFormed(layout);
    layout
  }

  /** Shaded meshes: position (float3 at 0), UV (float2 at 12), shade (float at 20), stride 24. */
  function ShadedMeshLayout(): (layout: VertexLayout)
    ensures Packed(layout) && WellFormed(layout)
    ensures |layout.attributes| == 3 && layout.stride == 24
  {
    var layout := VertexLayout([VertexAttribute(Float3, 0, 0),
                                VertexAttribute(Float2, 0, 12),
                                VertexAttribute(Float, 0, 20)], 24);
    PackedIsWellFormed(layout);
    layout
  }

  /**
   * Weighted meshes: position (float3 at 0), UV (float2 at 12), normal
   * (float3 at 20), offset (float3 at 32), weight 0 (float at 44), weight 1
   * (float at 48), stride 52.
   */
  function WeightedMeshLayout(): (layout: VertexLayout)
    ensures Packed(layout) && WellFormed(layout)
    ensures |layout.attributes| == 6 && layout.stride == 52
  {
    var layout := VertexLayout([VertexAttribute(Float3, 0, 0),
                                VertexAttribute(Float2, 0, 12),
                                VertexAttribute(Float3, 0, 20),
                                VertexAttribute(Float3, 0, 32),
                                VertexAttribute(Float, 0, 44),
                                VertexAttribute(Float, 0, 48)], 52);
    PackedIsWellFormed(layout);
    layout
  }

  // ---------------------------------------------------------------------------
  // Render data

  datatype RenderDataSettings = RenderDataSettings(pixelFormat: PixelFormat, depthStencilPixelFormat: PixelFormat)

  /** What a render pipeline state is compiled from. */
  datatype PipelineDescriptor = PipelineDescriptor(
    vertexFunction: string,
    fragmentFunction: string,
    colorPixelFormat: PixelFormat,
    blendingEnabled: bool,
    depthPixelFormat: PixelFormat,
    stencilPixelFormat: PixelFormat,
    alphaToCoverageEnabled: bool,
    layout: VertexLayout)

  datatype RenderData = RenderData(
    pixelFormat: PixelFormat,
    depthStencilPixelFormat: PixelFormat,
    opaqueMeshRPS: PipelineDescriptor,
    shadedMeshRPS: PipelineDescriptor,
    weightedMeshRPS: PipelineDescriptor)

  /** A pipeline compiled for `settings`, with a well-formed vertex layout. */
  ghost predicate PipelineMatches(d: PipelineDescriptor, settings: RenderDataSettings) {
    && d.colorPixelFormat == settings.pixelFormat
    && d.depthPixelFormat == settings.depthStencilPixelFormat
    && d.stencilPixelFormat == settings.depthStencilPixelFormat
    && !d.blendingEnabled
    && d.alphaToCoverageEnabled
    && WellFormed(d.layout)
  }

  /**
   * The descriptor every mesh pipeline shares apart from its shader pair
   * and layout: one unblended colour attachment in the output format, and
   * the depth/stencil format on both the depth and the stencil attachment.
   */
  function MeshPipeline(settings: RenderDataSettings, vertexFunction: string, fragmentFunction: string,
                        layout: VertexLayout): (d: PipelineDescriptor)
    ensures PipelineMatches(d, settings) <==> WellFormed(layout)
    ensures d.vertexFunction == vertexFunction && d.fragmentFunction == fragmentFunction && d.layout == layout
  {
    PipelineDescriptor(vertexFunction, fragmentFunction, settings.pixelFormat, false,
                       settings.depthStencilPixelFormat, settings.depthStencilPixelFormat, true, layout)
  }

  /** The render data a successful build for `settings` produces. */
  function BuildRenderData(settings: RenderDataSettings): (d: RenderData)
    ensures d.pixelFormat == settings.pixelFormat
    ensures d.depthStencilPixelFormat == settings.depthStencilPixelFormat
    ensures PipelineMatches(d.opaqueMeshRPS, settings) && d.opaqueMeshRPS.layout.stride == 32
    ensures PipelineMatches(d.shadedMeshRPS, settings) && d.shadedMeshRPS.layout.stride == 24
    ensures PipelineMatches(d.weightedMeshRPS, settings) && d.weightedMeshRPS.layout.stride == 52
  {
    RenderData(settings.pixelFormat, settings.depthStencilPixelFormat,
               MeshPipeline(settings, "mesh_vertex", "mesh_fragment", OpaqueMeshLayout()),
               MeshPipeline(settings, "shadedMesh_vf", "shadedMesh_ff", ShadedMeshLayout()),
               MeshPipeline(settings, "weightedMesh_vf", "weightedMesh_ff", WeightedMeshLayout()))
  }

  /** The error a failed build stores: loading the shader library or compiling a pipeline failed. */
  datatype BuildError = LibraryLoadFailed | PipelineCompilationFailed(functionName: string)

  class RenderDataHolder {
    var data: Option<RenderData>
    var error: Option<BuildError>

    constructor ()
      ensures data == None && error == None
    {
      data := None;
      error := None;
    }
  }

  // ---------------------------------------------------------------------------
  // Starting builds

  predicate Distinct<T(==)>(s: seq<T>) {
    forall i, j :: 0 <= i < j < |s| ==> s[i] != s[j]
  }

  /** The number of times `x` occurs in `s`. */
  function Occurrences<T(==)>(s: seq<T>, x: T): (r: nat)
    ensures r <= |s|
    ensures r == 0 <==> x !in s
  {
    if s == [] then 0
    else (if s[0] == x then 1 else 0) + Occurrences(s[1..], x)
  }

  lemma {:induction false} DistinctOccurrences<T>(s: seq<T>, x: T)
    requires Distinct(s)
    ensures Occurrences(s, x) == if x in s then 1 else 0
  {
    if s != [] {
      assert Distinct(s[1..]) by {
        forall i, j | 0 <= i < j < |s[1..]|
          ensures s[1..][i] != s[1..][j]
        {
          assert s[1..][i] == s[i + 1] && s[1..][j] == s[j + 1];
        }
      }
      DistinctOccurrences(s[1..], x);
      if s[0] == x {
        assert x !in s[1..] by {
          forall k | 0 <= k < |s[1..]|
            ensures s[1..][k] != x
          {
            assert s[1..][k] == s[k + 1];
          }
        }
      } else {
        assert x in s <==> x in s[1..] by {
          assert s == [s[0]] + s[1..];
        }
      }
    }
  }

  /** The builds started after one more lookup of `key`: a build starts only for a key not yet seen. */
  function StartBuildIfNew(builds: seq<RenderDataSettings>, key: RenderDataSettings): (r: seq<RenderDataSettings>)
    ensures key in r
    ensures Distinct(builds) ==> Distinct(r)
    ensures forall k :: k in r <==> k in builds || k == key
  {
    if key in builds then builds else builds + [key]
  }

  /** The builds started by looking up `keys` one after another. */
  function StartBuildsFor(builds: seq<RenderDataSettings>, keys: seq<RenderDataSettings>): seq<RenderDataSettings>
    decreases |keys|
  {
    if keys == [] then builds else StartBuildsFor(StartBuildIfNew(builds, keys[0]), keys[1..])
  }

  lemma {:induction false} StartBuildsForKeepsDistinct(builds: seq<RenderDataSettings>, keys: seq<RenderDataSettings>)
    requires Distinct(builds)
    ensures Distinct(StartBuildsFor(builds, keys))
    ensures forall k :: k in StartBuildsFor(builds, keys) <==> k in builds || k in keys
    decreases |keys|
  {
    if keys != [] {
      StartBuildsForKeepsDistinct(StartBuildIfNew(builds, keys[0]), keys[1..]);
      assert keys == [keys[0]] + keys[1..];
    }
  }

  /**
   * However often and in whatever order formats are looked up, exactly one
   * build is ever started for each format pair that was looked up, and none
   * for any other.
   */
  lemma OneBuildPerKey(keys: seq<RenderDataSettings>, key: RenderDataSettings)
    ensures Occurrences(StartBuildsFor([], keys), key) == if key in keys then 1 else 0
  {
    StartBuildsForKeepsDistinct([], keys);
    DistinctOccurrences(StartBuildsFor([], keys), key);
  }

  /**
   * The render engine's cache of render data by output format. `builds`
   * records, in order, every background build the cache has started.
   */
  class RenderEngine {
    var renderData: map<RenderDataSettings, RenderDataHolder>
    var builds: seq<RenderDataSettings>

    /**
     * A build has been started exactly for the cached keys, once each, and
     * different keys hold different holders.
     */
    ghost predicate Valid()
      reads this
    {
      && Distinct(builds)
      && (forall k :: k in renderData <==> k in builds)
      && (forall k1, k2 :: k1 in renderData && k2 in renderData && k1 != k2 ==> renderData[k1] != renderData[k2])
    }

    constructor ()
      ensures Valid()
      ensures renderData == map[] && builds == []
    {
      renderData := map[];
      builds := [];
    }

    /**
     * `getRenderDataHolder(for:depthStencilPixelFormat:)`: the cached holder
     * of the format pair, or a new empty holder that is cached and whose
     * build is started.
     */
    method GetRenderDataHolder(pixelFormat: PixelFormat, depthStencilPixelFormat: PixelFormat)
      returns (holder: RenderDataHolder)
      requires Valid()
      modifies this
      ensures Valid()
      ensures var key := RenderDataSettings(pixelFormat, depthStencilPixelFormat);
        && builds == StartBuildIfNew(old(builds), key)
        && (key in old(renderData) ==> holder == old(renderData[key]) && renderData == old(renderData))
        && (key !in old(renderData) ==>
              && fresh(holder) && holder.data == None && holder.error == None
              && renderData == old(renderData)[key := holder])
    {
      var key := RenderDataSettings(pixelFormat, depthStencilPixelFormat);
      if key in renderData {
        holder := renderData[key];
        return;
      }
      holder := new RenderDataHolder();
      renderData := renderData[key := holder];
      builds := builds + [key];
    }

    /**
     * The body of the background task started for `key`: it stores the
     * render data built for the key, or the error the build threw.
     */
    method FinishBuild(key: RenderDataSettings, failure: Option<BuildError>)
      requires Valid() && key in renderData
      modifies renderData[key]
      ensures failure.None? ==> renderData[key].data == Some(BuildRenderData(key))
                                && renderData[key].error == old(renderData[key].error)
      ensures failure.Some? ==> renderData[key].error == failure
                                && renderData[key].data == old(renderData[key].data)
    {
      var holder := renderData[key];
      match failure
      case None => holder.data := Some(BuildRenderData(key));
      case Some(_) => holder.error := failure;
    }
  }
}
