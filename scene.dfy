/**
 * The scene Lemur draws: a `Canvas` with three ordered lists of mesh
 * instances and one camera. Matrices and vectors are opaque values here;
 * the camera's matrix and quaternion math is not part of this model.
 */
module Scene {

  /** A 4x4 float matrix, as its sixteen entries in column-major order. */
  datatype Matrix4 = Matrix4(entries: seq<real>)

  /** `matrix_identity_float4x4`. */
  const Identity: Matrix4 := Matrix4([1.0, 0.0, 0.0, 0.0,
                                      0.0, 1.0, 0.0, 0.0,
                                      0.0, 0.0, 1.0, 0.0,
                                      0.0, 0.0, 0.0, 1.0])

  datatype Vector3 = Vector3(x: real, y: real, z: real)

  datatype Quaternion = Quaternion(ix: real, iy: real, iz: real, r: real)

  /**
   * Shared, immutable GPU geometry. The vertex buffer and the texture are
   * GPU objects, represented by opaque handles.
   */
  class LMMesh {
    const vertexBuffer: nat
    const numVertices: int
    const texture: nat

    constructor (vertexBuffer: nat, numVertices: int, texture: nat)
      ensures this.vertexBuffer == vertexBuffer
      ensures this.numVertices == numVertices
      ensures this.texture == texture
    {
      this.vertexBuffer := vertexBuffer;
      this.numVertices := numVertices;
      this.texture := texture;
    }
  }

  /** The camera's state; the view and projection it derives are not modelled. */
  class Camera {
    var location: Vector3
    var rotation: Vector3
    var qRotation: Quaternion
    var viewportWidth: real
    var viewportHeight: real
    var fovy: real

    constructor ()
      ensures location == Vector3(0.0, 0.5, 1.5)
      ensures rotation == Vector3(0.0, 0.0, 0.0)
      ensures qRotation == Quaternion(0.0, 0.0, 0.0, 0.0)
      ensures viewportWidth == 1.0 && viewportHeight == 1.0
      ensures fovy == 45.0
    {
      location := Vector3(0.0, 0.5, 1.5);
      rotation := Vector3(0.0, 0.0, 0.0);
      qRotation := Quaternion(0.0, 0.0, 0.0, 0.0);
      viewportWidth, viewportHeight := 1.0, 1.0;
      fovy := 45.0;
    }
  }

  /** One placement of a mesh; `transform1` is the blend target of a weighted mesh. */
  class LMMeshInstance {
    var mesh: LMMesh
    var transform: Matrix4
    var transform1: Matrix4

    constructor (mesh: LMMesh)
      ensures this.mesh == mesh
      ensures transform == Identity && transform1 == Identity
    {
      this.mesh := mesh;
      transform := Identity;
      transform1 := Identity;
    }

    /** The setter of `transform`: no other instance and no mesh changes. */
    method SetTransform(t: Matrix4)
      modifies this`transform
      ensures transform == t
      ensures mesh == old(mesh) && transform1 == old(transform1)
    {
      transform := t;
    }

    /** The setter of `mesh`: the meshes themselves are immutable, so none of them changes. */
    method SetMesh(m: LMMesh)
      modifies this`mesh
      ensures mesh == m
      ensures transform == old(transform) && transform1 == old(transform1)
    {
      mesh := m;
    }
  }

  class Canvas {
    var opaqueMeshes: seq<LMMeshInstance>
    var shadedMeshes: seq<LMMeshInstance>
    var weightedMeshes: seq<LMMeshInstance>
    const camera: Camera
    var rotation: real

    constructor ()
      ensures opaqueMeshes == [] && shadedMeshes == [] && weightedMeshes == []
      ensures fresh(camera)
      ensures rotation == 0.0
    {
      opaqueMeshes, shadedMeshes, weightedMeshes := [], [], [];
      camera := new Camera();
      rotation := 0.0;
    }
  }

  /** The meshes an instance list refers to, in list order. */
  function MeshesOf(instances: seq<LMMeshInstance>): (r: seq<LMMesh>)
    reads instances
    ensures |r| == |instances|
    ensures forall i :: 0 <= i < |instances| ==> r[i] == instances[i].mesh
  {
    if instances == [] then [] else [instances[0].mesh] + MeshesOf(instances[1..])
  }
}
