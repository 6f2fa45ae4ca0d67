/** The scene's plain records: camera block, object transform, material. */
module SceneData {
  import opened Basics

  /**
    The camera block of the scene file. The camera's matrices are not
    modelled; uniforms carry the camera itself as their source.
  */
  datatype Camera = Camera(
    eye: Vec3<real>, at: Vec3<real>, up: Vec3<real>,
    fovy: real, focalLength: real, near: real, far: real,
    viewport: seq<real>)

  /** A 4×4 matrix, row by row. */
  type Mat4 = seq<seq<real>>

  /** glm::mat4(1.0). */
  function Identity4(): (m: Mat4)
    ensures |m| == 4
    ensures forall i :: 0 <= i < 4 ==> |m[i]| == 4
  {
    seq(4, i => seq(4, j => if i == j then 1.0 else 0.0))
  }

  /** An object's placement: a translation and a rotation matrix. */
  datatype Transform = Transform(translate: Vec3<real>, rotate: Mat4)

  /** Shading coefficients: albedo and (kd, ks, theta). */
  datatype Material = Material(albedo: Vec3<real>, coeffs: Vec3<real>)
}
