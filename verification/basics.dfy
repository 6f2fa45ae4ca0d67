/** Small value types shared by the renderer model. */
module Basics {

  /** A value that may be absent, as a JSON key that may be missing. */
  datatype Option<T> = None | Some(value: T)

  /** An error-or-value result, for the renderer's fatal checks. */
  datatype Result<T, E> = Success(value: T) | Failure(error: E)

  /** Three components, as a glm::vec3 (or glm::ivec3) holds them. */
  datatype Vec3<T> = Vec3(x: T, y: T, z: T)
  {
    /** Component j, as `v[j]` reads it. */
    function Coord(j: int): T
      requires 0 <= j < 3
    {
      if j == 0 then x else if j == 1 then y else z
    }

    /** The components in memory order. */
    function Coords(): (cs: seq<T>)
      ensures |cs| == 3
      ensures forall j :: 0 <= j < 3 ==> cs[j] == Coord(j)
    {
      [x, y, z]
    }
  }
}
