/** Value types shared by the models: an Option, `u32`, 2D and 3D vectors over
    the reals (standing for Bevy's f32 vectors), transforms, rectangles and
    the three-valued Bevy visibility. */
module Common {

  datatype Option<+T> = None | Some(value: T)

  /** Rust's `u32`. */
  newtype u32 = x: int | 0 <= x < 0x1_0000_0000

  datatype Vec2 = Vec2(x: real, y: real)

  datatype Vec3 = Vec3(x: real, y: real, z: real)

  /** A rotation quaternion; the systems modelled here only copy it. */
  datatype Quat = Quat(x: real, y: real, z: real, w: real)

  datatype Transform = Transform(translation: Vec3, rotation: Quat, scale: Vec3)

  /** An axis-aligned rectangle given by its two corners (Bevy's `Rect`). */
  datatype Rect = Rect(min: Vec2, max: Vec2) {
    function Width(): real { max.x - min.x }
    function Height(): real { max.y - min.y }
  }

  /** Bevy's `Visibility`: a node is shown, hidden, or follows its parent. */
  datatype Visibility = Inherited | Hidden | Visible

  /** The square of the Euclidean distance between two points. */
  function DistanceSquared(a: Vec3, b: Vec3): (d: real)
    ensures d >= 0.0
  {
    (a.x - b.x) * (a.x - b.x) + (a.y - b.y) * (a.y - b.y) + (a.z - b.z) * (a.z - b.z)
  }
}
