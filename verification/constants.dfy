/**
 * The engine's constant tables: the preview resolution and the colour ramp
 * that colorisation interpolates over. Entry 0 of the ramp is the water
 * colour that river carving paints.
 */
module Constants {
  import opened Image

  /** Side length of the square preview buffers. */
  const IMAGE_SIZE: nat := 256

  /** The colour ramp, from deep water (index 0) to mountain tips (index 9). */
  const COLORS: seq<Pixel> := [
    Rgba(0, 0, 200, 255),      // water
    Rgba(0, 200, 255, 255),    // water
    Rgba(0, 128, 0, 255),      // grassland
    Rgba(60, 160, 0, 255),     // grassland
    Rgba(100, 140, 0, 255),    // grassland
    Rgba(139, 69, 19, 255),    // hills
    Rgba(139, 100, 60, 255),   // hills
    Rgba(105, 105, 105, 255),  // lower mountains
    Rgba(192, 192, 192, 255),  // higher mountains
    Rgba(255, 255, 255, 255)   // mountain tips
  ]

  /** The water anchor painted onto carved river cells. */
  const WATER: Pixel := COLORS[0]

  /** Shape of the ramp: ten opaque anchors, blue water first, white last. */
  lemma ColorRamp()
    ensures |COLORS| == 10
    ensures forall i :: 0 <= i < |COLORS| ==> COLORS[i].a == 255
    ensures WATER == Rgba(0, 0, 200, 255)
    ensures COLORS[|COLORS| - 1] == Rgba(255, 255, 255, 255)
    ensures IMAGE_SIZE == 256
  {
  }
}
