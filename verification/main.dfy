/**
 * The older application revision in `main.rs`: the render pipeline run by
 * the `ui_changed` callback, which every slider, the erosion-mode combo box
 * and the water-level check box fire (the layers' blend-mode combo box does
 * not): colour the blended heights, optionally erode both maps, optionally
 * raise the water level on the height map. Also the layer list behind the
 * add/remove buttons. Its own copies of `should_erode`, `thermal_erosion` and
 * `clamp_image_buffer` behave identically to the engine's (they differ only in
 * `.clone()` versus `*` on `Copy` pixels), so the pipeline calls the Heightmap
 * members for them.
 */
module App {
  import opened Image
  import opened Constants
  import opened Heightmap

  // ---------------------------------------------------------------------------
  // Colouring
  // ---------------------------------------------------------------------------

  /**
   * The colour map of heights `g`: every pixel is recoloured on its own by
   * `ramp`, which stands for the luminance-and-interpolation rule.
   */
  function Colorize(g: Grid, ramp: Pixel -> Pixel, width: nat, height: nat): (c: Grid)
    requires IsGrid(g, width, height)
    ensures IsGrid(c, width, height)
    ensures forall x, y :: InGrid(x, y, width, height) ==> c[x][y] == ramp(g[x][y])
  {
    seq(width, x requires 0 <= x < width => seq(height, y requires 0 <= y < height => ramp(g[x][y])))
  }

  /** `colorize_buffer`: a fresh buffer, filled row by row with the colour of each height pixel. */
  method ColorizeBuffer(img: array2<Pixel>, ramp: Pixel -> Pixel) returns (colored: array2<Pixel>)
    ensures fresh(colored)
    ensures colored.Length0 == img.Length0 && colored.Length1 == img.Length1
    ensures Cells(colored) == Colorize(Cells(img), ramp, img.Length0, img.Length1)
  {
    var width, height := img.Length0, img.Length1;
    colored := new Pixel[width, height];
    var y := 0;
    while y < height
      invariant 0 <= y <= height
      invariant forall i, j :: InGrid(i, j, width, height) && j < y ==> colored[i, j] == ramp(img[i, j])
    {
      var x := 0;
      while x < width
        invariant 0 <= x <= width
        invariant forall i, j :: InGrid(i, j, width, height) && (j < y || (j == y && i < x)) ==>
          colored[i, j] == ramp(img[i, j])
      {
        colored[x, y] := ramp(img[x, y]);
        x := x + 1;
      }
      y := y + 1;
    }
    GridEq(Cells(colored), Colorize(Cells(img), ramp, width, height), width, height);
  }

  // ---------------------------------------------------------------------------
  // Render pipeline
  // ---------------------------------------------------------------------------

  /** The height map after the optional water clamp to [waterLevel, 255]. */
  function WaterClamp(hs: Grid, raiseWaterLevel: bool, waterLevel: Byte): (r: Grid)
    requires IsGrid(hs, IMAGE_SIZE, IMAGE_SIZE)
    ensures IsGrid(r, IMAGE_SIZE, IMAGE_SIZE)
  {
    if raiseWaterLevel then ClampGrid(hs, IMAGE_SIZE, IMAGE_SIZE, waterLevel, 255) else hs
  }

  /**
   * The (height, colour) maps the pipeline leaves from the blended heights
   * `hs`: the colour map is derived first; erosion runs on both maps only
   * for a non-zero mode; the water clamp touches the height map alone.
   * `None` where the render thread panics on an unknown erosion mode.
   */
  function Render(hs: Grid, ramp: Pixel -> Pixel, erosionMode: int, erosionIterations: nat, talusAngle: real,
                  raiseWaterLevel: bool, waterLevel: Byte): (r: Option<(Grid, Grid)>)
    requires IsGrid(hs, IMAGE_SIZE, IMAGE_SIZE)
    ensures r.None? <==> erosionIterations > 0 && !ValidMode(erosionMode)
    ensures r.Some? ==> IsGrid(r.value.0, IMAGE_SIZE, IMAGE_SIZE) && IsGrid(r.value.1, IMAGE_SIZE, IMAGE_SIZE)
  {
    var cs := Colorize(hs, ramp, IMAGE_SIZE, IMAGE_SIZE);
    if erosionMode == 0 || erosionIterations == 0 then
      Some((WaterClamp(hs, raiseWaterLevel, waterLevel), cs))
    else if !ValidMode(erosionMode) then
      None
    else
      var eroded := Erosion(hs, cs, IMAGE_SIZE, IMAGE_SIZE, erosionIterations, talusAngle, erosionMode);
      Some((WaterClamp(eroded.0, raiseWaterLevel, waterLevel), eroded.1))
  }

  /**
   * The `ui_changed` callback's pipeline on the blended height buffer: colour it
   * into a new buffer, erode both when the mode is non-zero, then clamp the
   * height buffer to the water level when asked. `ok` is false where the
   * source panics, which leaves the buffers as erosion found them.
   */
  method RenderPipeline(buffer: array2<Pixel>, ramp: Pixel -> Pixel, erosionMode: int, erosionIterations: nat,
                        talusAngle: real, raiseWaterLevel: bool, waterLevel: Byte)
    returns (coloredBuffer: array2<Pixel>, ok: bool)
    requires buffer.Length0 == IMAGE_SIZE && buffer.Length1 == IMAGE_SIZE
    modifies buffer
    ensures fresh(coloredBuffer)
    ensures coloredBuffer.Length0 == IMAGE_SIZE && coloredBuffer.Length1 == IMAGE_SIZE
    ensures var r := Render(old(Cells(buffer)), ramp, erosionMode, erosionIterations, talusAngle, raiseWaterLevel, waterLevel);
      (ok <==> r.Some?) && (ok ==> (Cells(buffer), Cells(coloredBuffer)) == r.value)
  {
    coloredBuffer := ColorizeBuffer(buffer, ramp);
    if erosionMode != 0 {
      assert HasInterior(IMAGE_SIZE, IMAGE_SIZE);
      ok := ThermalErosion(buffer, coloredBuffer, erosionIterations, talusAngle, erosionMode);
      if !ok {
        return;
      }
    }
    ok := true;
    if raiseWaterLevel {
      ClampImageBuffer(buffer, waterLevel, 255);
    }
  }

  /**
   * The `erosion_mode != 0` guard changes nothing: running mode-0 erosion
   * unguarded would leave the same maps.
   */
  lemma RenderGuardIsHarmless(hs: Grid, ramp: Pixel -> Pixel, erosionIterations: nat, talusAngle: real,
                              raiseWaterLevel: bool, waterLevel: Byte)
    requires IsGrid(hs, IMAGE_SIZE, IMAGE_SIZE)
    ensures var eroded := Erosion(hs, Colorize(hs, ramp, IMAGE_SIZE, IMAGE_SIZE), IMAGE_SIZE, IMAGE_SIZE,
                                  erosionIterations, talusAngle, 0);
      Render(hs, ramp, 0, erosionIterations, talusAngle, raiseWaterLevel, waterLevel) ==
      Some((WaterClamp(eroded.0, raiseWaterLevel, waterLevel), eroded.1))
  {
    ErosionModeNoneIsIdentity(hs, Colorize(hs, ramp, IMAGE_SIZE, IMAGE_SIZE), IMAGE_SIZE, IMAGE_SIZE,
                              erosionIterations, talusAngle);
  }

  /**
   * The water clamp acts on the height map alone: with it the colour map is
   * the one without it, and the height map is the unclamped one clamped to
   * [waterLevel, 255], so every colour channel is at least `waterLevel` and
   * alpha is kept.
   */
  lemma RenderWaterClamp(hs: Grid, ramp: Pixel -> Pixel, erosionMode: int, erosionIterations: nat, talusAngle: real,
                         waterLevel: Byte, x: int, y: int)
    requires IsGrid(hs, IMAGE_SIZE, IMAGE_SIZE) && InGrid(x, y, IMAGE_SIZE, IMAGE_SIZE)
    requires erosionIterations == 0 || ValidMode(erosionMode)
    ensures var raised := Render(hs, ramp, erosionMode, erosionIterations, talusAngle, true, waterLevel).value;
      var plain := Render(hs, ramp, erosionMode, erosionIterations, talusAngle, false, waterLevel).value;
      raised.1 == plain.1 &&
      raised.0 == ClampGrid(plain.0, IMAGE_SIZE, IMAGE_SIZE, waterLevel, 255) &&
      waterLevel <= raised.0[x][y].r && waterLevel <= raised.0[x][y].g && waterLevel <= raised.0[x][y].b &&
      raised.0[x][y].a == plain.0[x][y].a
  {
    var plain := Render(hs, ramp, erosionMode, erosionIterations, talusAngle, false, waterLevel).value;
    ClampGridBounds(plain.0, IMAGE_SIZE, IMAGE_SIZE, waterLevel, 255, x, y);
    var p := ClampGrid(plain.0, IMAGE_SIZE, IMAGE_SIZE, waterLevel, 255)[x][y];
    assert p.Channel(0) == p.r && p.Channel(1) == p.g && p.Channel(2) == p.b;
  }

  /**
   * Without the water clamp, every colour pixel is the colour of the height
   * pixel at the same place: erosion moves height and colour together.
   */
  lemma RenderColourFollowsHeight(hs: Grid, ramp: Pixel -> Pixel, erosionMode: int, erosionIterations: nat,
                                  talusAngle: real, waterLevel: Byte, x: int, y: int)
    requires IsGrid(hs, IMAGE_SIZE, IMAGE_SIZE) && InGrid(x, y, IMAGE_SIZE, IMAGE_SIZE)
    requires erosionIterations == 0 || ValidMode(erosionMode)
    ensures var r := Render(hs, ramp, erosionMode, erosionIterations, talusAngle, false, waterLevel).value;
      r.1[x][y] == ramp(r.0[x][y])
  {
    if erosionMode != 0 && erosionIterations != 0 {
      var cs := Colorize(hs, ramp, IMAGE_SIZE, IMAGE_SIZE);
      ErosionPairsFromInput(hs, cs, IMAGE_SIZE, IMAGE_SIZE, erosionIterations, talusAngle, erosionMode, x, y);
    }
  }

  /** The outermost ring of the colour map is always the colour of the blended heights there. */
  lemma RenderKeepsBorderColour(hs: Grid, ramp: Pixel -> Pixel, erosionMode: int, erosionIterations: nat,
                                talusAngle: real, raiseWaterLevel: bool, waterLevel: Byte, x: int, y: int)
    requires IsGrid(hs, IMAGE_SIZE, IMAGE_SIZE) && InGrid(x, y, IMAGE_SIZE, IMAGE_SIZE)
    requires !Interior(x, y, IMAGE_SIZE, IMAGE_SIZE)
    requires erosionIterations == 0 || ValidMode(erosionMode)
    ensures Render(hs, ramp, erosionMode, erosionIterations, talusAngle, raiseWaterLevel, waterLevel).value.1[x][y] ==
      ramp(hs[x][y])
  {
    if erosionMode != 0 && erosionIterations != 0 {
      var cs := Colorize(hs, ramp, IMAGE_SIZE, IMAGE_SIZE);
      ErosionKeepsBorder(hs, cs, IMAGE_SIZE, IMAGE_SIZE, erosionIterations, talusAngle, erosionMode, x, y);
    }
  }

  // ---------------------------------------------------------------------------
  // Layer list
  // ---------------------------------------------------------------------------

  /** One noise layer's settings, as the UI's `LayerParams` struct holds them. */
  datatype LayerParams = LayerParams(scale: real, offsetX: real, offsetY: real, seed: real, opacity: real, blendMode: int)

  /** The layer the add button appends. */
  const DEFAULT_LAYER: LayerParams := LayerParams(0.05, 0.0, 0.0, 1.0, 1.0, 0)

  /** The UI's list of extra noise layers, blended over the base noise in order. */
  class LayerList {
    var layers: seq<LayerParams>

    /** The list starts empty. */
    constructor ()
      ensures layers == []
    {
      layers := [];
    }

    /** The add-layer handler: appends one default layer and keeps the rest. */
    method AddLayer()
      modifies this
      ensures layers == old(layers) + [DEFAULT_LAYER]
    {
      layers := layers + [DEFAULT_LAYER];
    }

    /** The remove-layer handler: drops the last layer, or does nothing on an empty list. */
    method RemoveLayer()
      modifies this
      ensures |old(layers)| > 0 ==> layers == old(layers)[..|old(layers)| - 1]
      ensures |old(layers)| == 0 ==> layers == old(layers)
    {
      if |layers| > 0 {
        layers := layers[..|layers| - 1];
      }
    }
  }

  /** Removing a layer right after adding one gives the list back. */
  method AddThenRemove(list: LayerList)
    modifies list
    ensures list.layers == old(list.layers)
  {
    list.AddLayer();
    list.RemoveLayer();
    assert list.layers == old(list.layers + [DEFAULT_LAYER])[..|old(list.layers)|];
  }
}
