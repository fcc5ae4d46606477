/**
 * The grid-mutation engine of the heightmap generator: the erosion predicate,
 * the thermal-erosion automaton, the clamp ("raise water level") pass, the
 * river walker and the size guard of the resampler.
 *
 * A height buffer and its colour buffer are `array2<Pixel>` buffers of the
 * same width and height, indexed [x, y] (see module Image). Every in-place method is proved
 * against a function on the buffers' contents, and the properties the engine
 * promises are lemmas about those functions.
 */
module Heightmap {
  import opened Image
  import opened Constants

  datatype Option<T> = None | Some(value: T)

  datatype Result<T> = Ok(value: T) | Err(message: string)

  // ---------------------------------------------------------------------------
  // Erosion predicate
  // ---------------------------------------------------------------------------

  /** The erosion modes the predicate knows: 0 none, 1 standard, 2 talus. */
  predicate ValidMode(mode: int)
  {
    0 <= mode <= 2
  }

  /** The normalised drop from the centre to the neighbour in one channel. */
  function Drop(center: Byte, neighbor: Byte): (r: real)
    ensures -1.0 <= r <= 1.0
    ensures r > 0.0 <==> neighbor < center
  {
    (center - neighbor) as real / 255.0
  }

  /**
   * The predicate's loop over the colour channels, from `channel` on. A mode
   * other than 0, 1 or 2 is rejected (`None`, a panic in the source) as soon
   * as one channel is examined; mode 0 returns false at once.
   */
  function ShouldErodeFrom(center: Pixel, neighbor: Pixel, talusAngle: real, mode: int, channel: nat): (r: Option<bool>)
    requires channel <= 3
    ensures r.None? <==> channel < 3 && !ValidMode(mode)
    ensures mode == 0 ==> r == Some(false)
    decreases 3 - channel
  {
    if channel == 3 then Some(false)
    else
      match mode
      case 0 => Some(false)
      case 1 =>
        if neighbor.Channel(channel) < center.Channel(channel) then Some(true)
        else ShouldErodeFrom(center, neighbor, talusAngle, mode, channel + 1)
      case 2 =>
        if Drop(center.Channel(channel), neighbor.Channel(channel)) > talusAngle then Some(true)
        else ShouldErodeFrom(center, neighbor, talusAngle, mode, channel + 1)
      case _ => None
  }

  /** Whether `neighbor` makes `center` erode; `None` for an unknown mode. */
  function ShouldErode(center: Pixel, neighbor: Pixel, talusAngle: real, mode: int): (r: Option<bool>)
    ensures r.None? <==> !ValidMode(mode)
    ensures mode == 0 ==> r == Some(false)
  {
    ShouldErodeFrom(center, neighbor, talusAngle, mode, 0)
  }

  /** Standard mode erodes iff some remaining RGB channel of the neighbour is strictly lower. */
  lemma {:induction false} StandardFrom(center: Pixel, neighbor: Pixel, talusAngle: real, channel: nat)
    requires channel <= 3
    ensures ShouldErodeFrom(center, neighbor, talusAngle, 1, channel) ==
      Some(exists ch :: channel <= ch < 3 && neighbor.Channel(ch) < center.Channel(ch))
    decreases 3 - channel
  {
    if channel < 3 && neighbor.Channel(channel) >= center.Channel(channel) {
      StandardFrom(center, neighbor, talusAngle, channel + 1);
    }
  }

  /** Talus mode erodes iff some remaining RGB channel drops by more than the talus angle. */
  lemma {:induction false} TalusFrom(center: Pixel, neighbor: Pixel, talusAngle: real, channel: nat)
    requires channel <= 3
    ensures ShouldErodeFrom(center, neighbor, talusAngle, 2, channel) ==
      Some(exists ch :: channel <= ch < 3 && Drop(center.Channel(ch), neighbor.Channel(ch)) > talusAngle)
    decreases 3 - channel
  {
    if channel < 3 && Drop(center.Channel(channel), neighbor.Channel(channel)) <= talusAngle {
      TalusFrom(center, neighbor, talusAngle, channel + 1);
    }
  }

  /**
   * What the predicate decides: mode 1 erodes iff some RGB channel of the
   * neighbour is strictly below the centre's, mode 2 iff some RGB channel
   * drops by more than the talus angle.
   */
  lemma ShouldErodeMeaning(center: Pixel, neighbor: Pixel, talusAngle: real)
    ensures ShouldErode(center, neighbor, talusAngle, 1) ==
      Some(exists ch :: 0 <= ch < 3 && neighbor.Channel(ch) < center.Channel(ch))
    ensures ShouldErode(center, neighbor, talusAngle, 2) ==
      Some(exists ch :: 0 <= ch < 3 && Drop(center.Channel(ch), neighbor.Channel(ch)) > talusAngle)
  {
    StandardFrom(center, neighbor, talusAngle, 0);
    TalusFrom(center, neighbor, talusAngle, 0);
  }

  /** With a non-negative talus angle, every talus hit is also a standard hit. */
  lemma TalusImpliesStandard(center: Pixel, neighbor: Pixel, talusAngle: real)
    requires talusAngle >= 0.0
    requires ShouldErode(center, neighbor, talusAngle, 2) == Some(true)
    ensures ShouldErode(center, neighbor, talusAngle, 1) == Some(true)
  {
    ShouldErodeMeaning(center, neighbor, talusAngle);
    var ch :| 0 <= ch < 3 && Drop(center.Channel(ch), neighbor.Channel(ch)) > talusAngle;
    assert neighbor.Channel(ch) < center.Channel(ch);
  }

  // ---------------------------------------------------------------------------
  // Thermal erosion: specification
  // ---------------------------------------------------------------------------

  /** Pixels off the outermost ring, the only ones erosion visits. */
  predicate Interior(x: int, y: int, width: nat, height: nat)
  {
    1 <= x < width - 1 && 1 <= y < height - 1
  }

  /** Every coordinate pair in `cells` is an interior cell. */
  predicate InteriorCells(cells: seq<(int, int)>, width: nat, height: nat): (r: bool)
    ensures r ==> CellsInGrid(cells, width, height)
  {
    forall k :: 0 <= k < |cells| ==> 1 <= cells[k].0 < width - 1 && 1 <= cells[k].1 < height - 1
  }

  predicate HasInterior(width: nat, height: nat)
  {
    width >= 3 && height >= 3
  }

  /*
   * The eight neighbours are scanned with dx in the outer loop and dy in the
   * inner one, both from -1 to 1. Scan position s = 3 * (dx + 1) + (dy + 1)
   * in 0..8 stands for the offset (Dx(s), Dy(s)); position 4 is the centre
   * itself, which the scan skips.
   */

  function Dx(s: nat): int
  {
    if s < 3 then -1 else if s < 6 then 0 else 1
  }

  function Dy(s: nat): int
  {
    if s < 3 then s - 1 else if s < 6 then s - 4 else s - 7
  }

  function ScanPos(dx: int, dy: int): int
  {
    3 * dx + dy + 4
  }

  lemma ScanPosOffsets(dx: int, dy: int)
    requires -1 <= dx <= 1 && -1 <= dy <= 1
    ensures 0 <= ScanPos(dx, dy) < 9
    ensures Dx(ScanPos(dx, dy)) == dx && Dy(ScanPos(dx, dy)) == dy
    ensures ScanPos(dx, dy) == 4 <==> dx == 0 && dy == 0
  {
  }

  /** Whether the neighbour at scan position `s` erodes the interior pixel (x, y) of snapshot `hs`. */
  predicate ErodesAt(hs: Grid, width: nat, height: nat, x: int, y: int, talusAngle: real, mode: int, s: nat)
    requires IsGrid(hs, width, height) && Interior(x, y, width, height) && ValidMode(mode) && s < 9
  {
    ShouldErode(hs[x][y], hs[x + Dx(s)][y + Dy(s)], talusAngle, mode) == Some(true)
  }

  /** The outcome of the erosion test at each of the 9 scan positions; the centre never counts. */
  function Hits(hs: Grid, width: nat, height: nat, x: int, y: int, talusAngle: real, mode: int): (r: seq<bool>)
    requires IsGrid(hs, width, height) && Interior(x, y, width, height) && ValidMode(mode)
    ensures |r| == 9 && !r[4]
  {
    seq(9, s requires 0 <= s < 9 => s != 4 && ErodesAt(hs, width, height, x, y, talusAngle, mode, s))
  }

  /** The first position from `s` on that holds a hit: the scan stops at the first match. */
  function FirstHit(hits: seq<bool>, s: nat): (r: Option<nat>)
    requires s <= |hits|
    ensures r.Some? ==> s <= r.value < |hits| && hits[r.value]
    ensures r.Some? ==> forall j :: s <= j < r.value ==> !hits[j]
    ensures r.None? ==> forall j :: s <= j < |hits| ==> !hits[j]
    decreases |hits| - s
  {
    if s == |hits| then None
    else if hits[s] then Some(s)
    else FirstHit(hits, s + 1)
  }

  /** The first eroding scan position of pixel (x, y), if any. */
  function FirstEroding(hs: Grid, width: nat, height: nat, x: int, y: int, talusAngle: real, mode: int): (r: Option<nat>)
    requires IsGrid(hs, width, height) && Interior(x, y, width, height) && ValidMode(mode)
    ensures r.Some? ==> r.value < 9 && r.value != 4
  {
    FirstHit(Hits(hs, width, height, x, y, talusAngle, mode), 0)
  }

  /** First match wins: the position found erodes and no earlier neighbour does; `None` iff no neighbour erodes. */
  lemma FirstErodingIsFirst(hs: Grid, width: nat, height: nat, x: int, y: int, talusAngle: real, mode: int)
    requires IsGrid(hs, width, height) && Interior(x, y, width, height) && ValidMode(mode)
    ensures match FirstEroding(hs, width, height, x, y, talusAngle, mode)
      case Some(k) =>
        ErodesAt(hs, width, height, x, y, talusAngle, mode, k) &&
        forall j :: 0 <= j < k && j != 4 ==> !ErodesAt(hs, width, height, x, y, talusAngle, mode, j)
      case None =>
        forall j :: 0 <= j < 9 && j != 4 ==> !ErodesAt(hs, width, height, x, y, talusAngle, mode, j)
  {
    var hits := Hits(hs, width, height, x, y, talusAngle, mode);
    assert forall j :: 0 <= j < 9 && j != 4 ==> hits[j] == ErodesAt(hs, width, height, x, y, talusAngle, mode, j);
  }

  /**
   * The (height, colour) pair an interior pixel takes in one pass: the
   * snapshot pair of the first eroding neighbour, or its own snapshot pair.
   */
  function ErodedPair(hs: Grid, cs: Grid, width: nat, height: nat, x: int, y: int, talusAngle: real, mode: int): (Pixel, Pixel)
    requires IsGrid(hs, width, height) && IsGrid(cs, width, height)
    requires Interior(x, y, width, height) && ValidMode(mode)
  {
    match FirstEroding(hs, width, height, x, y, talusAngle, mode)
    case None => (hs[x][y], cs[x][y])
    case Some(s) => (hs[x + Dx(s)][y + Dy(s)], cs[x + Dx(s)][y + Dy(s)])
  }

  /** The pair at (x, y) after one pass; the outermost ring keeps its own. */
  function PassAt(hs: Grid, cs: Grid, width: nat, height: nat, talusAngle: real, mode: int, x: int, y: int): (Pixel, Pixel)
    requires IsGrid(hs, width, height) && IsGrid(cs, width, height) && ValidMode(mode)
    requires InGrid(x, y, width, height)
  {
    if Interior(x, y, width, height) then ErodedPair(hs, cs, width, height, x, y, talusAngle, mode)
    else (hs[x][y], cs[x][y])
  }

  /** One pass: every pixel's new pair is computed from the frozen snapshot (hs, cs). */
  function Pass(hs: Grid, cs: Grid, width: nat, height: nat, talusAngle: real, mode: int): (r: (Grid, Grid))
    requires IsGrid(hs, width, height) && IsGrid(cs, width, height) && ValidMode(mode)
    ensures IsGrid(r.0, width, height) && IsGrid(r.1, width, height)
  {
    (seq(width, x requires 0 <= x < width =>
       seq(height, y requires 0 <= y < height => PassAt(hs, cs, width, height, talusAngle, mode, x, y).0)),
     seq(width, x requires 0 <= x < width =>
       seq(height, y requires 0 <= y < height => PassAt(hs, cs, width, height, talusAngle, mode, x, y).1)))
  }

  /** `iterations` passes, each on the result of the previous one. */
  function Erosion(hs: Grid, cs: Grid, width: nat, height: nat, iterations: nat, talusAngle: real, mode: int): (r: (Grid, Grid))
    requires IsGrid(hs, width, height) && IsGrid(cs, width, height) && ValidMode(mode)
    ensures IsGrid(r.0, width, height) && IsGrid(r.1, width, height)
  {
    if iterations == 0 then (hs, cs)
    else
      var prev := Erosion(hs, cs, width, height, iterations - 1, talusAngle, mode);
      Pass(prev.0, prev.1, width, height, talusAngle, mode)
  }

  // ---------------------------------------------------------------------------
  // Thermal erosion: properties
  // ---------------------------------------------------------------------------

  /** Where a pass takes the pair at (x, y) from: the first eroding neighbour, or (x, y) itself. */
  function PassSource(hs: Grid, width: nat, height: nat, talusAngle: real, mode: int, x: int, y: int): (p: (int, int))
    requires IsGrid(hs, width, height) && ValidMode(mode) && InGrid(x, y, width, height)
    ensures InGrid(p.0, p.1, width, height)
    ensures -1 <= p.0 - x <= 1 && -1 <= p.1 - y <= 1
  {
    if Interior(x, y, width, height) then
      match FirstEroding(hs, width, height, x, y, talusAngle, mode)
      case None => (x, y)
      case Some(s) => (x + Dx(s), y + Dy(s))
    else (x, y)
  }

  /**
   * Height and colour move together: after a pass, the pair at every pixel is
   * the snapshot pair of one pixel, itself or one of its 8 neighbours.
   */
  lemma PassTakesSnapshotPair(hs: Grid, cs: Grid, width: nat, height: nat, talusAngle: real, mode: int, x: int, y: int)
    requires IsGrid(hs, width, height) && IsGrid(cs, width, height) && ValidMode(mode)
    requires InGrid(x, y, width, height)
    ensures var p := PassSource(hs, width, height, talusAngle, mode, x, y);
      Pass(hs, cs, width, height, talusAngle, mode).0[x][y] == hs[p.0][p.1] &&
      Pass(hs, cs, width, height, talusAngle, mode).1[x][y] == cs[p.0][p.1]
  {
  }

  /** Every pair after any number of passes already occurs, at one pixel, in the input buffers. */
  lemma {:induction false} ErosionPairsFromInput(hs: Grid, cs: Grid, width: nat, height: nat, iterations: nat, talusAngle: real, mode: int, x: int, y: int)
    requires IsGrid(hs, width, height) && IsGrid(cs, width, height) && ValidMode(mode)
    requires InGrid(x, y, width, height)
    ensures exists i, j :: (InGrid(i, j, width, height) &&
      Erosion(hs, cs, width, height, iterations, talusAngle, mode).0[x][y] == hs[i][j] &&
      Erosion(hs, cs, width, height, iterations, talusAngle, mode).1[x][y] == cs[i][j])
  {
    if iterations == 0 {
      assert Erosion(hs, cs, width, height, iterations, talusAngle, mode).0[x][y] == hs[x][y];
      assert Erosion(hs, cs, width, height, iterations, talusAngle, mode).1[x][y] == cs[x][y];
    } else {
      var prev := Erosion(hs, cs, width, height, iterations - 1, talusAngle, mode);
      var p := PassSource(prev.0, width, height, talusAngle, mode, x, y);
      PassTakesSnapshotPair(prev.0, prev.1, width, height, talusAngle, mode, x, y);
      ErosionPairsFromInput(hs, cs, width, height, iterations - 1, talusAngle, mode, p.0, p.1);
    }
  }

  /** The outermost ring (x = 0, x = width - 1, y = 0, y = height - 1) is never changed. */
  lemma {:induction false} ErosionKeepsBorder(hs: Grid, cs: Grid, width: nat, height: nat, iterations: nat, talusAngle: real, mode: int, x: int, y: int)
    requires IsGrid(hs, width, height) && IsGrid(cs, width, height) && ValidMode(mode)
    requires InGrid(x, y, width, height) && !Interior(x, y, width, height)
    ensures Erosion(hs, cs, width, height, iterations, talusAngle, mode).0[x][y] == hs[x][y]
    ensures Erosion(hs, cs, width, height, iterations, talusAngle, mode).1[x][y] == cs[x][y]
  {
    if iterations > 0 {
      ErosionKeepsBorder(hs, cs, width, height, iterations - 1, talusAngle, mode, x, y);
    }
  }

  /** Mode 0 finds no eroding neighbour. */
  lemma ModeNoneFindsNothing(hs: Grid, width: nat, height: nat, x: int, y: int, talusAngle: real)
    requires IsGrid(hs, width, height) && Interior(x, y, width, height)
    ensures FirstEroding(hs, width, height, x, y, talusAngle, 0) == None
  {
    FirstErodingIsFirst(hs, width, height, x, y, talusAngle, 0);
  }

  /** A pass with mode 0 changes nothing. */
  lemma PassModeNoneIsIdentity(hs: Grid, cs: Grid, width: nat, height: nat, talusAngle: real)
    requires IsGrid(hs, width, height) && IsGrid(cs, width, height)
    ensures Pass(hs, cs, width, height, talusAngle, 0) == (hs, cs)
  {
    var p := Pass(hs, cs, width, height, talusAngle, 0);
    forall x, y | InGrid(x, y, width, height)
      ensures p.0[x][y] == hs[x][y] && p.1[x][y] == cs[x][y]
    {
      if Interior(x, y, width, height) {
        ModeNoneFindsNothing(hs, width, height, x, y, talusAngle);
      }
    }
    GridEq(p.0, hs, width, height);
    GridEq(p.1, cs, width, height);
  }

  /** Erosion with mode 0 leaves both buffers identical, whatever the number of passes. */
  lemma {:induction false} ErosionModeNoneIsIdentity(hs: Grid, cs: Grid, width: nat, height: nat, iterations: nat, talusAngle: real)
    requires IsGrid(hs, width, height) && IsGrid(cs, width, height)
    ensures Erosion(hs, cs, width, height, iterations, talusAngle, 0) == (hs, cs)
  {
    if iterations > 0 {
      ErosionModeNoneIsIdentity(hs, cs, width, height, iterations - 1, talusAngle);
      PassModeNoneIsIdentity(hs, cs, width, height, talusAngle);
    }
  }

  // ---------------------------------------------------------------------------
  // Thermal erosion: the in-place automaton
  // ---------------------------------------------------------------------------

  /** The hit at the scan position of offset (dx, dy) is the erosion test against that neighbour. */
  lemma HitAt(hs: Grid, width: nat, height: nat, x: int, y: int, talusAngle: real, mode: int, dx: int, dy: int)
    requires IsGrid(hs, width, height) && Interior(x, y, width, height) && ValidMode(mode)
    requires -1 <= dx <= 1 && -1 <= dy <= 1 && (dx != 0 || dy != 0)
    ensures 0 <= ScanPos(dx, dy) < 9
    ensures Hits(hs, width, height, x, y, talusAngle, mode)[ScanPos(dx, dy)] ==
      (ShouldErode(hs[x][y], hs[x + dx][y + dy], talusAngle, mode) == Some(true))
  {
    var s := ScanPos(dx, dy);
    ScanPosOffsets(dx, dy);
    assert hs[x + Dx(s)][y + Dy(s)] == hs[x + dx][y + dy];
  }

  /**
   * One interior pixel of one pass: scan the neighbours of (x, y) in the
   * snapshot (tempH, tempC) and, on the first eroding one, overwrite the live
   * height and colour pixels together with that neighbour's snapshot pair.
   * Returns false for an unknown mode (the source panics on the first test,
   * before writing anything).
   */
  method ErodePixel(heightmap: array2<Pixel>, colormap: array2<Pixel>, tempH: Grid, tempC: Grid,
                    x: int, y: int, talusAngle: real, erosionMode: int)
    returns (ok: bool)
    requires heightmap != colormap
    requires colormap.Length0 == heightmap.Length0 && colormap.Length1 == heightmap.Length1
    requires IsGrid(tempH, heightmap.Length0, heightmap.Length1) && IsGrid(tempC, heightmap.Length0, heightmap.Length1)
    requires Interior(x, y, heightmap.Length0, heightmap.Length1)
    modifies heightmap, colormap
    ensures ok <==> ValidMode(erosionMode)
    ensures ok ==>
      (heightmap[x, y], colormap[x, y]) ==
      match FirstEroding(tempH, heightmap.Length0, heightmap.Length1, x, y, talusAngle, erosionMode)
      case None => (old(heightmap[x, y]), old(colormap[x, y]))
      case Some(_) => ErodedPair(tempH, tempC, heightmap.Length0, heightmap.Length1, x, y, talusAngle, erosionMode)
    ensures !ok ==> heightmap[x, y] == old(heightmap[x, y]) && colormap[x, y] == old(colormap[x, y])
    ensures forall i, j :: InGrid(i, j, heightmap.Length0, heightmap.Length1) && (i != x || j != y) ==>
      heightmap[i, j] == old(heightmap[i, j]) && colormap[i, j] == old(colormap[i, j])
  {
    var width, height := heightmap.Length0, heightmap.Length1;
    if !ValidMode(erosionMode) {
      // The first test of the scan (neighbour (-1, -1)) rejects the mode.
      var erodes := ShouldErode(tempH[x][y], tempH[x - 1][y - 1], talusAngle, erosionMode);
      assert erodes.None?;
      return false;
    }
    ghost var hits := Hits(tempH, width, height, x, y, talusAngle, erosionMode);
    assert FirstEroding(tempH, width, height, x, y, talusAngle, erosionMode) == FirstHit(hits, 0);
    var center := tempH[x][y];
    var dx := -1;
    while dx < 2
      invariant -1 <= dx <= 2
      invariant FirstHit(hits, 0) == FirstHit(hits, ScanPos(dx, -1))
      invariant unchanged(heightmap) && unchanged(colormap)
    {
      var dy := -1;
      while dy < 2
        invariant -1 <= dy <= 2
        invariant FirstHit(hits, 0) == FirstHit(hits, ScanPos(dx, dy))
        invariant unchanged(heightmap) && unchanged(colormap)
      {
        ScanPosOffsets(dx, dy);
        if dx != 0 || dy != 0 {
          var neighborPixel := tempH[x + dx][y + dy];
          var neighborColor := tempC[x + dx][y + dy];
          var erodes := ShouldErode(center, neighborPixel, talusAngle, erosionMode);
          HitAt(tempH, width, height, x, y, talusAngle, erosionMode, dx, dy);
          if erodes.value {
            assert FirstHit(hits, ScanPos(dx, dy)) == Some(ScanPos(dx, dy));
            assert ErodedPair(tempH, tempC, width, height, x, y, talusAngle, erosionMode) == (neighborPixel, neighborColor);
            heightmap[x, y] := neighborPixel;
            colormap[x, y] := neighborColor;
            return true;
          }
        }
        assert FirstHit(hits, ScanPos(dx, dy)) == FirstHit(hits, ScanPos(dx, dy + 1));
        dy := dy + 1;
      }
      dx := dx + 1;
    }
    assert FirstHit(hits, 0) == None;
    return true;
  }

  /**
   * Whether one pass panics before writing anything. The source computes
   * `height - 1` and `width - 1` on `u32` (an underflow panics for an empty
   * dimension, `width - 1` only once a row is visited), and the first erosion
   * test rejects an unknown mode.
   */
  predicate PassPanics(width: nat, height: nat, mode: int): (r: bool)
    ensures ValidMode(mode) ==> (r <==> height == 0 || (height >= 3 && width == 0))
    ensures HasInterior(width, height) ==> (r <==> !ValidMode(mode))
    ensures 1 <= height < 3 ==> !r
  {
    height == 0 || (height >= 3 && width == 0) || (HasInterior(width, height) && !ValidMode(mode))
  }

  /** The pair at (i, j) part-way through a pass: the pass's value once visited, the snapshot's before. */
  function Expected(tempH: Grid, tempC: Grid, width: nat, height: nat, talusAngle: real, mode: int,
                    i: int, j: int, visited: bool): (Pixel, Pixel)
    requires IsGrid(tempH, width, height) && IsGrid(tempC, width, height) && InGrid(i, j, width, height)
  {
    if visited && ValidMode(mode) && Interior(i, j, width, height)
    then ErodedPair(tempH, tempC, width, height, i, j, talusAngle, mode)
    else (tempH[i][j], tempC[i][j])
  }

  /**
   * Row y of an erosion pass: every interior pixel of the row, left to right.
   * Reports `false` where the source panics, which happens at the row's first
   * pixel before any write.
   */
  method ErodeRow(heightmap: array2<Pixel>, colormap: array2<Pixel>, tempH: Grid, tempC: Grid, y: int,
                  talusAngle: real, erosionMode: int)
    returns (ok: bool)
    requires heightmap != colormap
    requires colormap.Length0 == heightmap.Length0 && colormap.Length1 == heightmap.Length1
    requires IsGrid(tempH, heightmap.Length0, heightmap.Length1) && IsGrid(tempC, heightmap.Length0, heightmap.Length1)
    requires 1 <= y < heightmap.Length1 - 1 && heightmap.Length0 >= 1
    requires forall i, j :: InGrid(i, j, heightmap.Length0, heightmap.Length1) ==>
      heightmap[i, j] == Expected(tempH, tempC, heightmap.Length0, heightmap.Length1, talusAngle, erosionMode, i, j, j < y).0 &&
      colormap[i, j] == Expected(tempH, tempC, heightmap.Length0, heightmap.Length1, talusAngle, erosionMode, i, j, j < y).1
    modifies heightmap, colormap
    ensures ok <==> heightmap.Length0 < 3 || ValidMode(erosionMode)
    ensures forall i, j :: InGrid(i, j, heightmap.Length0, heightmap.Length1) ==>
      heightmap[i, j] == Expected(tempH, tempC, heightmap.Length0, heightmap.Length1, talusAngle, erosionMode, i, j, j < y || (ok && j == y)).0 &&
      colormap[i, j] == Expected(tempH, tempC, heightmap.Length0, heightmap.Length1, talusAngle, erosionMode, i, j, j < y || (ok && j == y)).1
  {
    var width, height := heightmap.Length0, heightmap.Length1;
    var x := 1;
    while x < width - 1
      invariant 1 <= x && x <= width
      invariant x > 1 ==> ValidMode(erosionMode)
      invariant forall i, j :: InGrid(i, j, width, height) ==>
        heightmap[i, j] == Expected(tempH, tempC, width, height, talusAngle, erosionMode, i, j, j < y || (j == y && i < x)).0 &&
        colormap[i, j] == Expected(tempH, tempC, width, height, talusAngle, erosionMode, i, j, j < y || (j == y && i < x)).1
    {
      var pixelOk := ErodePixel(heightmap, colormap, tempH, tempC, x, y, talusAngle, erosionMode);
      if !pixelOk {
        return false;
      }
      x := x + 1;
    }
    ok := true;
  }

  /**
   * One erosion pass over the interior, rows outer and columns inner, reading
   * only the snapshot taken at its start. Reports `false` where the source
   * panics.
   */
  method ErosionPass(heightmap: array2<Pixel>, colormap: array2<Pixel>, talusAngle: real, erosionMode: int)
    returns (ok: bool)
    requires heightmap != colormap
    requires colormap.Length0 == heightmap.Length0 && colormap.Length1 == heightmap.Length1
    modifies heightmap, colormap
    ensures ok <==> !PassPanics(heightmap.Length0, heightmap.Length1, erosionMode)
    ensures ok && ValidMode(erosionMode) ==>
      (Cells(heightmap), Cells(colormap)) ==
      Pass(old(Cells(heightmap)), old(Cells(colormap)), heightmap.Length0, heightmap.Length1, talusAngle, erosionMode)
    ensures !(ok && ValidMode(erosionMode)) ==>
      Cells(heightmap) == old(Cells(heightmap)) && Cells(colormap) == old(Cells(colormap))
  {
    var width, height := heightmap.Length0, heightmap.Length1;
    if height == 0 {
      return false;
    }
    var tempH := Cells(heightmap);
    var tempC := Cells(colormap);
    var y := 1;
    while y < height - 1
      invariant 1 <= y && (height >= 2 ==> y <= height - 1)
      invariant y > 1 ==> width >= 1 && (width >= 3 ==> ValidMode(erosionMode))
      invariant forall i, j :: InGrid(i, j, width, height) ==>
        heightmap[i, j] == Expected(tempH, tempC, width, height, talusAngle, erosionMode, i, j, j < y).0 &&
        colormap[i, j] == Expected(tempH, tempC, width, height, talusAngle, erosionMode, i, j, j < y).1
    {
      if width == 0 {
        GridEq(Cells(heightmap), tempH, width, height);
        GridEq(Cells(colormap), tempC, width, height);
        return false;
      }
      var rowOk := ErodeRow(heightmap, colormap, tempH, tempC, y, talusAngle, erosionMode);
      if !rowOk {
        GridEq(Cells(heightmap), tempH, width, height);
        GridEq(Cells(colormap), tempC, width, height);
        return false;
      }
      y := y + 1;
    }
    ok := true;
    if ValidMode(erosionMode) {
      var next := Pass(tempH, tempC, width, height, talusAngle, erosionMode);
      GridEq(Cells(heightmap), next.0, width, height);
      GridEq(Cells(colormap), next.1, width, height);
    } else {
      GridEq(Cells(heightmap), tempH, width, height);
      GridEq(Cells(colormap), tempC, width, height);
    }
  }

  /**
   * `thermal_erosion`: `iterations` passes, each against a fresh clone of both
   * buffers, moving height and colour together. Reports `false` where the
   * source panics, which happens in the first pass before any write.
   */
  method ThermalErosion(heightmap: array2<Pixel>, colormap: array2<Pixel>, iterations: nat, talusAngle: real, erosionMode: int)
    returns (ok: bool)
    requires heightmap != colormap
    requires colormap.Length0 == heightmap.Length0 && colormap.Length1 == heightmap.Length1
    modifies heightmap, colormap
    ensures ok <==> iterations == 0 || !PassPanics(heightmap.Length0, heightmap.Length1, erosionMode)
    ensures ok && ValidMode(erosionMode) ==>
      (Cells(heightmap), Cells(colormap)) ==
      Erosion(old(Cells(heightmap)), old(Cells(colormap)), heightmap.Length0, heightmap.Length1, iterations, talusAngle, erosionMode)
    ensures !(ok && ValidMode(erosionMode)) ==>
      Cells(heightmap) == old(Cells(heightmap)) && Cells(colormap) == old(Cells(colormap))
  {
    var width, height := heightmap.Length0, heightmap.Length1;
    var h0, c0 := Cells(heightmap), Cells(colormap);
    var i := 0;
    while i < iterations
      invariant 0 <= i <= iterations
      invariant i > 0 ==> !PassPanics(width, height, erosionMode)
      invariant ValidMode(erosionMode) ==>
        (Cells(heightmap), Cells(colormap)) == Erosion(h0, c0, width, height, i, talusAngle, erosionMode)
      invariant !ValidMode(erosionMode) ==> Cells(heightmap) == h0 && Cells(colormap) == c0
    {
      var passOk := ErosionPass(heightmap, colormap, talusAngle, erosionMode);
      if !passOk {
        return false;
      }
      i := i + 1;
    }
    return true;
  }

  // ---------------------------------------------------------------------------
  // Clamp ("raise water level")
  // ---------------------------------------------------------------------------

  /**
   * `v.min(hi).max(lo)`: `v` forced into [lo, hi]. The lower bound is applied
   * last, so it wins when lo > hi.
   */
  function Clamp(v: Byte, lo: Byte, hi: Byte): (r: Byte)
    ensures lo <= hi ==> lo <= r <= hi
    ensures lo <= v <= hi ==> r == v
    ensures v < lo ==> r == lo
    ensures lo <= hi < v ==> r == hi
    ensures hi < lo ==> r == lo
  {
    var capped := if v < hi then v else hi;
    if capped > lo then capped else lo
  }

  /** Clamping an already clamped channel changes nothing, whatever the bounds. */
  lemma ClampIdempotentChannel(v: Byte, lo: Byte, hi: Byte)
    ensures Clamp(Clamp(v, lo, hi), lo, hi) == Clamp(v, lo, hi)
  {
  }

  /** A pixel with its R, G and B channels clamped into [lo, hi] and its alpha untouched. */
  function ClampPixel(p: Pixel, lo: Byte, hi: Byte): (q: Pixel)
    ensures forall k :: 0 <= k < 3 ==> q.Channel(k) == Clamp(p.Channel(k), lo, hi)
    ensures q.a == p.a
  {
    Rgba(Clamp(p.r, lo, hi), Clamp(p.g, lo, hi), Clamp(p.b, lo, hi), p.a)
  }

  /** Every pixel of the grid, borders included, clamped. */
  function ClampGrid(g: Grid, width: nat, height: nat, lo: Byte, hi: Byte): (r: Grid)
    requires IsGrid(g, width, height)
    ensures IsGrid(r, width, height)
    ensures forall x, y :: InGrid(x, y, width, height) ==> r[x][y] == ClampPixel(g[x][y], lo, hi)
  {
    seq(width, x requires 0 <= x < width => seq(height, y requires 0 <= y < height => ClampPixel(g[x][y], lo, hi)))
  }

  /** Every RGB channel of the result lies in [lo, hi] (is `lo` when lo > hi), and alpha is kept. */
  lemma ClampGridBounds(g: Grid, width: nat, height: nat, lo: Byte, hi: Byte, x: int, y: int)
    requires IsGrid(g, width, height) && InGrid(x, y, width, height)
    ensures var p := ClampGrid(g, width, height, lo, hi)[x][y];
      (forall k :: 0 <= k < 3 ==> (lo <= hi ==> lo <= p.Channel(k) <= hi) && (hi < lo ==> p.Channel(k) == lo)) &&
      p.a == g[x][y].a
  {
  }

  /** Applying the clamp twice equals applying it once. */
  lemma ClampGridIdempotent(g: Grid, width: nat, height: nat, lo: Byte, hi: Byte)
    requires IsGrid(g, width, height)
    ensures ClampGrid(ClampGrid(g, width, height, lo, hi), width, height, lo, hi) == ClampGrid(g, width, height, lo, hi)
  {
    var once := ClampGrid(g, width, height, lo, hi);
    var twice := ClampGrid(once, width, height, lo, hi);
    forall x, y | InGrid(x, y, width, height)
      ensures twice[x][y] == once[x][y]
    {
      var p := g[x][y];
      ClampIdempotentChannel(p.r, lo, hi);
      ClampIdempotentChannel(p.g, lo, hi);
      ClampIdempotentChannel(p.b, lo, hi);
    }
    GridEq(twice, once, width, height);
  }

  /** `clamp_image_buffer`: rows outer, columns inner, channels 0 to 2 of each pixel in place. */
  method ClampImageBuffer(img: array2<Pixel>, min: Byte, max: Byte)
    modifies img
    ensures Cells(img) == ClampGrid(old(Cells(img)), img.Length0, img.Length1, min, max)
  {
    var width, height := img.Length0, img.Length1;
    ghost var g0 := Cells(img);
    var y := 0;
    while y < height
      invariant 0 <= y <= height
      invariant forall i, j :: InGrid(i, j, width, height) ==>
        img[i, j] == if j < y then ClampPixel(g0[i][j], min, max) else g0[i][j]
    {
      var x := 0;
      while x < width
        invariant 0 <= x <= width
        invariant forall i, j :: InGrid(i, j, width, height) ==>
          img[i, j] == if j < y || (j == y && i < x) then ClampPixel(g0[i][j], min, max) else g0[i][j]
      {
        var pixel := img[x, y];
        var channel := 0;
        while channel < 3
          invariant 0 <= channel <= 3
          invariant forall k :: 0 <= k < 4 ==>
            pixel.Channel(k) == if k < channel then Clamp(g0[x][y].Channel(k), min, max) else g0[x][y].Channel(k)
        {
          pixel := pixel.WithChannel(channel, Clamp(pixel.Channel(channel), min, max));
          channel := channel + 1;
        }
        PixelEq(pixel, ClampPixel(g0[x][y], min, max));
        img[x, y] := pixel;
        x := x + 1;
      }
      y := y + 1;
    }
    GridEq(Cells(img), ClampGrid(g0, width, height, min, max), width, height);
  }

  // ---------------------------------------------------------------------------
  // River walker: specification
  // ---------------------------------------------------------------------------

  /** The green channels of a buffer, read once into a column-major table of `i16` (`heightmap_i16`). */
  type Heights = seq<seq<int>>

  predicate IsHeights(hm: Heights, width: nat, height: nat)
  {
    |hm| == width && forall x :: 0 <= x < width ==> |hm[x]| == height
  }

  /** The snapshot the walkers steer by: `hm[x][y]` is the green channel of pixel (x, y). */
  function Green(g: Grid, width: nat, height: nat): (hm: Heights)
    requires IsGrid(g, width, height)
    ensures IsHeights(hm, width, height)
    ensures forall x, y :: InGrid(x, y, width, height) ==> hm[x][y] == g[x][y].g
  {
    seq(width, x requires 0 <= x < width => seq(height, y requires 0 <= y < height => g[x][y].g))
  }

  predicate IsI16(v: int)
  {
    -0x8000 <= v < 0x8000
  }

  /** `i16::saturating_sub`. */
  function SaturatingSubI16(a: int, b: int): (r: int)
    requires IsI16(a) && IsI16(b)
    ensures IsI16(r)
    ensures IsI16(a - b) ==> r == a - b
    ensures !IsI16(a - b) ==> (a - b < 0 ==> r == -0x8000) && (a - b >= 0 ==> r == 0x7FFF)
  {
    var d := a - b;
    if d < -0x8000 then -0x8000 else if d > 0x7FFF then 0x7FFF else d
  }

  /**
   * The height written onto a carved cell of snapshot height `v`:
   * `max(0, min(v.saturating_sub(factor), 255))`. Saturation never changes
   * the outcome, and a non-negative factor never raises the cell.
   */
  function CarveLevel(v: Byte, factor: int): (r: Byte)
    requires IsI16(factor)
    ensures r == if v - factor < 0 then 0 else if v - factor > 255 then 255 else v - factor
    ensures factor >= 0 ==> r <= v
  {
    var lowered := SaturatingSubI16(v, factor);
    var capped := if lowered < 255 then lowered else 255;
    if capped > 0 then capped else 0
  }

  /** The grey, opaque pixel painted on a carved cell. */
  function CarvePixel(v: Byte, factor: int): (p: Pixel)
    requires IsI16(factor)
    ensures p.r == p.g && p.g == p.b && p.a == 255
    ensures factor >= 0 ==> p.r <= v
  {
    var level := CarveLevel(v, factor);
    Rgba(level, level, level, 255)
  }

  /** The running minimum of the neighbour scan: its height and where it lies. */
  datatype Lowest = Lowest(height: int, x: int, y: int)

  /** `l` names an in-grid cell and carries that cell's snapshot height. */
  predicate Consistent(hm: Heights, width: nat, height: nat, l: Lowest)
    requires IsHeights(hm, width, height)
  {
    InGrid(l.x, l.y, width, height) && l.height == hm[l.x][l.y]
  }

  /**
   * One step of the neighbour scan of interior cell (x, y), at offset
   * (dx, dy): the neighbour replaces the running minimum `best` only when it
   * is strictly lower, so ties keep the earlier one. The centre and
   * neighbours off the grid are skipped.
   */
  function ScanUpdate(hm: Heights, width: nat, height: nat, x: int, y: int, dx: int, dy: int, best: Lowest): (r: Lowest)
    requires IsHeights(hm, width, height) && Interior(x, y, width, height)
    requires -1 <= dx <= 1 && -1 <= dy <= 1
    ensures r.height <= best.height
    ensures r == best ||
      ((dx != 0 || dy != 0) && InGrid(x + dx, y + dy, width, height) &&
       r == Lowest(hm[x + dx][y + dy], x + dx, y + dy) && r.height < best.height)
    ensures (dx != 0 || dy != 0) && InGrid(x + dx, y + dy, width, height) ==>
      (hm[x + dx][y + dy] < best.height <==> r.height < best.height)
  {
    if dx == 0 && dy == 0 then best
    else
      var nx, ny := x + dx, y + dy;
      if nx < 0 || ny < 0 || nx >= width || ny >= height then best
      else if hm[nx][ny] < best.height then Lowest(hm[nx][ny], nx, ny)
      else best
  }

  /** The neighbour scan of interior cell (x, y) from scan position `s` on, with running minimum `best`. */
  function MinScan(hm: Heights, width: nat, height: nat, x: int, y: int, s: nat, best: Lowest): (r: Lowest)
    requires IsHeights(hm, width, height) && Interior(x, y, width, height) && s <= 9
    ensures r.height <= best.height
    ensures Consistent(hm, width, height, best) ==> Consistent(hm, width, height, r)
    ensures r == best || (-1 <= r.x - x <= 1 && -1 <= r.y - y <= 1)
    decreases |hm| + 9 - s, 1
  {
    if s == 9 then best else ScanFrom(hm, width, height, x, y, s, best)
  }

  /** The scan at position `s`: that position's update, then the rest of the scan. */
  function ScanFrom(hm: Heights, width: nat, height: nat, x: int, y: int, s: nat, best: Lowest): (r: Lowest)
    requires IsHeights(hm, width, height) && Interior(x, y, width, height) && s < 9
    ensures r.height <= best.height
    ensures Consistent(hm, width, height, best) ==> Consistent(hm, width, height, r)
    ensures r == best || (-1 <= r.x - x <= 1 && -1 <= r.y - y <= 1)
    decreases |hm| + 9 - s, 0
  {
    MinScan(hm, width, height, x, y, s + 1, ScanUpdate(hm, width, height, x, y, Dx(s), Dy(s), best))
  }

  /** The scan at the position of offset (dx, dy) applies that offset's update and moves on. */
  lemma MinScanAt(hm: Heights, width: nat, height: nat, x: int, y: int, dx: int, dy: int, best: Lowest)
    requires IsHeights(hm, width, height) && Interior(x, y, width, height)
    requires -1 <= dx <= 1 && -1 <= dy <= 1
    ensures 0 <= ScanPos(dx, dy) < 9
    ensures MinScan(hm, width, height, x, y, ScanPos(dx, dy), best) ==
      MinScan(hm, width, height, x, y, ScanPos(dx, dy) + 1, ScanUpdate(hm, width, height, x, y, dx, dy, best))
  {
    ScanPosOffsets(dx, dy);
    assert MinScan(hm, width, height, x, y, ScanPos(dx, dy), best) == ScanFrom(hm, width, height, x, y, ScanPos(dx, dy), best);
  }

  /**
   * One rain iteration of a walker at (x, y): on an interior cell, the lowest
   * neighbour if it is strictly below the cell; otherwise (a local minimum,
   * or a border cell) the walker stays.
   */
  function Step(hm: Heights, width: nat, height: nat, x: int, y: int): (r: Option<(int, int)>)
    requires IsHeights(hm, width, height) && InGrid(x, y, width, height)
    ensures !Interior(x, y, width, height) ==> r.None?
    ensures r.Some? ==>
      InGrid(r.value.0, r.value.1, width, height) &&
      -1 <= r.value.0 - x <= 1 && -1 <= r.value.1 - y <= 1 &&
      hm[r.value.0][r.value.1] < hm[x][y]
  {
    if Interior(x, y, width, height) then
      var m := MinScan(hm, width, height, x, y, 0, Lowest(hm[x][y], x, y));
      if m.height < hm[x][y] then Some((m.x, m.y)) else None
    else None
  }

  /** Where a walker on each cell goes in one rain iteration, as a table indexed [x][y]. */
  type FlowField = seq<seq<Option<(int, int)>>>

  /** `flow` has one entry per cell, and every move it records stays on the grid. */
  ghost predicate IsFlow(flow: FlowField, width: nat, height: nat)
  {
    |flow| == width && (forall x :: 0 <= x < width ==> |flow[x]| == height) &&
    forall x, y :: InGrid(x, y, width, height) && flow[x][y].Some? ==>
      0 <= flow[x][y].value.0 < width && 0 <= flow[x][y].value.1 < height
  }

  /** `flow` records the step of every cell of the snapshot `hm`. */
  ghost predicate FlowOf(flow: FlowField, hm: Heights, width: nat, height: nat)
    requires IsHeights(hm, width, height)
  {
    IsFlow(flow, width, height) &&
    forall x, y {:trigger Step(hm, width, height, x, y)} :: InGrid(x, y, width, height) ==>
      flow[x][y] == Step(hm, width, height, x, y)
  }

  /** The steps of all cells of the snapshot `hm`. */
  function Flow(hm: Heights, width: nat, height: nat): (flow: FlowField)
    requires IsHeights(hm, width, height)
    ensures FlowOf(flow, hm, width, height)
  {
    seq(width, x requires 0 <= x < width =>
      seq(height, y requires 0 <= y < height => Step(hm, width, height, x, y)))
  }

  /** A walker: where it stands and the cells it has moved onto (and carved), in order. */
  datatype Walker = Walker(x: int, y: int, carved: seq<(int, int)>)

  /** The walker started at `start` after `iterations` rain iterations. */
  function Walk(flow: FlowField, width: nat, height: nat, start: (int, int), iterations: nat): (w: Walker)
    requires IsFlow(flow, width, height) && InGrid(start.0, start.1, width, height)
    ensures InGrid(w.x, w.y, width, height)
  {
    if iterations == 0 then Walker(start.0, start.1, [])
    else
      var prev := Walk(flow, width, height, start, iterations - 1);
      match flow[prev.x][prev.y]
      case None => prev
      case Some(next) => Walker(next.0, next.1, prev.carved + [next])
  }

  /** Every cell carved by the walkers from `starts`. */
  function RiverCells(flow: FlowField, width: nat, height: nat, starts: seq<(int, int)>, iterations: nat): (cells: set<(int, int)>)
    requires IsFlow(flow, width, height)
    requires CellsInGrid(starts, width, height)
    decreases |starts|
  {
    if |starts| == 0 then {}
    else
      var last := Walk(flow, width, height, starts[|starts| - 1], iterations);
      RiverCells(flow, width, height, starts[..|starts| - 1], iterations) + SetOf(last.carved)
  }

  /** The cells of a path, as a set. */
  function SetOf(path: seq<(int, int)>): set<(int, int)>
  {
    if |path| == 0 then {} else SetOf(path[..|path| - 1]) + {path[|path| - 1]}
  }

  /** `SetOf` holds exactly the cells of the path. */
  lemma {:induction false} SetOfMembers(path: seq<(int, int)>)
    ensures forall p :: p in SetOf(path) <==> p in path
  {
    if |path| > 0 {
      var init := path[..|path| - 1];
      SetOfMembers(init);
      assert path == init + [path[|path| - 1]];
    }
  }

  /** A cell on the path of the `k`-th walker is carved by the rivers. */
  lemma {:induction false} RiverCellsHas(flow: FlowField, width: nat, height: nat, starts: seq<(int, int)>, iterations: nat, k: nat, p: (int, int))
    requires IsFlow(flow, width, height)
    requires CellsInGrid(starts, width, height)
    requires k < |starts| && p in Walk(flow, width, height, starts[k], iterations).carved
    ensures p in RiverCells(flow, width, height, starts, iterations)
    decreases |starts|
  {
    var n := |starts| - 1;
    if k == n {
      SetOfMembers(Walk(flow, width, height, starts[n], iterations).carved);
    } else {
      var init := starts[..n];
      assert init[k] == starts[k];
      RiverCellsHas(flow, width, height, init, iterations, k, p);
    }
  }

  /** A carved cell lies on the path of some walker `k`. */
  lemma {:induction false} RiverCellsWitness(flow: FlowField, width: nat, height: nat, starts: seq<(int, int)>, iterations: nat, p: (int, int))
    returns (k: nat)
    requires IsFlow(flow, width, height)
    requires CellsInGrid(starts, width, height)
    requires p in RiverCells(flow, width, height, starts, iterations)
    ensures k < |starts| && p in Walk(flow, width, height, starts[k], iterations).carved
    decreases |starts|
  {
    var n := |starts| - 1;
    var init := starts[..n];
    var last := Walk(flow, width, height, starts[n], iterations).carved;
    if p in SetOf(last) {
      SetOfMembers(last);
      k := n;
    } else {
      k := RiverCellsWitness(flow, width, height, init, iterations, p);
      assert init[k] == starts[k];
    }
  }

  /** A cell is carved by the rivers exactly when it lies on the path of one of the walkers. */
  lemma RiverCellsMembers(flow: FlowField, width: nat, height: nat, starts: seq<(int, int)>, iterations: nat, p: (int, int))
    requires IsFlow(flow, width, height)
    requires CellsInGrid(starts, width, height)
    ensures p in RiverCells(flow, width, height, starts, iterations) <==>
      exists k :: 0 <= k < |starts| && p in Walk(flow, width, height, starts[k], iterations).carved
  {
    if p in RiverCells(flow, width, height, starts, iterations) {
      var k := RiverCellsWitness(flow, width, height, starts, iterations, p);
    }
    if exists k :: 0 <= k < |starts| && p in Walk(flow, width, height, starts[k], iterations).carved {
      var k :| 0 <= k < |starts| && p in Walk(flow, width, height, starts[k], iterations).carved;
      RiverCellsHas(flow, width, height, starts, iterations, k, p);
    }
  }

  /** The pair a river run leaves at (x, y): carved cells turn grey at their carve level and water-coloured. */
  function RiverPixel(g: Grid, c: Grid, width: nat, height: nat, cells: set<(int, int)>, factor: int, x: int, y: int): (r: (Pixel, Pixel))
    requires IsGrid(g, width, height) && IsGrid(c, width, height) && InGrid(x, y, width, height) && IsI16(factor)
    ensures (x, y) !in cells ==> r == (g[x][y], c[x][y])
    ensures (x, y) in cells ==>
      r.0.r == CarveLevel(g[x][y].g, factor) && r.0.g == r.0.r && r.0.b == r.0.r && r.0.a == 255 && r.1 == COLORS[0]
  {
    if (x, y) in cells then (CarvePixel(g[x][y].g, factor), WATER) else (g[x][y], c[x][y])
  }

  /**
   * The buffers after `simulate_river_flow`. The snapshot is never updated,
   * so every carve of a cell writes the same pair and the result is an
   * overlay of the carved cells, whatever the order of the writes.
   */
  function Rivers(g: Grid, c: Grid, width: nat, height: nat, starts: seq<(int, int)>, iterations: nat, factor: int): (r: (Grid, Grid))
    requires IsGrid(g, width, height) && IsGrid(c, width, height) && IsI16(factor)
    requires CellsInGrid(starts, width, height)
    ensures IsGrid(r.0, width, height) && IsGrid(r.1, width, height)
  {
    var cells := RiverCells(Flow(Green(g, width, height), width, height), width, height, starts, iterations);
    (seq(width, x requires 0 <= x < width =>
       seq(height, y requires 0 <= y < height => RiverPixel(g, c, width, height, cells, factor, x, y).0)),
     seq(width, x requires 0 <= x < width =>
       seq(height, y requires 0 <= y < height => RiverPixel(g, c, width, height, cells, factor, x, y).1)))
  }

  // ---------------------------------------------------------------------------
  // River walker: properties
  // ---------------------------------------------------------------------------

  /** The neighbour of interior cell (x, y) at scan position `t` (not the centre). */
  function Neighbor(hm: Heights, width: nat, height: nat, x: int, y: int, t: nat): (l: Lowest)
    requires IsHeights(hm, width, height) && Interior(x, y, width, height) && t < 9
    ensures Consistent(hm, width, height, l)
  {
    Lowest(hm[x + Dx(t)][y + Dy(t)], x + Dx(t), y + Dy(t))
  }

  /** `r` is the neighbour at position q, lower than `best` and strictly lower than every neighbour scanned from `s` up to q. */
  predicate FirstLowestAt(hm: Heights, width: nat, height: nat, x: int, y: int, s: nat, best: Lowest, r: Lowest, q: nat)
    requires IsHeights(hm, width, height) && Interior(x, y, width, height)
  {
    s <= q < 9 && q != 4 && r == Neighbor(hm, width, height, x, y, q) && r.height < best.height &&
    forall t :: s <= t < q && t != 4 ==> Neighbor(hm, width, height, x, y, t).height > r.height
  }

  /** Inside the grid the bounds test never fires: a step keeps `best` or takes the strictly lower neighbour. */
  lemma ScanUpdateCases(hm: Heights, width: nat, height: nat, x: int, y: int, s: nat, best: Lowest)
    requires IsHeights(hm, width, height) && Interior(x, y, width, height) && s < 9
    ensures ScanUpdate(hm, width, height, x, y, Dx(s), Dy(s), best) ==
      if s != 4 && Neighbor(hm, width, height, x, y, s).height < best.height
      then Neighbor(hm, width, height, x, y, s) else best
  {
  }

  /** The scan ends no higher than any neighbour it scans. */
  lemma {:induction false} MinScanIsLowest(hm: Heights, width: nat, height: nat, x: int, y: int, s: nat, best: Lowest)
    requires IsHeights(hm, width, height) && Interior(x, y, width, height) && s <= 9
    ensures forall t :: s <= t < 9 && t != 4 ==>
      Neighbor(hm, width, height, x, y, t).height >= MinScan(hm, width, height, x, y, s, best).height
    decreases 9 - s
  {
    if s < 9 {
      var next := ScanUpdate(hm, width, height, x, y, Dx(s), Dy(s), best);
      assert MinScan(hm, width, height, x, y, s, best) == MinScan(hm, width, height, x, y, s + 1, next);
      ScanUpdateCases(hm, width, height, x, y, s, best);
      MinScanIsLowest(hm, width, height, x, y, s + 1, next);
    }
  }

  /**
   * The scan ends on the first of the lowest neighbours: either `best`
   * survives, or the result is the neighbour at some position q strictly
   * below `best` and strictly below every neighbour scanned before it.
   */
  lemma {:induction false} MinScanFirstLowest(hm: Heights, width: nat, height: nat, x: int, y: int, s: nat, best: Lowest)
    requires IsHeights(hm, width, height) && Interior(x, y, width, height) && s <= 9
    ensures var r := MinScan(hm, width, height, x, y, s, best);
      r == best || exists q :: FirstLowestAt(hm, width, height, x, y, s, best, r, q)
    decreases 9 - s
  {
    if s < 9 {
      var r := MinScan(hm, width, height, x, y, s, best);
      var next := ScanUpdate(hm, width, height, x, y, Dx(s), Dy(s), best);
      assert r == ScanFrom(hm, width, height, x, y, s, best) == MinScan(hm, width, height, x, y, s + 1, next);
      ScanUpdateCases(hm, width, height, x, y, s, best);
      MinScanFirstLowest(hm, width, height, x, y, s + 1, next);
      if next == best {
        if r != best {
          var q :| FirstLowestAt(hm, width, height, x, y, s + 1, best, r, q);
          assert FirstLowestAt(hm, width, height, x, y, s, best, r, q);
        }
      } else if r == next {
        assert FirstLowestAt(hm, width, height, x, y, s, best, r, s);
      } else {
        var q :| FirstLowestAt(hm, width, height, x, y, s + 1, next, r, q);
        assert FirstLowestAt(hm, width, height, x, y, s, best, r, q);
      }
    }
  }

  /**
   * The walker's choice: it stays iff it is on the border or no neighbour is
   * strictly lower; otherwise it moves to a lowest neighbour, the first such
   * in dx-outer, dy-inner order.
   */
  lemma StepChoosesFirstLowest(hm: Heights, width: nat, height: nat, x: int, y: int)
    requires IsHeights(hm, width, height) && InGrid(x, y, width, height)
    ensures Step(hm, width, height, x, y).None? <==>
      !Interior(x, y, width, height) ||
      forall t :: 0 <= t < 9 && t != 4 ==> Neighbor(hm, width, height, x, y, t).height >= hm[x][y]
    ensures Step(hm, width, height, x, y).Some? ==>
      exists q :: 0 <= q < 9 && q != 4 &&
        Step(hm, width, height, x, y).value == (x + Dx(q), y + Dy(q)) &&
        (forall t :: 0 <= t < 9 && t != 4 ==>
          Neighbor(hm, width, height, x, y, t).height >= Neighbor(hm, width, height, x, y, q).height) &&
        (forall t :: 0 <= t < q && t != 4 ==>
          Neighbor(hm, width, height, x, y, t).height > Neighbor(hm, width, height, x, y, q).height)
  {
    if Interior(x, y, width, height) {
      var best := Lowest(hm[x][y], x, y);
      MinScanIsLowest(hm, width, height, x, y, 0, best);
      MinScanFirstLowest(hm, width, height, x, y, 0, best);
      var r := MinScan(hm, width, height, x, y, 0, best);
      if r != best {
        var q :| FirstLowestAt(hm, width, height, x, y, 0, best, r, q);
        assert r.height < hm[x][y];
        assert (r.x, r.y) == (x + Dx(q), y + Dy(q));
        assert Step(hm, width, height, x, y) == Some((r.x, r.y));
      } else {
        assert Step(hm, width, height, x, y).None?;
      }
    }
  }

  /** Where a walker from `start` stands after moving along `path`. */
  function LastCell(start: (int, int), path: seq<(int, int)>): (int, int)
  {
    if |path| == 0 then start else path[|path| - 1]
  }

  /** Every cell of `path` is strictly below the cell the walker stood on before it. */
  predicate PathDescends(hm: Heights, width: nat, height: nat, start: (int, int), path: seq<(int, int)>)
    requires IsHeights(hm, width, height) && InGrid(start.0, start.1, width, height)
    requires CellsInGrid(path, width, height)
  {
    (|path| > 0 ==> hm[path[0].0][path[0].1] < hm[start.0][start.1]) &&
    forall k :: 1 <= k < |path| ==> hm[path[k].0][path[k].1] < hm[path[k - 1].0][path[k - 1].1]
  }

  /** A descending path stays descending when extended by a cell below its last one. */
  lemma DescendsExtend(hm: Heights, width: nat, height: nat, start: (int, int), path: seq<(int, int)>, p: (int, int))
    requires IsHeights(hm, width, height) && InGrid(start.0, start.1, width, height)
    requires CellsInGrid(path, width, height)
    requires PathDescends(hm, width, height, start, path)
    requires InGrid(p.0, p.1, width, height)
    requires hm[p.0][p.1] < hm[LastCell(start, path).0][LastCell(start, path).1]
    ensures PathDescends(hm, width, height, start, path + [p]) && LastCell(start, path + [p]) == p
  {
    var c := path + [p];
    assert forall k :: 0 <= k < |path| ==> c[k] == path[k];
    assert c[|path|] == p;
  }

  /** Each move of a walker goes strictly down in the snapshot, and the walker stands on the last cell it moved onto. */
  lemma {:induction false} WalkDescends(hm: Heights, flow: FlowField, width: nat, height: nat, start: (int, int), iterations: nat)
    requires IsHeights(hm, width, height) && FlowOf(flow, hm, width, height) && InGrid(start.0, start.1, width, height)
    ensures var w := Walk(flow, width, height, start, iterations);
      CellsInGrid(w.carved, width, height) &&
      PathDescends(hm, width, height, start, w.carved) && (w.x, w.y) == LastCell(start, w.carved)
  {
    if iterations > 0 {
      var prev := Walk(flow, width, height, start, iterations - 1);
      WalkDescends(hm, flow, width, height, start, iterations - 1);
      var step := Step(hm, width, height, prev.x, prev.y);
      assert flow[prev.x][prev.y] == step;
      if step.Some? {
        var p := step.value;
        assert Walk(flow, width, height, start, iterations) == Walker(p.0, p.1, prev.carved + [p]);
        DescendsExtend(hm, width, height, start, prev.carved, p);
      } else {
        assert Walk(flow, width, height, start, iterations) == prev;
      }
    }
  }

  /** Along a descending path every cell is below the start and below every earlier cell. */
  lemma {:induction false} PathBelow(hm: Heights, width: nat, height: nat, start: (int, int), path: seq<(int, int)>, j: nat)
    requires IsHeights(hm, width, height) && InGrid(start.0, start.1, width, height)
    requires CellsInGrid(path, width, height)
    requires PathDescends(hm, width, height, start, path)
    requires j < |path|
    ensures hm[path[j].0][path[j].1] < hm[start.0][start.1]
    ensures forall i :: 0 <= i < j ==> hm[path[j].0][path[j].1] < hm[path[i].0][path[i].1]
  {
    if j > 0 {
      PathBelow(hm, width, height, start, path, j - 1);
    }
  }

  /** The start cell is never carved by its own walker, and no cell is carved twice by it. */
  lemma StartNotCarved(hm: Heights, flow: FlowField, width: nat, height: nat, start: (int, int), iterations: nat)
    requires IsHeights(hm, width, height) && FlowOf(flow, hm, width, height) && InGrid(start.0, start.1, width, height)
    ensures start !in Walk(flow, width, height, start, iterations).carved
    ensures var c := Walk(flow, width, height, start, iterations).carved;
      forall i, j :: 0 <= i < j < |c| ==> c[i] != c[j]
  {
    var c := Walk(flow, width, height, start, iterations).carved;
    WalkDescends(hm, flow, width, height, start, iterations);
    forall j | 0 <= j < |c|
      ensures c[j] != start && forall i :: 0 <= i < j ==> c[i] != c[j]
    {
      PathBelow(hm, width, height, start, c, j);
    }
  }

  /** One more rain iteration of a walker moves it as the flow says, or leaves it where it is. */
  lemma WalkNext(flow: FlowField, width: nat, height: nat, start: (int, int), n: nat, x: int, y: int, path: seq<(int, int)>)
    requires IsFlow(flow, width, height) && InGrid(start.0, start.1, width, height)
    requires Walk(flow, width, height, start, n) == Walker(x, y, path)
    ensures InGrid(x, y, width, height)
    ensures Walk(flow, width, height, start, n + 1) ==
      match flow[x][y]
      case None => Walker(x, y, path)
      case Some(p) => Walker(p.0, p.1, path + [p])
  {
  }

  /**
   * A walker that cannot step (a local minimum, or a border cell) stays where
   * it is for every further iteration.
   */
  lemma {:induction false} StallIsFinal(hm: Heights, flow: FlowField, width: nat, height: nat, start: (int, int), iterations: nat, later: nat)
    requires IsHeights(hm, width, height) && FlowOf(flow, hm, width, height) && InGrid(start.0, start.1, width, height)
    requires var w := Walk(flow, width, height, start, iterations); Step(hm, width, height, w.x, w.y).None?
    requires iterations <= later
    ensures Walk(flow, width, height, start, later) == Walk(flow, width, height, start, iterations)
    decreases later - iterations
  {
    if iterations < later {
      StallIsFinal(hm, flow, width, height, start, iterations, later - 1);
      var w := Walk(flow, width, height, start, iterations);
      WalkNext(flow, width, height, start, later - 1, w.x, w.y, w.carved);
      assert flow[w.x][w.y] == Step(hm, width, height, w.x, w.y);
    }
  }

  /** With no rain iterations no walker carves anything. */
  lemma {:induction false} NoRainNoCells(flow: FlowField, width: nat, height: nat, starts: seq<(int, int)>)
    requires IsFlow(flow, width, height) && CellsInGrid(starts, width, height)
    ensures RiverCells(flow, width, height, starts, 0) == {}
    decreases |starts|
  {
    if |starts| > 0 {
      NoRainNoCells(flow, width, height, starts[..|starts| - 1]);
    }
  }

  /** No rivers, or no rain iterations: both buffers come back unchanged. */
  lemma RiversNoop(g: Grid, c: Grid, width: nat, height: nat, starts: seq<(int, int)>, iterations: nat, factor: int)
    requires IsGrid(g, width, height) && IsGrid(c, width, height) && IsI16(factor)
    requires CellsInGrid(starts, width, height)
    requires |starts| == 0 || iterations == 0
    ensures Rivers(g, c, width, height, starts, iterations, factor) == (g, c)
  {
    if iterations == 0 {
      var hm := Green(g, width, height);
      NoRainNoCells(Flow(hm, width, height), width, height, starts);
    }
    var r := Rivers(g, c, width, height, starts, iterations, factor);
    GridEq(r.0, g, width, height);
    GridEq(r.1, c, width, height);
  }

  /**
   * Only carved cells change, and each turns grey at its carve level with the
   * water colour.
   */
  lemma RiversWriteOnlyCarvedCells(g: Grid, c: Grid, width: nat, height: nat, starts: seq<(int, int)>, iterations: nat, factor: int, x: int, y: int)
    requires IsGrid(g, width, height) && IsGrid(c, width, height) && IsI16(factor)
    requires CellsInGrid(starts, width, height)
    requires InGrid(x, y, width, height)
    ensures var r := Rivers(g, c, width, height, starts, iterations, factor);
      (r.0[x][y] != g[x][y] || r.1[x][y] != c[x][y]) ==>
        (exists k :: 0 <= k < |starts| &&
          (x, y) in Walk(Flow(Green(g, width, height), width, height), width, height, starts[k], iterations).carved) &&
        r.0[x][y] == Rgba(CarveLevel(g[x][y].g, factor), CarveLevel(g[x][y].g, factor), CarveLevel(g[x][y].g, factor), 255) &&
        r.1[x][y] == COLORS[0]
  {
    RiverCellsMembers(Flow(Green(g, width, height), width, height), width, height, starts, iterations, (x, y));
  }

  // ---------------------------------------------------------------------------
  // River walker: the in-place simulation
  // ---------------------------------------------------------------------------

  lemma HeightsEq(h1: Heights, h2: Heights, width: nat, height: nat)
    requires IsHeights(h1, width, height) && IsHeights(h2, width, height)
    requires forall x, y :: InGrid(x, y, width, height) ==> h1[x][y] == h2[x][y]
    ensures h1 == h2
  {
    forall x | 0 <= x < width
      ensures h1[x] == h2[x]
    {
      assert forall y :: 0 <= y < height ==> h1[x][y] == h2[x][y];
    }
  }

  /** Reads the green channel of every pixel into a fresh table, columns outer and rows inner. */
  method GreenSnapshot(heightmap: array2<Pixel>) returns (hm: Heights)
    ensures hm == Green(Cells(heightmap), heightmap.Length0, heightmap.Length1)
  {
    var width, height := heightmap.Length0, heightmap.Length1;
    hm := seq(width, _ => seq(height, _ => 0));
    var x := 0;
    while x < width
      invariant 0 <= x <= width
      invariant IsHeights(hm, width, height)
      invariant forall i, j :: InGrid(i, j, width, height) ==> hm[i][j] == if i < x then heightmap[i, j].g else 0
    {
      var y := 0;
      while y < height
        invariant 0 <= y <= height
        invariant IsHeights(hm, width, height)
        invariant forall i, j :: InGrid(i, j, width, height) ==>
          hm[i][j] == if i < x || (i == x && j < y) then heightmap[i, j].g else 0
      {
        var green: Byte := heightmap[x, y].g;
        var column: seq<int> := hm[x][y := green];
        hm := hm[x := column];
        y := y + 1;
      }
      x := x + 1;
    }
    HeightsEq(hm, Green(Cells(heightmap), width, height), width, height);
  }

  /**
   * The neighbour scan of one rain iteration at interior cell (x, y): the
   * first strictly lowest neighbour below the cell, or the cell itself.
   */
  method LowestNeighbor(hm: Heights, width: nat, height: nat, x: int, y: int)
    returns (minHeight: int, minX: int, minY: int)
    requires IsHeights(hm, width, height) && Interior(x, y, width, height)
    ensures Lowest(minHeight, minX, minY) == MinScan(hm, width, height, x, y, 0, Lowest(hm[x][y], x, y))
  {
    var centerHeight := hm[x][y];
    minHeight, minX, minY := centerHeight, x, y;
    ghost var goal := MinScan(hm, width, height, x, y, 0, Lowest(centerHeight, x, y));
    var dx := -1;
    while dx < 2
      invariant -1 <= dx <= 2
      invariant goal == MinScan(hm, width, height, x, y, ScanPos(dx, -1), Lowest(minHeight, minX, minY))
    {
      var dy := -1;
      while dy < 2
        invariant -1 <= dy <= 2
        invariant goal == MinScan(hm, width, height, x, y, ScanPos(dx, dy), Lowest(minHeight, minX, minY))
      {
        ghost var before := Lowest(minHeight, minX, minY);
        MinScanAt(hm, width, height, x, y, dx, dy, before);
        if dx != 0 || dy != 0 {
          var neighborX, neighborY := x + dx, y + dy;
          if 0 <= neighborX < width && 0 <= neighborY < height {
            var neighborHeight := hm[neighborX][neighborY];
            if neighborHeight < minHeight {
              minHeight, minX, minY := neighborHeight, neighborX, neighborY;
            }
          }
        }
        assert Lowest(minHeight, minX, minY) == ScanUpdate(hm, width, height, x, y, dx, dy, before);
        dy := dy + 1;
      }
      dx := dx + 1;
    }
  }

  /** The result of the neighbour scan decides the step of a walker on an interior cell. */
  lemma StepFromScan(hm: Heights, width: nat, height: nat, x: int, y: int, minHeight: int, minX: int, minY: int)
    requires IsHeights(hm, width, height) && Interior(x, y, width, height)
    requires Lowest(minHeight, minX, minY) == MinScan(hm, width, height, x, y, 0, Lowest(hm[x][y], x, y))
    ensures Step(hm, width, height, x, y) == if minHeight < hm[x][y] then Some((minX, minY)) else None
  {
  }

  lemma SetOfAppend(path: seq<(int, int)>, p: (int, int))
    ensures SetOf(path + [p]) == SetOf(path) + {p}
  {
    assert (path + [p])[..|path|] == path;
  }

  /**
   * What a river run reads: `g0` and `c0` are the buffers at the start, `hm`
   * is the green snapshot of `g0` and `flow` its flow field.
   */
  ghost predicate RiverSetup(g0: Grid, c0: Grid, hm: Heights, flow: FlowField, width: nat, height: nat)
  {
    IsGrid(g0, width, height) && IsGrid(c0, width, height) && IsHeights(hm, width, height) &&
    FlowOf(flow, hm, width, height) &&
    forall i, j :: InGrid(i, j, width, height) ==> hm[i][j] == g0[i][j].g
  }

  /** Carves cell (x, y): grey at `level` in the height buffer, the water colour in the colour buffer. */
  method CarveCell(heightmap: array2<Pixel>, colormap: array2<Pixel>, x: int, y: int, level: Byte,
                   ghost g0: Grid, ghost c0: Grid, ghost cells: set<(int, int)>, ghost erosionFactor: int)
    requires heightmap != colormap
    requires colormap.Length0 == heightmap.Length0 && colormap.Length1 == heightmap.Length1
    requires IsGrid(g0, heightmap.Length0, heightmap.Length1) && IsGrid(c0, heightmap.Length0, heightmap.Length1)
    requires IsI16(erosionFactor) && InGrid(x, y, heightmap.Length0, heightmap.Length1)
    requires level == CarveLevel(g0[x][y].g, erosionFactor)
    requires forall i, j :: InGrid(i, j, heightmap.Length0, heightmap.Length1) ==>
      (heightmap[i, j], colormap[i, j]) == RiverPixel(g0, c0, heightmap.Length0, heightmap.Length1, cells, erosionFactor, i, j)
    modifies heightmap, colormap
    ensures forall i, j :: InGrid(i, j, heightmap.Length0, heightmap.Length1) ==>
      (heightmap[i, j], colormap[i, j]) ==
      RiverPixel(g0, c0, heightmap.Length0, heightmap.Length1, cells + {(x, y)}, erosionFactor, i, j)
  {
    heightmap[x, y] := Rgba(level, level, level, 255);
    colormap[x, y] := COLORS[0];
  }

  /**
   * One rain iteration of the walker from `start`, standing at (x, y) after
   * `n` iterations with `path` carved: on an interior cell, scan the
   * neighbours; if the lowest is strictly below the cell, carve it in both
   * buffers and move there. `carved` holds the cells carved by earlier rivers.
   */
  method RainIteration(heightmap: array2<Pixel>, colormap: array2<Pixel>, hm: Heights, ghost flow: FlowField,
                       ghost start: (int, int), ghost n: nat, x: int, y: int, ghost path: seq<(int, int)>,
                       erosionFactor: int, ghost g0: Grid, ghost c0: Grid, ghost carved: set<(int, int)>)
    returns (nextX: int, nextY: int, ghost nextPath: seq<(int, int)>)
    requires heightmap != colormap
    requires colormap.Length0 == heightmap.Length0 && colormap.Length1 == heightmap.Length1
    requires RiverSetup(g0, c0, hm, flow, heightmap.Length0, heightmap.Length1)
    requires IsI16(erosionFactor) && InGrid(start.0, start.1, heightmap.Length0, heightmap.Length1)
    requires Walk(flow, heightmap.Length0, heightmap.Length1, start, n) == Walker(x, y, path)
    requires forall i, j :: InGrid(i, j, heightmap.Length0, heightmap.Length1) ==>
      (heightmap[i, j], colormap[i, j]) ==
      RiverPixel(g0, c0, heightmap.Length0, heightmap.Length1, carved + SetOf(path), erosionFactor, i, j)
    modifies heightmap, colormap
    ensures Walk(flow, heightmap.Length0, heightmap.Length1, start, n + 1) == Walker(nextX, nextY, nextPath)
    ensures forall i, j :: InGrid(i, j, heightmap.Length0, heightmap.Length1) ==>
      (heightmap[i, j], colormap[i, j]) ==
      RiverPixel(g0, c0, heightmap.Length0, heightmap.Length1, carved + SetOf(nextPath), erosionFactor, i, j)
  {
    var width, height := heightmap.Length0, heightmap.Length1;
    WalkNext(flow, width, height, start, n, x, y, path);
    assert flow[x][y] == Step(hm, width, height, x, y);
    nextX, nextY, nextPath := x, y, path;
    if x > 0 && x < width - 1 && y > 0 && y < height - 1 {
      var centerHeight := hm[x][y];
      var minHeight, minX, minY := LowestNeighbor(hm, width, height, x, y);
      StepFromScan(hm, width, height, x, y, minHeight, minX, minY);
      if minHeight < centerHeight {
        var newHeight := SaturatingSubI16(minHeight, erosionFactor);
        var level := if newHeight < 255 then newHeight else 255;
        level := if level > 0 then level else 0;
        assert level == CarveLevel(g0[minX][minY].g, erosionFactor);
        CarveCell(heightmap, colormap, minX, minY, level, g0, c0, carved + SetOf(path), erosionFactor);
        SetOfAppend(path, (minX, minY));
        nextX, nextY, nextPath := minX, minY, path + [(minX, minY)];
      }
    }
  }

  /**
   * One river of `simulate_river_flow`: the walker from `start` runs
   * `rainIterations` rain iterations, carving each cell it moves onto in both
   * buffers. `carved` holds the cells carved by the earlier rivers.
   */
  method RunWalker(heightmap: array2<Pixel>, colormap: array2<Pixel>, hm: Heights, ghost flow: FlowField, start: (int, int),
                   rainIterations: nat, erosionFactor: int, ghost g0: Grid, ghost c0: Grid, ghost carved: set<(int, int)>)
    requires heightmap != colormap
    requires colormap.Length0 == heightmap.Length0 && colormap.Length1 == heightmap.Length1
    requires RiverSetup(g0, c0, hm, flow, heightmap.Length0, heightmap.Length1)
    requires IsI16(erosionFactor) && InGrid(start.0, start.1, heightmap.Length0, heightmap.Length1)
    requires forall i, j :: InGrid(i, j, heightmap.Length0, heightmap.Length1) ==>
      (heightmap[i, j], colormap[i, j]) == RiverPixel(g0, c0, heightmap.Length0, heightmap.Length1, carved, erosionFactor, i, j)
    modifies heightmap, colormap
    ensures var path := Walk(flow, heightmap.Length0, heightmap.Length1, start, rainIterations).carved;
      forall i, j :: InGrid(i, j, heightmap.Length0, heightmap.Length1) ==>
        (heightmap[i, j], colormap[i, j]) ==
        RiverPixel(g0, c0, heightmap.Length0, heightmap.Length1, carved + SetOf(path), erosionFactor, i, j)
  {
    var x, y := start.0, start.1;
    ghost var path: seq<(int, int)> := [];
    assert carved + SetOf(path) == carved;
    var iteration := 0;
    while iteration < rainIterations
      invariant 0 <= iteration <= rainIterations
      invariant Walk(flow, heightmap.Length0, heightmap.Length1, start, iteration) == Walker(x, y, path)
      invariant forall i, j :: InGrid(i, j, heightmap.Length0, heightmap.Length1) ==>
        (heightmap[i, j], colormap[i, j]) ==
        RiverPixel(g0, c0, heightmap.Length0, heightmap.Length1, carved + SetOf(path), erosionFactor, i, j)
    {
      x, y, path := RainIteration(heightmap, colormap, hm, flow, start, iteration, x, y, path, erosionFactor, g0, c0, carved);
      iteration := iteration + 1;
    }
  }

  /**
   * The rivers of `simulate_river_flow`, one walker after the other, walker k
   * starting at `starts[k]`: together they carve every cell of `RiverCells`.
   */
  method RunRivers(heightmap: array2<Pixel>, colormap: array2<Pixel>, hm: Heights, ghost flow: FlowField, starts: seq<(int, int)>,
                   rainIterations: nat, erosionFactor: int, ghost g0: Grid, ghost c0: Grid)
    requires heightmap != colormap
    requires colormap.Length0 == heightmap.Length0 && colormap.Length1 == heightmap.Length1
    requires RiverSetup(g0, c0, hm, flow, heightmap.Length0, heightmap.Length1)
    requires IsI16(erosionFactor) && CellsInGrid(starts, heightmap.Length0, heightmap.Length1)
    requires forall i, j :: InGrid(i, j, heightmap.Length0, heightmap.Length1) ==>
      (heightmap[i, j], colormap[i, j]) == (g0[i][j], c0[i][j])
    modifies heightmap, colormap
    ensures var cells := RiverCells(flow, heightmap.Length0, heightmap.Length1, starts, rainIterations);
      forall i, j :: InGrid(i, j, heightmap.Length0, heightmap.Length1) ==>
        (heightmap[i, j], colormap[i, j]) == RiverPixel(g0, c0, heightmap.Length0, heightmap.Length1, cells, erosionFactor, i, j)
  {
    var width, height := heightmap.Length0, heightmap.Length1;
    ghost var carved: set<(int, int)> := {};
    var river := 0;
    while river < |starts|
      invariant 0 <= river <= |starts|
      invariant carved == RiverCells(flow, width, height, starts[..river], rainIterations)
      invariant forall i, j :: InGrid(i, j, width, height) ==>
        (heightmap[i, j], colormap[i, j]) == RiverPixel(g0, c0, width, height, carved, erosionFactor, i, j)
    {
      RunWalker(heightmap, colormap, hm, flow, starts[river], rainIterations, erosionFactor, g0, c0, carved);
      ghost var prefix := starts[..river + 1];
      assert prefix[..river] == starts[..river] && prefix[river] == starts[river];
      ghost var cells := SetOf(Walk(flow, width, height, starts[river], rainIterations).carved);
      assert RiverCells(flow, width, height, prefix, rainIterations) == carved + cells;
      carved := carved + cells;
      river := river + 1;
    }
    assert starts[..river] == starts;
  }

  /**
   * `simulate_river_flow`: reads the green snapshot once, then runs the
   * rivers, walker k starting at `starts[k]` (the source draws these from a
   * seeded generator). Always `Ok`.
   */
  method SimulateRiverFlow(heightmap: array2<Pixel>, colormap: array2<Pixel>, rainIterations: nat, erosionFactor: int,
                           numRivers: nat, starts: seq<(int, int)>)
    returns (result: Result<()>)
    requires heightmap != colormap
    requires colormap.Length0 == heightmap.Length0 && colormap.Length1 == heightmap.Length1
    requires IsI16(erosionFactor)
    requires |starts| == numRivers
    requires numRivers > 0 ==> HasInterior(heightmap.Length0, heightmap.Length1)
    requires InteriorCells(starts, heightmap.Length0, heightmap.Length1)
    modifies heightmap, colormap
    ensures result == Ok(())
    ensures (Cells(heightmap), Cells(colormap)) ==
      Rivers(old(Cells(heightmap)), old(Cells(colormap)), heightmap.Length0, heightmap.Length1, starts, rainIterations, erosionFactor)
  {
    var width, height := heightmap.Length0, heightmap.Length1;
    ghost var g0, c0 := Cells(heightmap), Cells(colormap);
    var hm := GreenSnapshot(heightmap);
    ghost var flow := Flow(hm, width, height);
    RunRivers(heightmap, colormap, hm, flow, starts, rainIterations, erosionFactor, g0, c0);
    ghost var r := Rivers(g0, c0, width, height, starts, rainIterations, erosionFactor);
    GridEq(Cells(heightmap), r.0, width, height);
    GridEq(Cells(colormap), r.1, width, height);
    result := Ok(());
  }

  // ---------------------------------------------------------------------------
  // Resize guard
  // ---------------------------------------------------------------------------

  /**
   * `scale_image` on buffer contents `buffer`: a zero target width or height
   * is refused with an error and the buffer is kept as it was; otherwise the
   * buffer becomes `resized`, the library's resize of `buffer` to the target
   * size, which is not part of this model.
   */
  function ScaleImage(buffer: Grid, targetWidth: nat, targetHeight: nat, resized: Grid): (r: (Grid, Result<()>))
    ensures r.1.Err? <==> targetWidth == 0 || targetHeight == 0
    ensures r.1.Err? ==> r.0 == buffer && r.1.message == "Target size should be greater than zero"
    ensures r.1.Ok? ==> r.0 == resized
  {
    if targetWidth == 0 || targetHeight == 0 then
      (buffer, Err("Target size should be greater than zero"))
    else
      (resized, Ok(()))
  }
}
