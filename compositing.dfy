/** A redraw as data: which extracted mask goes on the canvas, in which
    tint, placed how, in which order, and which pixel passes follow. The
    browser's geometry and alpha-over blending are not modelled; the
    passes are, through Raster. */
module Compositing {
  import opened Raster

  datatype Option<T> = None | Some(value: T)

  /** A point in the pixel space of one image. */
  datatype Point = Point(x: real, y: real)

  /** Two reference points on the old drawing and the matching two on the new. */
  datatype Calibration = Calibration(a1: Point, b1: Point, a2: Point, b2: Point)

  datatype Source = OldImage | NewImage

  /** How a layer is placed on the canvas. */
  datatype Placement =
    | AtOrigin                                        // drawn at (0,0), unmoved
    | Shift(dx: real, dy: real)                       // translated only
    | ShiftRotate(dx: real, dy: real, degrees: real)  // rotated about the canvas centre, then shifted by (dx, dy)
    | Similarity(cal: Calibration)                    // the two-point similarity transform

  /** One drawImage of a tinted mask of one source. */
  datatype Layer = Layer(source: Source, tint: Rgba, place: Placement)

  datatype Pass = OverlapToBlack | LowGreenToBlack | FlattenToWhite

  /** Fill the canvas with background, draw layers in order, then run passes in order. */
  datatype Recipe = Recipe(background: Rgba, layers: seq<Layer>, passes: seq<Pass>)

  /** Horizontal and vertical offset change of one arrow key press of the given step. */
  function ArrowDx(key: string, step: real): real {
    if key == "ArrowLeft" then -step else if key == "ArrowRight" then step else 0.0
  }

  function ArrowDy(key: string, step: real): real {
    if key == "ArrowUp" then -step else if key == "ArrowDown" then step else 0.0
  }

  /** What clearRect leaves behind. */
  const Transparent := Rgba(0, 0, 0, 0)

  function ApplyPass(s: seq<int>, p: Pass): (t: seq<int>)
    requires |s| % 4 == 0
    ensures |t| == |s|
  {
    match p
    case OverlapToBlack => OverlapBlackened(s)
    case LowGreenToBlack => LowGreenBlackened(s)
    case FlattenToWhite => Flattened(s)
  }

  /** The composited buffer after a recipe's passes, in order. */
  function ApplyPasses(s: seq<int>, ps: seq<Pass>): (t: seq<int>)
    requires |s| % 4 == 0
    ensures |t| == |s|
    decreases |ps|
  {
    if ps == [] then s else ApplyPasses(ApplyPass(s, ps[0]), ps[1..])
  }

  /** A recipe with one or two passes runs them in the order listed. */
  lemma ApplyPassesInOrder(s: seq<int>, p: Pass, q: Pass)
    requires |s| % 4 == 0
    ensures ApplyPasses(s, [p]) == ApplyPass(s, p)
    ensures ApplyPasses(s, [p, q]) == ApplyPass(ApplyPass(s, p), q)
  {
    assert [p][1..] == [];
    assert [p, q][1..] == [q];
    var t := ApplyPass(s, p);
    assert [q][1..] == [];
    assert ApplyPasses(t, [q]) == ApplyPasses(ApplyPass(t, q), []);
  }
}
