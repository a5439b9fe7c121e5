/** The single-drawing comparison page: four calibration clicks (two on the
    old drawing, two on the new), then a composite in one of three modes,
    with the new drawing nudged by arrow keys until the position is locked,
    and a flattened export. */
module Diff {
  import opened Raster
  import opened Compositing

  /** Offset change per arrow key press, in canvas pixels. */
  const KeyStep: real := 0.5

  // Tints of the interactive composite.
  const OldRed := Rgba(255, 0, 0, 100)
  const OldBlack := Rgba(0, 0, 0, 255)
  const NewBlue := Rgba(0, 120, 255, 100)
  const NewBlack := Rgba(0, 0, 0, 255)

  // Tints of the export.
  const ExportRed := Rgba(255, 0, 0, 150)
  const ExportBlue := Rgba(0, 120, 255, 150)

  predicate IsDrawingMode(mode: string) {
    mode == "delete" || mode == "add" || mode == "mix"
  }

  /** The interactive composite for a mode: the old drawing is always anchored
      by the calibration, the new drawing always follows the free offset. */
  function ModeRecipe(mode: string, cal: Calibration, dx: real, dy: real): (r: Recipe)
    ensures r.background == Transparent
    ensures |r.passes| > 0 <==> mode == "mix"
    ensures mode == "mix" ==> r.passes == [OverlapToBlack]
    ensures !IsDrawingMode(mode) ==> r.layers == []
    ensures IsDrawingMode(mode) ==> |r.layers| == 2 && r.layers[0].source != r.layers[1].source
    ensures forall l :: l in r.layers ==>
      l.place == (if l.source == OldImage then Similarity(cal) else Shift(dx, dy))
    ensures forall l :: l in r.layers ==> IsInk(l.tint) && !IsOverlap(l.tint)
    ensures mode == "delete" ==>
      r.layers[0].source == OldImage && r.layers[0].tint == OldRed && r.layers[1].tint == NewBlack
    ensures mode == "add" ==>
      r.layers[0].source == NewImage && r.layers[0].tint == NewBlue && r.layers[1].tint == OldBlack
    ensures mode == "mix" ==>
      r.layers[0].source == NewImage && r.layers[0].tint == NewBlue && r.layers[1].tint == OldRed
  {
    var fixed := (t: Rgba) => Layer(OldImage, t, Similarity(cal));
    var free := (t: Rgba) => Layer(NewImage, t, Shift(dx, dy));
    if mode == "delete" then Recipe(Transparent, [fixed(OldRed), free(NewBlack)], [])
    else if mode == "add" then Recipe(Transparent, [free(NewBlue), fixed(OldBlack)], [])
    else if mode == "mix" then Recipe(Transparent, [free(NewBlue), fixed(OldRed)], [OverlapToBlack])
    else Recipe(Transparent, [], [])
  }

  /** Only mix mode recolours the composite, and then by the overlap pass alone. */
  lemma ModePassesEffect(s: seq<int>, mode: string, cal: Calibration, dx: real, dy: real)
    requires |s| % 4 == 0
    ensures ApplyPasses(s, ModeRecipe(mode, cal, dx, dy).passes)
         == if mode == "mix" then OverlapBlackened(s) else s
  {
    if mode == "mix" {
      ApplyPassesInOrder(s, OverlapToBlack, OverlapToBlack);
    }
  }

  /** The export: white page, the new drawing in blue under the free offset,
      the old one in red under the calibration, whatever the current mode. */
  function ExportRecipe(cal: Calibration, dx: real, dy: real): (r: Recipe)
    ensures r.background == OpaqueWhite
    ensures |r.layers| == 2 && forall i :: 0 <= i < 2 ==>
      && r.layers[i].source == ModeRecipe("mix", cal, dx, dy).layers[i].source
      && r.layers[i].place == ModeRecipe("mix", cal, dx, dy).layers[i].place
    ensures r.layers[0].tint == ExportBlue && r.layers[1].tint == ExportRed
    ensures r.passes == [LowGreenToBlack, FlattenToWhite]
  {
    Recipe(OpaqueWhite,
           [Layer(NewImage, ExportBlue, Shift(dx, dy)), Layer(OldImage, ExportRed, Similarity(cal))],
           [LowGreenToBlack, FlattenToWhite])
  }

  /** The export passes are the low-green pass followed by the flatten pass. */
  lemma ExportPassesEffect(s: seq<int>, cal: Calibration, dx: real, dy: real)
    requires |s| % 4 == 0
    ensures ApplyPasses(s, ExportRecipe(cal, dx, dy).passes) == Flattened(LowGreenBlackened(s))
  {
    ApplyPassesInOrder(s, LowGreenToBlack, FlattenToWhite);
  }

  /** What the export leaves in each pixel: opaque white, black that is not
      nearly transparent, or the composited pixel itself when its green is
      100 or more and it was neither nearly transparent nor near white. */
  lemma ExportPixels(s: seq<int>)
    requires |s| % 4 == 0
    ensures forall k :: 0 <= k < |s| / 4 ==>
      var t := PixelAt(Flattened(LowGreenBlackened(s)), k);
      || t == OpaqueWhite
      || (t == Rgba(0, 0, 0, PixelAt(s, k).a) && PixelAt(s, k).a >= 10)
      || (t == PixelAt(s, k) && PixelAt(s, k).g >= 100 && !IsBackground(PixelAt(s, k)))
  {
    var g := LowGreenBlackened(s);
    var f := Flattened(g);
    forall k | 0 <= k < |s| / 4
      ensures var t := PixelAt(f, k);
        || t == OpaqueWhite
        || (t == Rgba(0, 0, 0, PixelAt(s, k).a) && PixelAt(s, k).a >= 10)
        || (t == PixelAt(s, k) && PixelAt(s, k).g >= 100 && !IsBackground(PixelAt(s, k)))
    {
      var p, q := PixelAt(s, k), PixelAt(g, k);
      assert q == (if p.g < 100 then Rgba(0, 0, 0, p.a) else p);
      assert PixelAt(f, k) == (if IsBackground(q) then OpaqueWhite else q);
    }
  }

  /** The page's module state. hasOld/hasNew stand for oldImg/newImg being
      set; listeners counts the keydown listeners the click handler has
      registered so far. */
  class Session {
    var mode: string
    var stage: int
    var offsetX: real
    var offsetY: real
    var positionLocked: bool
    var hasOld: bool
    var hasNew: bool
    var pointsOld: seq<Point>
    var pointsNew: seq<Point>
    var listeners: nat

    /** Clicks so far decide how many points each list holds. */
    ghost predicate Valid()
      reads this
    {
      && 0 <= stage <= 4
      && |pointsOld| == (if stage < 2 then stage else 2)
      && |pointsNew| == (if stage < 2 then 0 else stage - 2)
      && (stage > 0 ==> hasOld && hasNew)
    }

    constructor ()
      ensures Valid()
      ensures mode == "delete" && stage == 0 && offsetX == 0.0 && offsetY == 0.0
      ensures !positionLocked && !hasOld && !hasNew && pointsOld == [] && pointsNew == []
      ensures listeners == 0
    {
      mode := "delete";
      stage := 0;
      offsetX, offsetY := 0.0, 0.0;
      positionLocked := false;
      hasOld, hasNew := false, false;
      pointsOld, pointsNew := [], [];
      listeners := 0;
    }

    /** The four reference points, in click order: A1, B1 on the old
        drawing, A2, B2 on the new one. */
    function Calibrated(): (c: Calibration)
      reads this
      requires Valid() && stage == 4
      ensures [c.a1, c.b1] == pointsOld && [c.a2, c.b2] == pointsNew
    {
      Calibration(pointsOld[0], pointsOld[1], pointsNew[0], pointsNew[1])
    }

    /** What computeAndDraw draws in the current state (see FrameAnchoring
        for where each drawing is placed). */
    function Frame(): (r: Recipe)
      reads this
      requires Valid() && stage == 4
      ensures |r.layers| == (if IsDrawingMode(mode) then 2 else 0)
      ensures r.passes == (if mode == "mix" then [OverlapToBlack] else [])
    {
      ModeRecipe(mode, Calibrated(), offsetX, offsetY)
    }

    /** In every frame the old drawing is placed by the clicked calibration
        and the new one at the current offset, whatever the mode. */
    lemma FrameAnchoring()
      requires Valid() && stage == 4
      ensures forall l :: l in Frame().layers ==>
        l.place == (if l.source == OldImage then Similarity(Calibrated()) else Shift(offsetX, offsetY))
    {
    }

    /** What savePNG produces; before all four points exist it fails on the
        missing points and nothing is exported. */
    function Export(): (r: Option<Recipe>)
      reads this
      requires Valid()
      ensures r.Some? <==> stage == 4
    {
      if stage == 4 then Some(ExportRecipe(Calibrated(), offsetX, offsetY)) else None
    }

    /** Redraws at once only when calibration is complete. */
    method SetMode(m: string) returns (drawn: Option<Recipe>)
      requires Valid()
      modifies this`mode
      ensures Valid() && mode == m
      ensures drawn.Some? <==> stage == 4
      ensures drawn.Some? ==> drawn.value == Frame()
    {
      mode := m;
      if stage == 4 {
        drawn := Some(Frame());
      } else {
        drawn := None;
      }
    }

    /** Restarts calibration, but only once both drawings are loaded; the
        offset and the lock survive. */
    method ResetGuide()
      requires Valid()
      modifies this`stage, this`pointsOld, this`pointsNew
      ensures Valid()
      ensures if hasOld && hasNew
              then stage == 0 && pointsOld == [] && pointsNew == []
              else stage == old(stage) && pointsOld == old(pointsOld) && pointsNew == old(pointsNew)
    {
      if hasOld && hasNew {
        stage := 0;
        pointsOld := [];
        pointsNew := [];
      }
    }

    /** The old drawing finished loading. */
    method LoadOld()
      requires Valid()
      modifies this`hasOld, this`stage, this`pointsOld, this`pointsNew
      ensures Valid() && hasOld
      ensures if hasNew
              then stage == 0 && pointsOld == [] && pointsNew == []
              else stage == old(stage) && pointsOld == old(pointsOld) && pointsNew == old(pointsNew)
    {
      hasOld := true;
      ResetGuide();
    }

    /** The new drawing finished loading. */
    method LoadNew()
      requires Valid()
      modifies this`hasNew, this`stage, this`pointsOld, this`pointsNew
      ensures Valid() && hasNew
      ensures if hasOld
              then stage == 0 && pointsOld == [] && pointsNew == []
              else stage == old(stage) && pointsOld == old(pointsOld) && pointsNew == old(pointsNew)
    {
      hasNew := true;
      ResetGuide();
    }

    /** Freezes the offset; no method clears the lock again. */
    method LockPosition()
      modifies this`positionLocked
      ensures positionLocked
    {
      positionLocked := true;
    }

    /** A calibration click at pos: the first two go to the old drawing, the
        next two to the new one, the fourth draws the composite, later ones
        are ignored. Every click with both drawings loaded also registers
        one more keydown listener. */
    method Click(pos: Point) returns (drawn: Option<Recipe>)
      requires Valid()
      modifies this`stage, this`pointsOld, this`pointsNew, this`listeners
      ensures Valid()
      ensures listeners == old(listeners) + (if hasOld && hasNew then 1 else 0)
      ensures !(hasOld && hasNew) || old(stage) == 4 ==>
        stage == old(stage) && pointsOld == old(pointsOld) && pointsNew == old(pointsNew)
      ensures hasOld && hasNew && old(stage) < 2 ==>
        stage == old(stage) + 1 && pointsOld == old(pointsOld) + [pos] && pointsNew == old(pointsNew)
      ensures hasOld && hasNew && 2 <= old(stage) < 4 ==>
        stage == old(stage) + 1 && pointsNew == old(pointsNew) + [pos] && pointsOld == old(pointsOld)
      ensures drawn.Some? <==> (hasOld && hasNew && old(stage) == 3)
      ensures drawn.Some? ==> stage == 4 && drawn.value == Frame()
    {
      drawn := None;
      if !hasOld || !hasNew {
        return;
      }
      listeners := listeners + 1;
      if stage == 0 {
        pointsOld := pointsOld + [pos];
        stage := 1;
      } else if stage == 1 {
        pointsOld := pointsOld + [pos];
        stage := 2;
      } else if stage == 2 {
        pointsNew := pointsNew + [pos];
        stage := 3;
      } else if stage == 3 {
        pointsNew := pointsNew + [pos];
        stage := 4;
        drawn := Some(Frame());
      }
    }

    /** One keydown listener: moves the new drawing by half a pixel per arrow
        key, only once calibrated and while the position is not locked; any
        key in that state redraws. */
    method KeyDown(key: string) returns (drawn: Option<Recipe>)
      requires Valid()
      modifies this`offsetX, this`offsetY
      ensures Valid()
      ensures stage != 4 || positionLocked ==>
        offsetX == old(offsetX) && offsetY == old(offsetY) && drawn == None
      ensures stage == 4 && !positionLocked ==>
        && offsetX == old(offsetX) + ArrowDx(key, KeyStep)
        && offsetY == old(offsetY) + ArrowDy(key, KeyStep)
        && drawn == Some(Frame())
    {
      if stage != 4 || positionLocked {
        return None;
      }
      if key == "ArrowUp" { offsetY := offsetY - KeyStep; }
      if key == "ArrowDown" { offsetY := offsetY + KeyStep; }
      if key == "ArrowLeft" { offsetX := offsetX - KeyStep; }
      if key == "ArrowRight" { offsetX := offsetX + KeyStep; }
      drawn := Some(Frame());
    }

    /** One key press as the page is wired: every registered listener runs,
        each doing what KeyDown does. */
    method KeyDownAsWired(key: string) returns (redraws: nat)
      requires Valid()
      modifies this`offsetX, this`offsetY
      ensures Valid()
      ensures stage != 4 || positionLocked ==>
        offsetX == old(offsetX) && offsetY == old(offsetY) && redraws == 0
      ensures stage == 4 && !positionLocked ==>
        && offsetX == old(offsetX) + listeners as real * ArrowDx(key, KeyStep)
        && offsetY == old(offsetY) + listeners as real * ArrowDy(key, KeyStep)
        && redraws == listeners
    {
      redraws := 0;
      var n := 0;
      while n < listeners
        invariant Valid()
        invariant 0 <= n <= listeners
        invariant stage != 4 || positionLocked ==>
          offsetX == old(offsetX) && offsetY == old(offsetY) && redraws == 0
        invariant stage == 4 && !positionLocked ==>
          && offsetX == old(offsetX) + n as real * ArrowDx(key, KeyStep)
          && offsetY == old(offsetY) + n as real * ArrowDy(key, KeyStep)
          && redraws == n
      {
        var drawn := KeyDown(key);
        if drawn.Some? {
          redraws := redraws + 1;
        }
        n := n + 1;
      }
    }
  }

  /** Loading both drawings and clicking four points, in this order, yields
      the calibration A1 = p1, B1 = p2, A2 = p3, B2 = p4 and draws the default
      (delete) composite with no offset. */
  method CalibrateByClicks(p1: Point, p2: Point, p3: Point, p4: Point)
    returns (cal: Calibration, frame: Recipe)
    ensures cal == Calibration(p1, p2, p3, p4)
    ensures frame.layers == [Layer(OldImage, OldRed, Similarity(cal)), Layer(NewImage, NewBlack, Shift(0.0, 0.0))]
  {
    var s := Calibrate(p1, p2, p3, p4);
    cal := s.Calibrated();
    frame := s.Frame();
  }

  /** A fresh session with both drawings loaded, ready for the first click. */
  method LoadBoth() returns (s: Session)
    ensures fresh(s) && s.Valid() && s.hasOld && s.hasNew && s.stage == 0 && s.listeners == 0
    ensures s.mode == "delete" && s.offsetX == 0.0 && s.offsetY == 0.0 && !s.positionLocked
  {
    s := new Session();
    s.LoadOld();
    s.LoadNew();
  }

  /** A fresh session with both drawings loaded and four clicks made. */
  method Calibrate(p1: Point, p2: Point, p3: Point, p4: Point) returns (s: Session)
    ensures fresh(s) && s.Valid() && s.stage == 4 && s.listeners == 4
    ensures s.mode == "delete" && s.offsetX == 0.0 && s.offsetY == 0.0 && !s.positionLocked
    ensures s.Calibrated() == Calibration(p1, p2, p3, p4)
  {
    s := LoadBoth();
    var drawn := s.Click(p1);
    drawn := s.Click(p2);
    drawn := s.Click(p3);
    drawn := s.Click(p4);
  }

  /** Right after calibration one ArrowRight press should move the new
      drawing by one step of 0.5; as wired, the four listeners registered by
      the four clicks move it by 2.0. */
  method ArrowRightAfterCalibration(p1: Point, p2: Point, p3: Point, p4: Point)
    returns (intended: real, wired: real)
    ensures intended == 0.5
    ensures wired == 2.0
  {
    var s := Calibrate(p1, p2, p3, p4);
    var drawn := s.KeyDown("ArrowRight");
    intended := s.offsetX;
    var t := Calibrate(p1, p2, p3, p4);
    var redraws := t.KeyDownAsWired("ArrowRight");
    wired := t.offsetX;
  }
}
