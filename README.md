# Drawing diff overlay: a Dafny model

Two browser pages overlay an old and a new revision of a technical drawing
so that removed, added and unchanged linework stand out.

- **diff/diff.js, the single-drawing page.**
  - The user loads two images and clicks two reference points on the old drawing, then two on the new one.
  - The page then composites tinted line masks in one of three modes: `delete`, `add` or `mix`.
  - The old drawing is anchored by the two-point similarity transform.
  - The arrow keys nudge the new drawing by 0.5 px until the position is locked.
  - The export paints a white page and runs a low-green pass and a background-flatten pass.
- **pdf-diff/app.js, the multi-page page.**
  - Pages rasterised from new (A) and old (B) PDFs are listed.
  - Pages can be excluded or restored, and reordered by dragging.
  - Starting a comparison pairs the used pages of the two groups in list order.
  - Each pair is drawn with the new page in blue under an adjustment (shift and rotation) and the old page in red.
  - The purple of their overlap is turned black.
  - The adjustment in force is a shared base, shadowed per page by an override while that override is enabled (`cur()`).
  - Buttons, drag and arrow keys edit whichever record is in force.

The model has four modules:

- `Raster` (raster.dfy) covers the RGBA buffers (`ImageData.data`) and the four in-place pixel loops:
  - each loop is an `array<int>` method;
  - each method is proved equal to a specification function on the buffer;
  - each function has its meaning and idempotence proved pixel by pixel.
- `Compositing` (compositing.dfy) describes a redraw as data (a `Recipe`):
  - a background, tinted layers with their placement, and pixel passes run in order;
  - `drawImage` blending and canvas geometry are not computed.
- `Diff` (diff.dfy) covers the single-drawing page:
  - the mode recipes and the export recipe;
  - the page state as the class `Session`, whose methods are the event handlers.
- `PdfDiff` (pdf_diff.dfy) covers the multi-page page:
  - the adjustment store as functions on a `map<int, Override>`;
  - page selection, pairing and the drag reorder;
  - the page state as the class `Viewer` with its handlers.

## Model

| member | source | states |
|---|---|---|
| Raster.InkIsSumBelow600 | diff/diff.js:144-145 | The "mean brightness below 200" ink test is exactly "channel sum below 600" on integer channels. |
| Raster.Extracted | pdf-diff/app.js:147-154 | Each pixel of the mask is the tint when its channel sum is below 600. Otherwise it is the same pixel with alpha 0. Length is kept. |
| Raster.ExtractedIsMask | diff/diff.js:143-149 | On valid ImageData with a valid tint, the mask is valid ImageData. Every pixel is either the tint or fully transparent. |
| Raster.ExtractedIdempotent | pdf-diff/app.js:147-154 | With an ink-coloured tint, extracting a mask again changes nothing. |
| Raster.ExtractLine | diff/diff.js:143-149 | The in-place loop leaves the array equal to the tinted mask of its old contents. |
| Raster.OverlapSymmetric | diff/diff.js:238-242 | The overlap test is unchanged when red and blue are swapped. |
| Raster.OverlapBlackened | pdf-diff/app.js:190-195 | A pixel turns black with its alpha kept if and only if r+b>180, \|r-b\|<120 and g<160. Every other pixel is unchanged. |
| Raster.OverlapIdempotent | pdf-diff/app.js:190-195 | Running the overlap pass twice equals running it once. |
| Raster.BlackenOverlap | diff/diff.js:232-248 | The in-place loop leaves the array equal to the overlap pass applied to its old contents. |
| Raster.LowGreenBlackened | diff/diff.js:303-314 | A pixel with g<100 becomes (0,0,0) with its alpha kept. Every other pixel is unchanged. |
| Raster.LowGreenIdempotent | diff/diff.js:303-314 | Running the low-green pass twice equals running it once. |
| Raster.BlackenLowGreen | diff/diff.js:303-314 | The in-place loop leaves the array equal to the low-green pass applied to its old contents. |
| Raster.Flattened | diff/diff.js:322-335 | A pixel with alpha<10 or channel sum>730 becomes opaque white. Every other pixel is unchanged. |
| Raster.FlattenIdempotent | diff/diff.js:322-335 | Flattening twice equals flattening once. |
| Raster.FlattenedIsOpaque | diff/diff.js:322-335 | After flattening, every pixel has alpha at least 10. |
| Raster.FlattenBackground | diff/diff.js:322-335 | The in-place loop leaves the array equal to the flatten pass applied to its old contents. |
| Compositing.ApplyPassesInOrder | diff/diff.js:299-337 | A recipe with one or two passes runs them one after the other, in the order listed. |
| Diff.ModeRecipe | diff/diff.js:184-251 | Canvas cleared to transparent. Two layers from different sources. The old layer is always under the calibration transform and the new one under the free offset. delete: old red, then new black. add: new blue, then old black. mix: new blue, then old red. Passes occur in mix only and are the overlap pass alone. An unknown mode draws nothing. All tints are ink and are not themselves overlap colours. |
| Diff.ModePassesEffect | diff/diff.js:217-251 | The composite is recoloured by the overlap pass in mix and left as is in every other mode. |
| Diff.ExportRecipe | diff/diff.js:259-297 | White page. Same sources and placements as mix. Tints blue and red at alpha 150. Passes: low-green, then flatten. |
| Diff.ExportPassesEffect | diff/diff.js:299-337 | The export passes compute Flattened(LowGreenBlackened(s)). |
| Diff.ExportPixels | diff/diff.js:303-335 | Every exported pixel is one of three things: opaque white; black with the composite's alpha, which is at least 10; or the composited pixel itself, with g>=100 and not background. |
| Diff.Session.constructor | diff/diff.js:13-33 | Initial state: mode delete, stage 0, offset (0,0), unlocked, no images, no points. |
| Diff.Session.Calibrated | diff/diff.js:177-178 | At stage 4, A1 and B1 are the two points clicked on the old drawing and A2 and B2 the two clicked on the new one, in click order. |
| Diff.Session.Frame | diff/diff.js:176-251 | At stage 4, the redraw has two layers in a drawing mode and none otherwise. The overlap pass runs in mix only. |
| Diff.Session.FrameAnchoring | diff/diff.js:192-226 | In every frame the old drawing is placed by the clicked calibration and the new one at the current offset, whatever the mode. |
| Diff.Session.Export | diff/diff.js:257-297 | An export exists exactly when all four points are set. It is the export recipe for those points and the current offset. |
| Diff.Session.SetMode | diff/diff.js:21-27 | Sets the mode. Redraws if and only if calibration is complete, and the redraw is the new mode's recipe. |
| Diff.Session.ResetGuide | diff/diff.js:56-68 | With both images loaded, stage 0 and empty point lists. Otherwise nothing changes. Offset and lock are never touched. |
| Diff.Session.LoadOld | diff/diff.js:36-38 | Marks the old image loaded, then resets calibration when the new image is also loaded. |
| Diff.Session.LoadNew | diff/diff.js:39-41 | Marks the new image loaded, then resets calibration when the old image is also loaded. |
| Diff.Session.LockPosition | diff/diff.js:70-73 | Sets the lock. No other member clears it. |
| Diff.Session.Click | diff/diff.js:76-121 | Ignored without both images. Stages 0-1 append to the old points, 2-3 to the new ones. Stage advances by one up to 4. Only the fourth click draws, and it draws the current mode's recipe. Clicks at stage 4 change no point. Each accepted click registers one keydown listener. The invariant \|old points\|=min(stage,2), \|new points\|=max(0,stage-2) holds throughout. |
| Diff.Session.KeyDown | diff/diff.js:79-92 | One listener: when stage is 4 and unlocked, an arrow key moves the new drawing by exactly 0.5 on its axis and redraws. Any other key redraws without moving. Before stage 4 or when locked, nothing changes. |
| Diff.Session.KeyDownAsWired | diff/diff.js:76-92 | A key press as wired runs every registered listener. The offset moves by (number of listeners) x 0.5. |
| Diff.LoadBoth | diff/diff.js:36-41 | Loading both drawings into a fresh session leaves it at stage 0, ready for the first click, in delete mode with no offset and unlocked. |
| Diff.Calibrate | diff/diff.js:76-120 | Loading both images and clicking four points reaches stage 4 with that calibration, four listeners, the delete mode and no offset. |
| Diff.CalibrateByClicks | diff/diff.js:96-120 | Clicks p1..p4 give A1=p1, B1=p2, A2=p3, B2=p4. The frame drawn is old red under that calibration, then new black unshifted. |
| Diff.ArrowRightAfterCalibration | diff/diff.js:79-88 | Right after calibration one ArrowRight press should move 0.5, but as wired it moves 2.0 (see Findings). |
| PdfDiff.Cur | pdf-diff/app.js:128-131 | The adjustment in force is the page's override when it exists and is enabled. Otherwise it is the base. |
| PdfDiff.Toggled | pdf-diff/app.js:246-250 | Other pages are untouched. A first toggle creates a disabled copy of the base. Later toggles flip enabled and keep the adjustment. |
| PdfDiff.ToggleTwiceRestores | pdf-diff/app.js:246-248 | Toggling an existing override twice restores the store exactly, whatever the base was in between. |
| PdfDiff.Disabled | pdf-diff/app.js:256 | Same pages. Every override is off and keeps its own adjustment. |
| PdfDiff.ApplyToAllShowsEverywhere | pdf-diff/app.js:252-258 | After "apply to all", every page shows the adjustment that was in force on the page where it was pressed. |
| PdfDiff.Used | pdf-diff/app.js:322-323 | The selection (the used pages of the group, kept in list order) is no longer than the list. |
| PdfDiff.UsedMembers | pdf-diff/app.js:322-323 | The selection holds exactly the used pages of the group. |
| PdfDiff.UsedAppend | pdf-diff/app.js:322-323 | Selection keeps list order: the selection of a concatenation is the concatenation of the selections. |
| PdfDiff.BuildPairs | pdf-diff/app.js:330-334 | Exactly min(\|A\|,\|B\|) pairs. Pair i holds the images of the i-th new and i-th old page. |
| PdfDiff.IndexOf | pdf-diff/app.js:100 | First position of the id, or -1 exactly when absent. |
| PdfDiff.ToggledUse | pdf-diff/app.js:105-109 | Flips use on the first page with the id and leaves every other page and all ids as they were. An unknown id changes nothing. |
| PdfDiff.ToggleUseTwice | pdf-diff/app.js:105-107 | Pressing a page's exclude/restore button twice restores the list. |
| PdfDiff.Insert | pdf-diff/app.js:100 | Insertion adds exactly that page (multiset). |
| PdfDiff.ConsSorted | pdf-diff/app.js:100 | A page whose key is no larger than every key of a sorted list can go in front, and the list stays sorted. |
| PdfDiff.InsertSorted | pdf-diff/app.js:100 | Inserting into a list sorted by dragged position keeps it sorted. |
| PdfDiff.SortedByPosition | pdf-diff/app.js:99-100 | The reordered list is a permutation of the old one, sorted by each page's position in the dragged id list. |
| PdfDiff.SortedByPositionKeepsOrder | pdf-diff/app.js:100 | A list already strictly in dragged order is left unchanged. |
| PdfDiff.InsertAvoidsId | pdf-diff/app.js:100 | Inserting a page with another id brings no page with a given id into the list. |
| PdfDiff.InsertKeepsUniqueIds | pdf-diff/app.js:100 | Inserting a page whose id is new keeps the list's ids unique. |
| PdfDiff.SortedAvoidsId | pdf-diff/app.js:99-100 | Reordering brings in no id the list did not have. |
| PdfDiff.SortedKeepsUniqueIds | pdf-diff/app.js:99-100 | Reordering keeps page ids unique. |
| PdfDiff.ReorderInPlace | pdf-diff/app.js:99-100 | With unique page ids, a drop that leaves every item where it was keeps the page list unchanged. |
| PdfDiff.FrameRecipe | pdf-diff/app.js:167-195 | Transparent canvas. First the new page in blue (0,120,255) at alpha 120, shifted and rotated by the adjustment. Then the old page in red (255,0,0) at alpha 120 at the origin. The overlap pass always runs. Both tints are ink and are not themselves overlap colours. |
| PdfDiff.FramePassesEffect | pdf-diff/app.js:187-195 | Whatever the adjustment, the composite is recoloured by the overlap pass. |
| PdfDiff.Viewer.constructor | pdf-diff/app.js:118-125 | Empty lists, index 0, zero base, no overrides, comparison hidden, not dragging. |
| PdfDiff.Viewer.Frame | pdf-diff/app.js:160-195 | The redraw puts the new page first, shifted and rotated by the adjustment Cur selects for the current pair, then the old page at the origin, then the overlap pass. |
| PdfDiff.Viewer.AddPage | pdf-diff/app.js:45-52 | The rasterised page is appended in use, under an id no page has, so page ids stay unique. |
| PdfDiff.Viewer.ToggleUse | pdf-diff/app.js:105-109 | Reports whether the id exists. The list becomes ToggledUse of the old list, and page ids stay unique. |
| PdfDiff.Viewer.Reorder | pdf-diff/app.js:98-101 | The list becomes the old list sorted by dragged position, and page ids stay unique. A drop that leaves every item in place keeps the list unchanged. |
| PdfDiff.Viewer.StartCompare | pdf-diff/app.js:320-343 | Starts if and only if both groups have a used page. It then pairs the used pages in order, up to the shorter group, and resets index to 0 and base to zero. Overrides are kept. When refused, nothing changes. |
| PdfDiff.Viewer.Prev | pdf-diff/app.js:225-227 | Moves back one pair unless at the first. The index stays valid. |
| PdfDiff.Viewer.Next | pdf-diff/app.js:228-230 | Moves forward one pair unless at the last. The index stays valid. |
| PdfDiff.Viewer.Back | pdf-diff/app.js:231-234 | Hides the comparison. |
| PdfDiff.Viewer.UpdateActive | pdf-diff/app.js:128-131 | Writing through cur() lands in the enabled override, or else in the base. Afterwards the adjustment in force is the written one. Nothing else changes. |
| PdfDiff.Viewer.RotateLeft | pdf-diff/app.js:240 | The adjustment in force turns by -0.10 degrees. Only that record changes. |
| PdfDiff.Viewer.RotateRight | pdf-diff/app.js:241 | The adjustment in force turns by +0.10 degrees. Only that record changes. |
| PdfDiff.Viewer.TogglePerPage | pdf-diff/app.js:246-250 | The override store becomes Toggled for the current page. |
| PdfDiff.Viewer.ApplyToAll | pdf-diff/app.js:252-258 | The base becomes the adjustment that was in force, and every override is switched off. |
| PdfDiff.Viewer.ResetPage | pdf-diff/app.js:260-264 | The current page gets a disabled copy of the base, so the base is in force there. |
| PdfDiff.Viewer.MouseDown | pdf-diff/app.js:273-279 | Only while comparing: starts a drag, remembering the shift in force and the pointer. |
| PdfDiff.Viewer.MouseMove | pdf-diff/app.js:281-287 | While dragging, the shift in force becomes the start shift plus the pointer's travel. Rotation is kept and only that record changes. |
| PdfDiff.Viewer.MouseUp | pdf-diff/app.js:289 | Ends the drag. |
| PdfDiff.Viewer.KeyDown | pdf-diff/app.js:294-313 | Redraws if and only if comparing and the key is an arrow. Then the shift in force moves 0.5 on that axis and only that record changes. Otherwise nothing changes. |

## Left out

- **Loading and rendering.** The following are outside the model:
  - file reading, image decoding and PDF.js rasterisation;
  - blob URLs (a page's image is an opaque string);
  - thumbnail rendering, the Sortable widget and guide texts;
  - `alert`, focus handling and the page-info/button labels.
- **Canvas drawing.** `drawImage` alpha blending, `clearRect`/`fillRect` and the canvas transforms are not computed. A redraw is described by its `Recipe`, and the pixel passes are modelled on the composited buffer that the browser would hand back.
- **The similarity transform.** Scale, rotation and translation from the two point pairs need `Math.hypot`/`Math.atan2` in floating point, so they are not modelled; a placement only records the calibration. The source does not guard against two coincident reference points, which would divide by zero.
- **getClickPos.** The conversion from client to canvas coordinates is not modelled: a click arrives as a point in canvas pixels.
- **Key and pointer events.** `preventDefault` and the browser's scroll handling are left out.
- **Image readiness.** pdf-diff skips drawing while either image has no width (`computeAndDraw`). It triggers the redraw only from `newImg.onload` (`loadImages`). That timing is not modelled. `Viewer.Frame` is what computeAndDraw draws when it runs with both images loaded. If the old image loads last, nothing is redrawn until the next handler runs.
- **The comparison area at start-up.** Its initial visibility comes from the page's HTML, which is not part of this model. The `Viewer` constructor takes it as hidden.
- **The PNG download.** The data-URL encoding and the download click are left out. `Session.Export` stops at the recipe.
- **Run-time exceptions.** Failing handlers are modelled by their state effect:
  - savePNG before calibration throws on the missing points, so `Session.Export` gives `None`.
  - toggleUse with an unknown id throws before changing anything, so `ToggledUse` leaves the list as it is.
- PdfDiff.Viewer.AddPage: the id comes from `crypto.randomUUID()`. The model does not generate ids; it takes the id's freshness (no page of the list has it) as a precondition. Page-id uniqueness in `Viewer.Valid` rests on that assumption.
- PdfDiff.Viewer.ApplyToAll: the `for ... in` loop over the overrides is stated as one simultaneous map update. No other code runs between its iterations.
- PdfDiff.SortedByPosition: its contract states permutation and order but not stability. Equal keys arise only for pages whose ids are missing from the dragged list. `ReorderInPlace` covers the stable case that matters: a drop that leaves every item in place.
- **Object identity.** `cur()` returns the live base or override object and handlers mutate it. This is modelled as writing a new value into the selected record (`Viewer.UpdateActive`). No other alias of these objects exists in the source.
- **Number format.** JavaScript numbers are doubles, but offsets and adjustments are modelled as exact reals and channels as unbounded integers constrained to 0..255 where it matters.

## Findings

| source | as written | input that shows it | evidently intended | confidence | as-written member | corrected member |
|---|---|---|---|---|---|---|
| diff/diff.js:79-92 | Every canvas click made with both images loaded registers another keydown listener. A key press runs all of them, so the offset moves once per registered listener. | Load both images and click four reference points, then press ArrowRight once. Four listeners run and the new drawing moves 2.0 px. | One press moves the new drawing by one step of 0.5 px, as the constant's comment at line 83 says. | high; not executed | Diff.Session.KeyDownAsWired, Diff.ArrowRightAfterCalibration | Diff.Session.KeyDown |
