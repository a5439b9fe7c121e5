/** The multi-page comparison page: pages of new (A) and old (B) PDFs are
    listed, excluded or reordered, paired up, and each pair is overlaid with
    the new page in blue under a free adjustment (shift and rotation) and the
    old page in red fixed at the origin. The adjustment is a shared base,
    shadowed per page by an override while that override is enabled. */
module PdfDiff {
  import opened Raster
  import opened Compositing

  /** A: the new drawing, B: the old drawing. */
  datatype Group = A | B

  /** One rasterised PDF page; image stands for its blob URL. */
  datatype Page = Page(id: string, fileName: string, pageNo: int, image: string, use: bool, group: Group)

  /** One comparison: the image of a new page and of an old page. */
  datatype Pair = Pair(a: string, b: string)

  /** Shift in canvas pixels and rotation in degrees of the new page. */
  datatype Adjust = Adjust(dx: real, dy: real, rot: real)

  /** A page's own adjustment, used while enabled and kept while disabled. */
  datatype Override = Override(enabled: bool, adj: Adjust)

  const Zero := Adjust(0.0, 0.0, 0.0)

  /** Rotation per button click, in degrees. */
  const RotStep: real := 0.10

  /** Shift per arrow key press, in canvas pixels. */
  const KeyStep: real := 0.5

  const NewBlue := Rgba(0, 120, 255, 120)
  const OldRed := Rgba(255, 0, 0, 120)

  function Min(x: int, y: int): int { if x < y then x else y }

  // ---------------------------------------------------------------------
  // Adjustment store
  // ---------------------------------------------------------------------

  predicate Enabled(perPage: map<int, Override>, i: int) {
    i in perPage && perPage[i].enabled
  }

  /** The adjustment in force on page i. */
  function Cur(base: Adjust, perPage: map<int, Override>, i: int): (t: Adjust)
    ensures Enabled(perPage, i) ==> t == perPage[i].adj
    ensures !Enabled(perPage, i) ==> t == base
  {
    if Enabled(perPage, i) then perPage[i].adj else base
  }

  /** The per-page switch: the first use creates an override that copies the
      base, enabled, and flips it at once, so it starts out disabled; later
      uses flip enabled and nothing else. */
  function Toggled(perPage: map<int, Override>, base: Adjust, i: int): (r: map<int, Override>)
    ensures r.Keys == perPage.Keys + {i}
    ensures forall k :: k in perPage && k != i ==> r[k] == perPage[k]
    ensures i !in perPage ==> r[i] == Override(false, base)
    ensures i in perPage ==> r[i] == Override(!perPage[i].enabled, perPage[i].adj)
  {
    var o := if i in perPage then perPage[i] else Override(true, base);
    perPage[i := o.(enabled := !o.enabled)]
  }

  /** Switching a page's override off and on again brings back its last
      adjustment, whatever the base did meanwhile. */
  lemma ToggleTwiceRestores(perPage: map<int, Override>, base: Adjust, base': Adjust, i: int)
    requires i in perPage
    ensures Toggled(Toggled(perPage, base, i), base', i) == perPage
  {
    var r := Toggled(Toggled(perPage, base, i), base', i);
    assert r.Keys == perPage.Keys;
    assert r[i] == perPage[i];
  }

  /** Every override switched off, each keeping its own adjustment. */
  function Disabled(perPage: map<int, Override>): (r: map<int, Override>)
    ensures r.Keys == perPage.Keys
    ensures forall k :: k in r ==> !r[k].enabled && r[k].adj == perPage[k].adj
  {
    map k | k in perPage :: perPage[k].(enabled := false)
  }

  /** After "apply to all", every page shows the adjustment that was in force
      on the page where it was pressed. */
  lemma ApplyToAllShowsEverywhere(base: Adjust, perPage: map<int, Override>, i: int, j: int)
    ensures Cur(Cur(base, perPage, i), Disabled(perPage), j) == Cur(base, perPage, i)
  {
  }

  // ---------------------------------------------------------------------
  // Page bookkeeping
  // ---------------------------------------------------------------------

  /** Pages that are in use and belong to group g, in list order. */
  function Used(store: seq<Page>, g: Group): (r: seq<Page>)
    ensures |r| <= |store|
    decreases |store|
  {
    if store == [] then []
    else (if store[0].use && store[0].group == g then [store[0]] else []) + Used(store[1..], g)
  }

  /** The selection holds exactly the used pages of the group. */
  lemma {:induction false} UsedMembers(store: seq<Page>, g: Group)
    ensures forall p :: p in Used(store, g) <==> p in store && p.use && p.group == g
    decreases |store|
  {
    if store != [] {
      UsedMembers(store[1..], g);
      assert store == [store[0]] + store[1..];
    }
  }

  /** Selecting keeps list order: the selection of a concatenation is the
      concatenation of the selections. */
  lemma {:induction false} UsedAppend(s1: seq<Page>, s2: seq<Page>, g: Group)
    ensures Used(s1 + s2, g) == Used(s1, g) + Used(s2, g)
    decreases |s1|
  {
    if s1 == [] {
      assert s1 + s2 == s2;
    } else {
      assert (s1 + s2)[1..] == s1[1..] + s2;
      UsedAppend(s1[1..], s2, g);
    }
  }

  /** The pairing loop: zips two page lists up to the shorter length. */
  method BuildPairs(pagesA: seq<Page>, pagesB: seq<Page>) returns (pairs: seq<Pair>)
    ensures |pairs| == Min(|pagesA|, |pagesB|)
    ensures forall i :: 0 <= i < |pairs| ==> pairs[i] == Pair(pagesA[i].image, pagesB[i].image)
  {
    var len := Min(|pagesA|, |pagesB|);
    pairs := [];
    var i := 0;
    while i < len
      invariant 0 <= i <= len
      invariant |pairs| == i
      invariant forall j :: 0 <= j < i ==> pairs[j] == Pair(pagesA[j].image, pagesB[j].image)
    {
      pairs := pairs + [Pair(pagesA[i].image, pagesB[i].image)];
      i := i + 1;
    }
  }

  /** Position of id in ids, or -1 when absent (Array.prototype.indexOf). */
  function IndexOf(ids: seq<string>, id: string): (k: int)
    ensures -1 <= k < |ids|
    ensures 0 <= k ==> ids[k] == id && forall j :: 0 <= j < k ==> ids[j] != id
    ensures k == -1 ==> id !in ids
    decreases |ids|
  {
    if ids == [] then -1
    else if ids[0] == id then 0
    else
      var k := IndexOf(ids[1..], id);
      if k < 0 then -1 else k + 1
  }

  function Ids(store: seq<Page>): (ids: seq<string>)
    ensures |ids| == |store|
    ensures forall i :: 0 <= i < |store| ==> ids[i] == store[i].id
  {
    seq(|store|, i requires 0 <= i < |store| => store[i].id)
  }

  /** The exclude/restore button: flips use on the first page with this id;
      without such a page the handler fails and nothing changes. */
  function ToggledUse(store: seq<Page>, id: string): (r: seq<Page>)
    ensures |r| == |store| && Ids(r) == Ids(store)
    ensures id !in Ids(store) ==> r == store
    ensures id in Ids(store) ==>
      var k := IndexOf(Ids(store), id);
      && r[k] == store[k].(use := !store[k].use)
      && forall j :: 0 <= j < |store| && j != k ==> r[j] == store[j]
  {
    var k := IndexOf(Ids(store), id);
    if k < 0 then store else store[k := store[k].(use := !store[k].use)]
  }

  /** Pressing the same page's button twice restores the list. */
  lemma ToggleUseTwice(store: seq<Page>, id: string)
    ensures ToggledUse(ToggledUse(store, id), id) == store
  {
    var r := ToggledUse(store, id);
    if id in Ids(store) {
      assert Ids(r) == Ids(store);
      assert ToggledUse(r, id) == store;
    }
  }

  /** Sort key of a page: where its id stands in the dragged list. */
  function Key(ids: seq<string>, p: Page): int { IndexOf(ids, p.id) }

  ghost predicate SortedBy(s: seq<Page>, ids: seq<string>) {
    forall i, j :: 0 <= i < j < |s| ==> Key(ids, s[i]) <= Key(ids, s[j])
  }

  /** Inserts p before the first page whose key is not smaller. */
  function Insert(p: Page, s: seq<Page>, ids: seq<string>): (r: seq<Page>)
    ensures multiset(r) == multiset(s) + multiset{p}
    decreases |s|
  {
    if s == [] || Key(ids, p) <= Key(ids, s[0]) then [p] + s
    else
      assert s == [s[0]] + s[1..];
      [s[0]] + Insert(p, s[1..], ids)
  }

  /** A lower bound on the keys of s and of p bounds the keys after insertion. */
  lemma {:induction false} InsertKeysAbove(p: Page, s: seq<Page>, ids: seq<string>, c: int)
    requires c <= Key(ids, p)
    requires forall m :: 0 <= m < |s| ==> c <= Key(ids, s[m])
    ensures forall m :: 0 <= m < |Insert(p, s, ids)| ==> c <= Key(ids, Insert(p, s, ids)[m])
    decreases |s|
  {
    if s != [] && Key(ids, p) > Key(ids, s[0]) {
      InsertKeysAbove(p, s[1..], ids, c);
      assert Insert(p, s, ids) == [s[0]] + Insert(p, s[1..], ids);
    }
  }

  /** A page whose key bounds every key of a sorted list from below can go
      in front of it. */
  lemma ConsSorted(x: Page, rest: seq<Page>, ids: seq<string>)
    requires SortedBy(rest, ids)
    requires forall m :: 0 <= m < |rest| ==> Key(ids, x) <= Key(ids, rest[m])
    ensures SortedBy([x] + rest, ids)
  {
    var r := [x] + rest;
    forall i, j | 0 <= i < j < |r|
      ensures Key(ids, r[i]) <= Key(ids, r[j])
    {
      assert r[j] == rest[j - 1];
      if i > 0 {
        assert r[i] == rest[i - 1];
      }
    }
  }

  /** Inserting into a sorted list keeps it sorted. */
  lemma {:induction false} InsertSorted(p: Page, s: seq<Page>, ids: seq<string>)
    requires SortedBy(s, ids)
    ensures SortedBy(Insert(p, s, ids), ids)
    decreases |s|
  {
    if s == [] || Key(ids, p) <= Key(ids, s[0]) {
      forall m | 0 <= m < |s|
        ensures Key(ids, p) <= Key(ids, s[m])
      {
        if m > 0 {
          assert Key(ids, s[0]) <= Key(ids, s[m]);
        }
      }
      ConsSorted(p, s, ids);
    } else {
      InsertSorted(p, s[1..], ids);
      InsertKeysAbove(p, s[1..], ids, Key(ids, s[0]));
      ConsSorted(s[0], Insert(p, s[1..], ids), ids);
    }
  }

  /** The reorder rule: the page list stably sorted by each page's position in
      ids (the ids of the list items in their dragged order). */
  function SortedByPosition(store: seq<Page>, ids: seq<string>): (r: seq<Page>)
    ensures multiset(r) == multiset(store)
    ensures SortedBy(r, ids)
    decreases |store|
  {
    if store == [] then []
    else
      assert store == [store[0]] + store[1..];
      InsertSorted(store[0], SortedByPosition(store[1..], ids), ids);
      Insert(store[0], SortedByPosition(store[1..], ids), ids)
  }

  /** A list already in strictly increasing position order is left as it is. */
  lemma {:induction false} SortedByPositionKeepsOrder(store: seq<Page>, ids: seq<string>)
    requires forall i, j :: 0 <= i < j < |store| ==> Key(ids, store[i]) < Key(ids, store[j])
    ensures SortedByPosition(store, ids) == store
    decreases |store|
  {
    if store != [] {
      SortedByPositionKeepsOrder(store[1..], ids);
      assert store == [store[0]] + store[1..];
      if |store| > 1 {
        assert Key(ids, store[0]) < Key(ids, store[1]);
      }
    }
  }

  /** No two pages of the list share an id. */
  predicate UniqueIds(store: seq<Page>) {
    forall i, j :: 0 <= i < j < |store| ==> store[i].id != store[j].id
  }

  /** A page list none of whose ids is id keeps that after an insertion of
      a page with another id. */
  lemma {:induction false} InsertAvoidsId(p: Page, s: seq<Page>, ids: seq<string>, id: string)
    requires p.id != id
    requires forall m :: 0 <= m < |s| ==> s[m].id != id
    ensures forall m :: 0 <= m < |Insert(p, s, ids)| ==> Insert(p, s, ids)[m].id != id
    decreases |s|
  {
    if s != [] && Key(ids, p) > Key(ids, s[0]) {
      InsertAvoidsId(p, s[1..], ids, id);
      assert Insert(p, s, ids) == [s[0]] + Insert(p, s[1..], ids);
    }
  }

  /** Inserting a page whose id is new keeps the ids unique. */
  lemma {:induction false} InsertKeepsUniqueIds(p: Page, s: seq<Page>, ids: seq<string>)
    requires UniqueIds(s)
    requires forall m :: 0 <= m < |s| ==> s[m].id != p.id
    ensures UniqueIds(Insert(p, s, ids))
    decreases |s|
  {
    var r := Insert(p, s, ids);
    if s == [] || Key(ids, p) <= Key(ids, s[0]) {
      assert r == [p] + s;
      forall i, j | 0 <= i < j < |r|
        ensures r[i].id != r[j].id
      {
        assert r[j] == s[j - 1];
        if i > 0 {
          assert r[i] == s[i - 1];
        }
      }
    } else {
      var rest := Insert(p, s[1..], ids);
      InsertKeepsUniqueIds(p, s[1..], ids);
      InsertAvoidsId(p, s[1..], ids, s[0].id);
      assert r == [s[0]] + rest;
      forall i, j | 0 <= i < j < |r|
        ensures r[i].id != r[j].id
      {
        assert r[j] == rest[j - 1];
        if i > 0 {
          assert r[i] == rest[i - 1];
        }
      }
    }
  }

  /** Reordering never brings in an id the list did not have. */
  lemma {:induction false} SortedAvoidsId(store: seq<Page>, ids: seq<string>, id: string)
    requires forall m :: 0 <= m < |store| ==> store[m].id != id
    ensures forall m :: 0 <= m < |SortedByPosition(store, ids)| ==> SortedByPosition(store, ids)[m].id != id
    decreases |store|
  {
    if store != [] {
      SortedAvoidsId(store[1..], ids, id);
      InsertAvoidsId(store[0], SortedByPosition(store[1..], ids), ids, id);
    }
  }

  /** Reordering keeps page ids unique. */
  lemma {:induction false} SortedKeepsUniqueIds(store: seq<Page>, ids: seq<string>)
    requires UniqueIds(store)
    ensures UniqueIds(SortedByPosition(store, ids))
    decreases |store|
  {
    if store != [] {
      SortedKeepsUniqueIds(store[1..], ids);
      SortedAvoidsId(store[1..], ids, store[0].id);
      InsertKeepsUniqueIds(store[0], SortedByPosition(store[1..], ids), ids);
    }
  }

  /** Page ids are unique (they are random UUIDs), so a drop that puts every
      item back where it was leaves the page list unchanged. */
  lemma ReorderInPlace(store: seq<Page>)
    requires UniqueIds(store)
    ensures SortedByPosition(store, Ids(store)) == store
  {
    var ids := Ids(store);
    forall i | 0 <= i < |store|
      ensures Key(ids, store[i]) == i
    {
      assert ids[i] == store[i].id;
      var k := IndexOf(ids, store[i].id);
      assert 0 <= k <= i && ids[k] == store[k].id;
    }
    SortedByPositionKeepsOrder(store, ids);
  }

  /** The page's overlay for adjustment t: the new page in blue under t, the
      old page in red left at the origin, then the overlap pass, always. */
  function FrameRecipe(t: Adjust): (r: Recipe)
    ensures r.background == Transparent
    ensures r.passes == [OverlapToBlack]
    ensures |r.layers| == 2
    ensures r.layers[0].source == NewImage && r.layers[0].place == ShiftRotate(t.dx, t.dy, t.rot)
    ensures r.layers[1].source == OldImage && r.layers[1].place == AtOrigin
    ensures r.layers[0].tint == NewBlue && r.layers[1].tint == OldRed
    ensures forall l :: l in r.layers ==> IsInk(l.tint) && !IsOverlap(l.tint)
  {
    Recipe(Transparent,
           [Layer(NewImage, NewBlue, ShiftRotate(t.dx, t.dy, t.rot)), Layer(OldImage, OldRed, AtOrigin)],
           [OverlapToBlack])
  }

  /** Whatever the adjustment, the composite is recoloured by the overlap pass. */
  lemma FramePassesEffect(s: seq<int>, t: Adjust)
    requires |s| % 4 == 0
    ensures ApplyPasses(s, FrameRecipe(t).passes) == OverlapBlackened(s)
  {
    ApplyPassesInOrder(s, OverlapToBlack, OverlapToBlack);
  }

  // ---------------------------------------------------------------------
  // The page state and its event handlers
  // ---------------------------------------------------------------------

  class Viewer {
    var pageStore: seq<Page>
    var pairs: seq<Pair>
    var index: int
    var base: Adjust
    var perPage: map<int, Override>
    var comparing: bool   // the comparison area is shown
    var dragging: bool
    var dragStartX: real
    var dragStartY: real
    var startDx: real
    var startDy: real

    /** index designates a pair, or is 0 while there is none; page ids are
        unique. */
    ghost predicate Valid()
      reads this
    {
      && 0 <= index && (index < |pairs| || index == 0)
      && UniqueIds(pageStore)
    }

    /** Everything but the record Cur selects is as it was. */
    twostate predicate OnlyActiveChanged()
      reads this
    {
      && index == old(index)
      && Enabled(perPage, index) == old(Enabled(perPage, index))
      && if old(Enabled(perPage, index))
         then base == old(base) && perPage.Keys == old(perPage).Keys
              && forall k :: k in perPage && k != index ==> perPage[k] == old(perPage)[k]
         else perPage == old(perPage)
    }

    constructor ()
      ensures Valid()
      ensures pageStore == [] && pairs == [] && index == 0
      ensures base == Zero && perPage == map[] && !comparing && !dragging
    {
      pageStore, pairs, index := [], [], 0;
      base, perPage := Zero, map[];
      comparing, dragging := false, false;
      dragStartX, dragStartY, startDx, startDy := 0.0, 0.0, 0.0, 0.0;
    }

    /** What computeAndDraw draws for the current pair once both images
        have loaded: the new page under the adjustment Cur selects. */
    function Frame(): (r: Recipe)
      reads this
      ensures |r.layers| == 2 && r.layers[1].source == OldImage && r.layers[1].place == AtOrigin
      ensures r.layers[0].source == NewImage
      ensures r.layers[0].place == ShiftRotate(Cur(base, perPage, index).dx, Cur(base, perPage, index).dy, Cur(base, perPage, index).rot)
      ensures r.passes == [OverlapToBlack]
    {
      FrameRecipe(Cur(base, perPage, index))
    }

    /** A rasterised page is appended to the list, in use, under a fresh id. */
    method AddPage(id: string, fileName: string, pageNo: int, image: string, group: Group)
      requires Valid() && id !in Ids(pageStore)
      modifies this`pageStore
      ensures Valid()
      ensures pageStore == old(pageStore) + [Page(id, fileName, pageNo, image, true, group)]
    {
      pageStore := pageStore + [Page(id, fileName, pageNo, image, true, group)];
    }

    method ToggleUse(id: string) returns (found: bool)
      requires Valid()
      modifies this`pageStore
      ensures Valid()
      ensures found <==> id in Ids(old(pageStore))
      ensures pageStore == ToggledUse(old(pageStore), id)
    {
      found := IndexOf(Ids(pageStore), id) >= 0;
      pageStore := ToggledUse(pageStore, id);
    }

    /** The end of a drag in the thumbnail list; a drop that leaves every
        item in place changes nothing. */
    method Reorder(ids: seq<string>)
      requires Valid()
      modifies this`pageStore
      ensures Valid()
      ensures pageStore == SortedByPosition(old(pageStore), ids)
      ensures ids == Ids(old(pageStore)) ==> pageStore == old(pageStore)
    {
      SortedKeepsUniqueIds(pageStore, ids);
      ReorderInPlace(pageStore);
      pageStore := SortedByPosition(pageStore, ids);
    }

    /** Pairs the used new and old pages in list order, unless one side has none. */
    method StartCompare() returns (started: bool)
      requires Valid()
      modifies this`pairs, this`index, this`base, this`comparing
      ensures Valid()
      ensures started <==> |Used(pageStore, A)| > 0 && |Used(pageStore, B)| > 0
      ensures !started ==> pairs == old(pairs) && index == old(index) && base == old(base) && comparing == old(comparing)
      ensures started ==>
        && |pairs| == Min(|Used(pageStore, A)|, |Used(pageStore, B)|)
        && (forall i :: 0 <= i < |pairs| ==> pairs[i] == Pair(Used(pageStore, A)[i].image, Used(pageStore, B)[i].image))
        && index == 0 && base == Zero && comparing
    {
      var pagesA := Used(pageStore, A);
      var pagesB := Used(pageStore, B);
      if |pagesA| == 0 || |pagesB| == 0 {
        return false;
      }
      pairs := BuildPairs(pagesA, pagesB);
      index := 0;
      base := Zero;
      comparing := true;
      started := true;
    }

    method Prev()
      requires Valid()
      modifies this`index
      ensures Valid()
      ensures index == if old(index) > 0 then old(index) - 1 else old(index)
    {
      if index > 0 {
        index := index - 1;
      }
    }

    method Next()
      requires Valid()
      modifies this`index
      ensures Valid()
      ensures index == if old(index) < |pairs| - 1 then old(index) + 1 else old(index)
    {
      if index < |pairs| - 1 {
        index := index + 1;
      }
    }

    /** Back to the page list. */
    method Back()
      modifies this`comparing
      ensures !comparing
    {
      comparing := false;
    }

    /** Writes t into whichever record Cur selects: the page's override when
        it is enabled, the base otherwise. */
    method UpdateActive(t: Adjust)
      modifies this`base, this`perPage
      ensures Cur(base, perPage, index) == t
      ensures OnlyActiveChanged()
      ensures old(Enabled(perPage, index)) ==> perPage == old(perPage)[index := Override(true, t)]
      ensures !old(Enabled(perPage, index)) ==> base == t
    {
      if Enabled(perPage, index) {
        perPage := perPage[index := perPage[index].(adj := t)];
      } else {
        base := t;
      }
    }

    method RotateLeft()
      modifies this`base, this`perPage
      ensures OnlyActiveChanged()
      ensures Cur(base, perPage, index) == old(Cur(base, perPage, index)).(rot := old(Cur(base, perPage, index)).rot - RotStep)
    {
      var t := Cur(base, perPage, index);
      UpdateActive(t.(rot := t.rot - RotStep));
    }

    method RotateRight()
      modifies this`base, this`perPage
      ensures OnlyActiveChanged()
      ensures Cur(base, perPage, index) == old(Cur(base, perPage, index)).(rot := old(Cur(base, perPage, index)).rot + RotStep)
    {
      var t := Cur(base, perPage, index);
      UpdateActive(t.(rot := t.rot + RotStep));
    }

    method TogglePerPage()
      modifies this`perPage
      ensures perPage == Toggled(old(perPage), base, index)
    {
      perPage := Toggled(perPage, base, index);
    }

    /** Makes the adjustment in force the base and switches every override off. */
    method ApplyToAll()
      modifies this`base, this`perPage
      ensures base == old(Cur(base, perPage, index))
      ensures perPage == Disabled(old(perPage))
    {
      var t := Cur(base, perPage, index);
      base := t;
      perPage := Disabled(perPage);
    }

    /** Puts the current page back on the base, keeping a disabled override. */
    method ResetPage()
      modifies this`perPage
      ensures perPage == old(perPage)[index := Override(false, base)]
      ensures Cur(base, perPage, index) == base
    {
      perPage := perPage[index := Override(false, base)];
    }

    method MouseDown(x: real, y: real)
      modifies this`dragging, this`startDx, this`startDy, this`dragStartX, this`dragStartY
      ensures !comparing ==> dragging == old(dragging) && startDx == old(startDx) && startDy == old(startDy)
                             && dragStartX == old(dragStartX) && dragStartY == old(dragStartY)
      ensures comparing ==> dragging && startDx == Cur(base, perPage, index).dx && startDy == Cur(base, perPage, index).dy
                            && dragStartX == x && dragStartY == y
    {
      if !comparing {
        return;
      }
      dragging := true;
      var t := Cur(base, perPage, index);
      startDx, startDy := t.dx, t.dy;
      dragStartX, dragStartY := x, y;
    }

    /** While dragging, the record in force is the shift at mousedown plus the
        pointer's travel since; its rotation is kept. */
    method MouseMove(x: real, y: real)
      modifies this`base, this`perPage
      ensures !dragging ==> base == old(base) && perPage == old(perPage)
      ensures dragging ==>
        && OnlyActiveChanged()
        && Cur(base, perPage, index) == Adjust(startDx + (x - dragStartX), startDy + (y - dragStartY), old(Cur(base, perPage, index)).rot)
    {
      if !dragging {
        return;
      }
      var t := Cur(base, perPage, index);
      UpdateActive(t.(dx := startDx + (x - dragStartX), dy := startDy + (y - dragStartY)));
    }

    method MouseUp()
      modifies this`dragging
      ensures !dragging
    {
      dragging := false;
    }

    /** Arrow keys shift the record in force by half a pixel; other keys,
        and every key while the comparison is hidden, change nothing. */
    method KeyDown(key: string) returns (redraw: bool)
      modifies this`base, this`perPage
      ensures redraw <==> comparing && key in ["ArrowUp", "ArrowDown", "ArrowLeft", "ArrowRight"]
      ensures !redraw ==> base == old(base) && perPage == old(perPage)
      ensures redraw ==>
        && OnlyActiveChanged()
        && Cur(base, perPage, index) == Adjust(
             old(Cur(base, perPage, index)).dx + ArrowDx(key, KeyStep),
             old(Cur(base, perPage, index)).dy + ArrowDy(key, KeyStep),
             old(Cur(base, perPage, index)).rot)
    {
      if !comparing {
        return false;
      }
      if key !in ["ArrowUp", "ArrowDown", "ArrowLeft", "ArrowRight"] {
        return false;
      }
      var t := Cur(base, perPage, index);
      if key == "ArrowUp" { t := t.(dy := t.dy - KeyStep); }
      if key == "ArrowDown" { t := t.(dy := t.dy + KeyStep); }
      if key == "ArrowLeft" { t := t.(dx := t.dx - KeyStep); }
      if key == "ArrowRight" { t := t.(dx := t.dx + KeyStep); }
      UpdateActive(t);
      redraw := true;
    }
  }
}
