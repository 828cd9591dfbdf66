/**
 * The editor's session state (App.tsx): the region list, the active selections,
 * the bounded undo/redo log with its cursor, and the canvas raster.
 */
module App {
  import opened Types
  import Canvas

  /** The log never holds more than this many items. */
  const HistoryLimit: nat := 30

  const InitialLoadLabel: string := "Initial Load"

  /** The pixel value of a canvas element before anything is drawn on it. */
  const BlankPixel: Color := "rgba(0, 0, 0, 0)"

  function Or<T>(o: Option<T>, d: T): T {
    match o
    case Some(v) => v
    case None => d
  }

  /** The part of a Region that the editor panel and the commit step overwrite. */
  datatype RegionPatch = RegionPatch(
    text: Option<string>,
    fontSize: Option<int>,
    color: Option<Color>,
    bgColor: Option<Color>,
    transparentBg: Option<bool>,
    edited: Option<bool>)

  const EmptyPatch: RegionPatch := RegionPatch(None, None, None, None, None, None)

  /** `{ ...r, ...u }`: the fields present in `u` replace those of `r`. */
  function Merge(r: Region, u: RegionPatch): (m: Region)
    ensures m.id == r.id
    ensures m.x == r.x && m.y == r.y && m.w == r.w && m.h == r.h
    ensures m.originalText == r.originalText
    ensures u.text.Some? ==> m.text == u.text.value
    ensures u.text.None? ==> m.text == r.text
    ensures u.fontSize.Some? ==> m.fontSize == u.fontSize.value
    ensures u.fontSize.None? ==> m.fontSize == r.fontSize
    ensures u.color.Some? ==> m.color == u.color.value
    ensures u.color.None? ==> m.color == r.color
    ensures u.bgColor.Some? ==> m.bgColor == u.bgColor.value
    ensures u.bgColor.None? ==> m.bgColor == r.bgColor
    ensures u.transparentBg.Some? ==> m.transparentBg == u.transparentBg.value
    ensures u.transparentBg.None? ==> m.transparentBg == r.transparentBg
    ensures u.edited.Some? ==> m.edited == u.edited.value
    ensures u.edited.None? ==> m.edited == r.edited
    // every field the patch cannot name is kept
    ensures m.(text := r.text, fontSize := r.fontSize, color := r.color, bgColor := r.bgColor,
               transparentBg := r.transparentBg, edited := r.edited) == r
  {
    r.(text := Or(u.text, r.text),
       fontSize := Or(u.fontSize, r.fontSize),
       color := Or(u.color, r.color),
       bgColor := Or(u.bgColor, r.bgColor),
       transparentBg := Or(u.transparentBg, r.transparentBg),
       edited := Or(u.edited, r.edited))
  }

  /** Merging nothing changes nothing, and merging the same patch twice is merging it once. */
  lemma MergeLaws(r: Region, u: RegionPatch)
    ensures Merge(r, EmptyPatch) == r
    ensures Merge(Merge(r, u), u) == Merge(r, u)
  {
  }

  /** `regions.map(r => r.id === id ? { ...r, ...u } : r)` */
  function UpdateRegion(rs: seq<Region>, id: int, u: RegionPatch): (r: seq<Region>)
    ensures |r| == |rs|
    ensures forall i :: 0 <= i < |rs| ==>
      r[i] == if rs[i].id == id then Merge(rs[i], u) else rs[i]
    decreases |rs|
  {
    if rs == [] then []
    else [if rs[0].id == id then Merge(rs[0], u) else rs[0]] + UpdateRegion(rs[1..], id, u)
  }

  function Ids(rs: seq<Region>): (ids: seq<int>)
    ensures |ids| == |rs|
    ensures forall i :: 0 <= i < |rs| ==> ids[i] == rs[i].id
  {
    if rs == [] then [] else [rs[0].id] + Ids(rs[1..])
  }

  /**
   * Updating by id keeps the ids in the same order, and when no region has the id
   * the list is returned unchanged.
   */
  lemma UpdateRegionKeepsIds(rs: seq<Region>, id: int, u: RegionPatch)
    ensures Ids(UpdateRegion(rs, id, u)) == Ids(rs)
    ensures id !in Ids(rs) ==> UpdateRegion(rs, id, u) == rs
  {
  }

  /** Ids are distinct, below the next fresh id, and every region passed the size threshold. */
  ghost predicate RegionsValid(rs: seq<Region>, nextId: int) {
    (forall i :: 0 <= i < |rs| ==> rs[i].id < nextId && rs[i].w > 10 && rs[i].h > 10) &&
    (forall i, j :: 0 <= i < j < |rs| ==> rs[i].id != rs[j].id)
  }

  lemma UpdateRegionKeepsValid(rs: seq<Region>, id: int, u: RegionPatch, nextId: int)
    requires RegionsValid(rs, nextId)
    ensures RegionsValid(UpdateRegion(rs, id, u), nextId)
  {
  }

  /** Appending a region that carries the next fresh id keeps the ids distinct. */
  lemma AppendFresh(rs: seq<Region>, r: Region, nextId: int)
    requires RegionsValid(rs, nextId) && r.id == nextId && r.w > 10 && r.h > 10
    ensures RegionsValid(rs + [r], nextId + 1)
    ensures nextId !in Ids(rs)
  {
    var rs' := rs + [r];
    forall i, j | 0 <= i < j < |rs'|
      ensures rs'[i].id != rs'[j].id
    {
      if j == |rs| {
        assert rs'[i] == rs[i];
      }
    }
  }

  /** The active copy, if any, has an id already handed out and passed the size threshold. */
  ghost predicate ActiveValid(active: Option<Region>, nextId: int) {
    active.Some? ==> active.value.id < nextId && active.value.w > 10 && active.value.h > 10
  }

  /**
   * The log holds at most 30 items; the cursor is -1 exactly when the log is empty
   * and otherwise indexes an item; every item's raster has the canvas's size and
   * its region list satisfies RegionsValid.
   */
  ghost predicate HistoryValid(h: seq<HistoryItem>, idx: int, rows: nat, cols: nat, nextId: int) {
    |h| <= HistoryLimit &&
    -1 <= idx < |h| &&
    (idx == -1 <==> h == []) &&
    forall k :: 0 <= k < |h| ==> IsGrid(h[k].raster, rows, cols) && RegionsValid(h[k].regions, nextId)
  }

  /** Handing out a new id keeps every invariant that bounds ids by the next one. */
  lemma NextIdMonotone(h: seq<HistoryItem>, idx: int, rows: nat, cols: nat, rs: seq<Region>, n: int, n': int)
    requires n <= n'
    ensures HistoryValid(h, idx, rows, cols, n) ==> HistoryValid(h, idx, rows, cols, n')
    ensures RegionsValid(rs, n) ==> RegionsValid(rs, n')
  {
  }

  /**
   * saveHistory's new log: keep items 0..idx, append `item`, and drop the oldest
   * item when the result is longer than the limit.
   */
  function Committed(h: seq<HistoryItem>, idx: int, item: HistoryItem): (k: seq<HistoryItem>)
    requires -1 <= idx < |h|
    ensures |k| == if idx + 2 > HistoryLimit then idx + 1 else idx + 2
    ensures k[|k| - 1] == item
  {
    var kept := h[..idx + 1] + [item];
    if |kept| > HistoryLimit then kept[1..] else kept
  }

  /**
   * A commit discards every item after the cursor and ends with the new item; the
   * length becomes idx + 2, or the limit when that would exceed it.
   */
  lemma CommitDiscardsRedo(h: seq<HistoryItem>, idx: int, item: HistoryItem)
    requires |h| <= HistoryLimit && -1 <= idx < |h|
    ensures var c := Committed(h, idx, item);
      |c| == (if idx + 2 <= HistoryLimit then idx + 2 else HistoryLimit) &&
      c[|c| - 1] == item &&
      c[..|c| - 1] == h[idx + 2 - |c| .. idx + 1]
  {
    var c := Committed(h, idx, item);
    var kept := h[..idx + 1] + [item];
    if |kept| > HistoryLimit {
      assert c == kept[1..];
      assert c[..|c| - 1] == kept[1..|kept| - 1];
    } else {
      assert c[..|c| - 1] == kept[..|kept| - 1];
    }
  }

  /** The log stays within the limit; only when it would reach 31 is exactly the oldest item dropped. */
  lemma CommitBounded(h: seq<HistoryItem>, idx: int, item: HistoryItem)
    requires |h| <= HistoryLimit && -1 <= idx < |h|
    ensures |Committed(h, idx, item)| <= HistoryLimit
    ensures idx + 2 > HistoryLimit ==> Committed(h, idx, item) == h[1..] + [item]
  {
    if idx + 2 > HistoryLimit {
      assert h[..idx + 1] == h;
      assert (h + [item])[1..] == h[1..] + [item];
    }
  }

  /**
   * Undo straight after a commit lands on the item the cursor pointed at before
   * the commit, with or without an eviction.
   */
  lemma CommitThenUndo(h: seq<HistoryItem>, idx: int, item: HistoryItem)
    requires |h| <= HistoryLimit && 0 <= idx < |h|
    ensures var c := Committed(h, idx, item); |c| >= 2 && c[|c| - 2] == h[idx]
  {
    CommitDiscardsRedo(h, idx, item);
    var c := Committed(h, idx, item);
    assert c[..|c| - 1][|c| - 2] == h[idx + 2 - |c| .. idx + 1][|c| - 2];
  }

  /** The cursor after `undo`: one lower when above 0, otherwise unchanged. */
  function UndoIndex(idx: int): (r: int)
    ensures r < idx <==> idx > 0
    ensures idx - 1 <= r <= idx
    ensures idx >= 0 ==> r >= 0
  {
    if idx > 0 then idx - 1 else idx
  }

  /** The cursor after `redo` on a log of length `len`. */
  function RedoIndex(idx: int, len: nat): (r: int)
    ensures r > idx <==> idx < len - 1
    ensures idx <= r <= idx + 1
    ensures idx < len ==> r < len
  {
    if idx < len - 1 then idx + 1 else idx
  }

  /** The cursor after n undos. */
  function UndoTimes(idx: int, n: nat): int
    decreases n
  {
    if n == 0 then idx else UndoTimes(UndoIndex(idx), n - 1)
  }

  /** The cursor after n redos. */
  function RedoTimes(idx: int, len: nat, n: nat): int
    decreases n
  {
    if n == 0 then idx else RedoTimes(RedoIndex(idx, len), len, n - 1)
  }

  lemma {:induction false} UndoTimesSteps(idx: int, n: nat)
    requires n <= idx
    ensures UndoTimes(idx, n) == idx - n
    decreases n
  {
    if n > 0 {
      UndoTimesSteps(idx - 1, n - 1);
    }
  }

  lemma {:induction false} RedoTimesSteps(idx: int, len: nat, n: nat)
    requires idx + n <= len - 1
    ensures RedoTimes(idx, len, n) == idx + n
    decreases n
  {
    if n > 0 {
      RedoTimesSteps(idx + 1, len, n - 1);
    }
  }

  /**
   * n undos followed by n redos return the cursor to where it started, as long as
   * the n undos did not hit the start of the log; the log itself is never changed
   * by either, so the restored item is the same one.
   */
  lemma UndoRedoRoundTrip(idx: int, len: nat, n: nat)
    requires 0 <= idx < len && n <= idx
    ensures RedoTimes(UndoTimes(idx, n), len, n) == idx
  {
    UndoTimesSteps(idx, n);
    RedoTimesSteps(idx - n, len, n);
  }

  class Session {
    var imageLoaded: bool
    var mode: EditorMode
    var regions: seq<Region>
    var activeRegion: Option<Region>
    var imageRegions: seq<ImageRegion>
    var activeImageRegion: Option<ImageRegion>
    var history: seq<HistoryItem>
    var historyIndex: int
    var canvas: array2<Color>
    var isProcessing: bool
    /** Stands for `Date.now()` as a region id: the next id handed out. */
    var nextId: int
    /** The toasts shown so far. */
    var notices: seq<Notice>

    ghost predicate Valid()
      reads this
    {
      HistoryValid(history, historyIndex, canvas.Length0, canvas.Length1, nextId) &&
      RegionsValid(regions, nextId) &&
      ActiveValid(activeRegion, nextId)
    }

    /** The state before any image is loaded: an empty log and a blank 300x150 canvas. */
    constructor ()
      ensures Valid() && fresh(canvas)
      ensures !imageLoaded && mode == Select && !isProcessing
      ensures regions == [] && imageRegions == [] && activeRegion.None? && activeImageRegion.None?
      ensures history == [] && historyIndex == -1 && notices == []
      ensures canvas.Length0 == 150 && canvas.Length1 == 300
    {
      imageLoaded := false;
      mode := Select;
      regions := [];
      activeRegion := None;
      imageRegions := [];
      activeImageRegion := None;
      history := [];
      historyIndex := -1;
      canvas := new Color[150, 300]((i, j) => BlankPixel);
      isProcessing := false;
      nextId := 0;
      notices := [];
    }

    /** The undo button is enabled exactly when undo would move the cursor. */
    function CanUndo(): (b: bool)
      reads this
      ensures b <==> UndoIndex(historyIndex) != historyIndex
    {
      historyIndex > 0
    }

    /** The redo button is enabled exactly when redo would move the cursor. */
    function CanRedo(): (b: bool)
      reads this
      ensures b <==> RedoIndex(historyIndex, |history|) != historyIndex
    {
      historyIndex < |history| - 1
    }

    /** Picking a tool in the toolbar. */
    method SetMode(m: EditorMode)
      requires Valid()
      modifies this
      ensures Valid() && mode == m
      ensures regions == old(regions) && history == old(history) && historyIndex == old(historyIndex)
      ensures activeRegion == old(activeRegion) && canvas == old(canvas) && nextId == old(nextId)
      ensures imageLoaded == old(imageLoaded) && isProcessing == old(isProcessing)
      ensures imageRegions == old(imageRegions) && activeImageRegion == old(activeImageRegion)
      ensures notices == old(notices)
    {
      mode := m;
    }

    /**
     * saveHistory: snapshot the current raster and region list as a new item after
     * the cursor, dropping the redo branch and, past the limit, the oldest item;
     * the cursor ends on the new item.
     */
    method SaveHistory(actionName: string, timestamp: int)
      requires Valid()
      modifies this
      ensures Valid()
      ensures history == Committed(old(history), old(historyIndex),
        HistoryItem(old(Canvas.Pixels(canvas)), old(regions), timestamp, actionName))
      ensures historyIndex == |history| - 1
      ensures regions == old(regions) && activeRegion == old(activeRegion) && canvas == old(canvas)
      ensures nextId == old(nextId) && mode == old(mode) && imageLoaded == old(imageLoaded)
      ensures isProcessing == old(isProcessing) && notices == old(notices)
      ensures imageRegions == old(imageRegions) && activeImageRegion == old(activeImageRegion)
    {
      var snapshot := Canvas.GetImageData(canvas);
      var item := HistoryItem(snapshot, regions, timestamp, actionName);
      var newHistory := history[..historyIndex + 1];
      newHistory := newHistory + [item];
      if |newHistory| > HistoryLimit {
        newHistory := newHistory[1..];
      }
      history := newHistory;
      historyIndex := |newHistory| - 1;
    }

    /**
     * undo: when the cursor is above 0, step it back, put that item's raster and
     * region list in place and clear both active selections; otherwise do nothing.
     */
    method Undo()
      requires Valid()
      modifies this, canvas
      ensures Valid()
      ensures history == old(history) && canvas == old(canvas)
      ensures old(CanUndo()) ==>
        historyIndex == old(historyIndex) - 1 &&
        Canvas.Pixels(canvas) == history[historyIndex].raster &&
        regions == history[historyIndex].regions &&
        activeRegion.None? && activeImageRegion.None?
      ensures !old(CanUndo()) ==>
        historyIndex == old(historyIndex) && Canvas.Pixels(canvas) == old(Canvas.Pixels(canvas)) &&
        regions == old(regions) && activeRegion == old(activeRegion) &&
        activeImageRegion == old(activeImageRegion)
      ensures historyIndex == UndoIndex(old(historyIndex))
      ensures nextId == old(nextId) && mode == old(mode) && imageLoaded == old(imageLoaded)
      ensures isProcessing == old(isProcessing) && notices == old(notices)
      ensures imageRegions == old(imageRegions)
    {
      if historyIndex > 0 {
        var newIndex := historyIndex - 1;
        var state := history[newIndex];
        Canvas.PutImageData(canvas, state.raster);
        regions := state.regions;
        historyIndex := newIndex;
        activeRegion := None;
        activeImageRegion := None;
      }
    }

    /**
     * redo: when the cursor is before the last item, step it forward and restore
     * that item as undo does; otherwise do nothing.
     */
    method Redo()
      requires Valid()
      modifies this, canvas
      ensures Valid()
      ensures history == old(history) && canvas == old(canvas)
      ensures old(CanRedo()) ==>
        historyIndex == old(historyIndex) + 1 &&
        Canvas.Pixels(canvas) == history[historyIndex].raster &&
        regions == history[historyIndex].regions &&
        activeRegion.None? && activeImageRegion.None?
      ensures !old(CanRedo()) ==>
        historyIndex == old(historyIndex) && Canvas.Pixels(canvas) == old(Canvas.Pixels(canvas)) &&
        regions == old(regions) && activeRegion == old(activeRegion) &&
        activeImageRegion == old(activeImageRegion)
      ensures historyIndex == RedoIndex(old(historyIndex), |history|)
      ensures nextId == old(nextId) && mode == old(mode) && imageLoaded == old(imageLoaded)
      ensures isProcessing == old(isProcessing) && notices == old(notices)
      ensures imageRegions == old(imageRegions)
    {
      if historyIndex < |history| - 1 {
        var newIndex := historyIndex + 1;
        var state := history[newIndex];
        Canvas.PutImageData(canvas, state.raster);
        regions := state.regions;
        historyIndex := newIndex;
        activeRegion := None;
        activeImageRegion := None;
      }
    }

    /**
     * handleImageLoad, once the image has decoded: empty the log, the cursor and
     * both region lists. The active selections are left as they are.
     */
    method ResetForImage()
      requires Valid()
      modifies this
      ensures Valid()
      ensures history == [] && historyIndex == -1 && regions == [] && imageRegions == []
      ensures imageLoaded
      ensures activeRegion == old(activeRegion) && activeImageRegion == old(activeImageRegion)
      ensures canvas == old(canvas) && nextId == old(nextId) && mode == old(mode)
      ensures isProcessing == old(isProcessing) && notices == old(notices)
    {
      history := [];
      historyIndex := -1;
      regions := [];
      imageRegions := [];
      imageLoaded := true;
    }

    /**
     * The effect that runs when a new image is set: size the canvas to the image,
     * draw it, and, when the log is empty, seed it with one "Initial Load" item
     * holding the drawn raster and no regions.
     */
    method InitializeCanvas(img: Raster, rows: nat, cols: nat, timestamp: int)
      requires Valid() && IsGrid(img, rows, cols)
      requires history == [] || (rows == canvas.Length0 && cols == canvas.Length1)
      modifies this
      ensures Valid()
      ensures fresh(canvas) && canvas.Length0 == rows && canvas.Length1 == cols
      ensures Canvas.Pixels(canvas) == img
      ensures old(history) == [] ==>
        history == [HistoryItem(img, [], timestamp, InitialLoadLabel)] && historyIndex == 0
      ensures old(history) != [] ==> history == old(history) && historyIndex == old(historyIndex)
      ensures regions == old(regions) && activeRegion == old(activeRegion)
      ensures nextId == old(nextId) && mode == old(mode) && imageLoaded == old(imageLoaded)
      ensures isProcessing == old(isProcessing) && notices == old(notices)
      ensures imageRegions == old(imageRegions) && activeImageRegion == old(activeImageRegion)
    {
      canvas := Canvas.DrawImage(img, rows, cols);
      if |history| == 0 {
        var initial := Canvas.GetImageData(canvas);
        history := [HistoryItem(initial, [], timestamp, InitialLoadLabel)];
        historyIndex := 0;
      }
    }

    /** Loading an image: the reset followed by the canvas effect. */
    method LoadImage(img: Raster, rows: nat, cols: nat, timestamp: int)
      requires Valid() && IsGrid(img, rows, cols)
      modifies this
      ensures Valid() && imageLoaded
      ensures fresh(canvas) && canvas.Length0 == rows && canvas.Length1 == cols
      ensures Canvas.Pixels(canvas) == img
      ensures history == [HistoryItem(img, [], timestamp, InitialLoadLabel)] && historyIndex == 0
      ensures regions == [] && imageRegions == []
      ensures !CanUndo() && !CanRedo()
      ensures activeRegion == old(activeRegion) && activeImageRegion == old(activeImageRegion)
      ensures nextId == old(nextId) && mode == old(mode)
      ensures isProcessing == old(isProcessing) && notices == old(notices)
    {
      ResetForImage();
      InitializeCanvas(img, rows, cols, timestamp);
    }

    /** onUpdateRegion: merge `u` into the region with this id; the active copy is not touched. */
    method OnUpdateRegion(id: int, u: RegionPatch)
      requires Valid()
      modifies this
      ensures Valid()
      ensures regions == UpdateRegion(old(regions), id, u)
      ensures activeRegion == old(activeRegion) && history == old(history)
      ensures historyIndex == old(historyIndex) && canvas == old(canvas)
      ensures nextId == old(nextId) && mode == old(mode) && imageLoaded == old(imageLoaded)
      ensures isProcessing == old(isProcessing) && notices == old(notices)
      ensures imageRegions == old(imageRegions) && activeImageRegion == old(activeImageRegion)
    {
      UpdateRegionKeepsValid(regions, id, u, nextId);
      regions := UpdateRegion(regions, id, u);
    }
  }
}
