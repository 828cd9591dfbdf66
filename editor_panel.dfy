/**
 * The property panel (components/EditorPanel.tsx): the field handlers that patch
 * the active region through onUpdateRegion, cancel, and the commit step that
 * records history, fills the region's background and marks it edited.
 */
module EditorPanel {
  import opened Types
  import App
  import Canvas

  const EditLabelPrefix: string := "編輯文字: "

  /** The history label of a commit: the prefix followed by at most the first 10 characters of the text. */
  function CommitLabel(text: string): (name: string)
    ensures |EditLabelPrefix| <= |name|
    ensures name[..|EditLabelPrefix|] == EditLabelPrefix
    ensures name[|EditLabelPrefix|..] <= text
    ensures |name| - |EditLabelPrefix| == (if |text| < 10 then |text| else 10)
  {
    EditLabelPrefix + (if |text| <= 10 then text else text[..10])
  }

  /** The rectangle a region covers on the raster. */
  function Bounds(r: Region): Rect {
    Rect(r.x, r.y, r.w, r.h)
  }

  /** The text box: the patch changes the text and nothing else. */
  function TextChange(text: string): (u: App.RegionPatch)
    ensures forall r :: App.Merge(r, u) == r.(text := text)
  {
    App.EmptyPatch.(text := Some(text))
  }

  /** The font size field: only the size changes. */
  function FontSizeChange(size: int): (u: App.RegionPatch)
    ensures forall r :: App.Merge(r, u) == r.(fontSize := size)
  {
    App.EmptyPatch.(fontSize := Some(size))
  }

  /** The text colour picker: only the colour changes. */
  function ColorChange(c: Color): (u: App.RegionPatch)
    ensures forall r :: App.Merge(r, u) == r.(color := c)
  {
    App.EmptyPatch.(color := Some(c))
  }

  /** Picking a background colour also turns the transparent background off. */
  function BgColorChange(c: Color): (u: App.RegionPatch)
    ensures forall r :: App.Merge(r, u) == r.(bgColor := c, transparentBg := false)
  {
    App.EmptyPatch.(bgColor := Some(c), transparentBg := Some(false))
  }

  /** The transparent-background checkbox: only that flag changes. */
  function TransparencyChange(transparent: bool): (u: App.RegionPatch)
    ensures forall r :: App.Merge(r, u) == r.(transparentBg := transparent)
  {
    App.EmptyPatch.(transparentBg := Some(transparent))
  }

  /** What handleCommit sends once the fill is done. */
  const EditedPatch: App.RegionPatch := App.EmptyPatch.(edited := Some(true))

  /** Committing marks the region edited and changes nothing else in it. */
  lemma EditedPatchMarks(r: Region)
    ensures App.Merge(r, EditedPatch) == r.(edited := true)
  {
  }

  /**
   * A panel control: `onUpdateRegion(activeRegion.id, u)`. The controls exist only
   * while a region is active.
   */
  method ChangeField(s: App.Session, u: App.RegionPatch)
    requires s.Valid() && s.activeRegion.Some?
    modifies s
    ensures s.Valid()
    ensures s.regions == App.UpdateRegion(old(s.regions), old(s.activeRegion.value.id), u)
    ensures s.activeRegion == old(s.activeRegion) && s.nextId == old(s.nextId)
    ensures s.history == old(s.history) && s.historyIndex == old(s.historyIndex)
    ensures s.canvas == old(s.canvas) && s.mode == old(s.mode) && s.imageLoaded == old(s.imageLoaded)
    ensures s.isProcessing == old(s.isProcessing) && s.notices == old(s.notices)
    ensures s.imageRegions == old(s.imageRegions) && s.activeImageRegion == old(s.activeImageRegion)
  {
    s.OnUpdateRegion(s.activeRegion.value.id, u);
  }

  /** The cancel button: clear the active region, leave the list alone. */
  method Cancel(s: App.Session)
    requires s.Valid()
    modifies s
    ensures s.Valid() && s.activeRegion.None?
    ensures s.regions == old(s.regions) && s.nextId == old(s.nextId)
    ensures s.history == old(s.history) && s.historyIndex == old(s.historyIndex)
    ensures s.canvas == old(s.canvas) && s.mode == old(s.mode) && s.imageLoaded == old(s.imageLoaded)
    ensures s.isProcessing == old(s.isProcessing) && s.notices == old(s.notices)
    ensures s.imageRegions == old(s.imageRegions) && s.activeImageRegion == old(s.activeImageRegion)
  {
    s.activeRegion := None;
  }

  /**
   * handleCommit. With no active region nothing happens. Otherwise, in order:
   * save a history item holding the raster and region list as they are before the
   * fill; if the active region's background is not transparent, fill exactly its
   * rectangle with its bgColor; mark the region with that id edited; clear the
   * active region. All fields are read from the active-region copy.
   */
  method Commit(s: App.Session, timestamp: int)
    requires s.Valid()
    modifies s, s.canvas
    ensures s.Valid()
    ensures old(s.activeRegion).None? ==> unchanged(s) && unchanged(s.canvas)
    ensures old(s.activeRegion).Some? ==>
      var r := old(s.activeRegion.value);
      s.history == App.Committed(old(s.history), old(s.historyIndex),
        HistoryItem(old(Canvas.Pixels(s.canvas)), old(s.regions), timestamp, CommitLabel(r.text))) &&
      s.historyIndex == |s.history| - 1 &&
      s.canvas == old(s.canvas) &&
      (forall i, j :: 0 <= i < s.canvas.Length0 && 0 <= j < s.canvas.Length1 ==>
        s.canvas[i, j] == if !r.transparentBg && Covers(Bounds(r), j, i) then r.bgColor
                          else old(s.canvas[i, j])) &&
      s.regions == App.UpdateRegion(old(s.regions), r.id, EditedPatch) &&
      s.activeRegion.None?
    ensures s.nextId == old(s.nextId) && s.mode == old(s.mode) && s.imageLoaded == old(s.imageLoaded)
    ensures s.isProcessing == old(s.isProcessing) && s.notices == old(s.notices)
    ensures s.imageRegions == old(s.imageRegions) && s.activeImageRegion == old(s.activeImageRegion)
  {
    if s.activeRegion.None? {
      return;
    }
    var r := s.activeRegion.value;
    s.SaveHistory(CommitLabel(r.text), timestamp);
    if !r.transparentBg {
      Canvas.FillRect(s.canvas, Bounds(r), r.bgColor);
    }
    s.OnUpdateRegion(r.id, EditedPatch);
    s.activeRegion := None;
  }
}
