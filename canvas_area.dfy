/**
 * The canvas view (components/CanvasArea.tsx): the mapping from pointer to image
 * coordinates, the drag-to-select state machine, region creation and the
 * write-back of recognised text.
 */
module CanvasArea {
  import opened Types
  import App

  /** Space kept free around the image when fitting it to the container. */
  const FitPadding: real := 64.0

  function Min(a: real, b: real): real {
    if a <= b then a else b
  }

  /**
   * zoomFit: the largest scale, at most 1, at which the image fits the padded
   * container on both axes.
   */
  function ZoomFit(containerW: real, containerH: real, imageW: real, imageH: real): (scale: real)
    requires imageW > 0.0 && imageH > 0.0
    ensures scale <= 1.0
    ensures scale * imageW <= containerW - FitPadding
    ensures scale * imageH <= containerH - FitPadding
    ensures scale == 1.0 || scale == (containerW - FitPadding) / imageW ||
            scale == (containerH - FitPadding) / imageH
  {
    var sw := (containerW - FitPadding) / imageW;
    var sh := (containerH - FitPadding) / imageH;
    assert sw * imageW == containerW - FitPadding;
    assert sh * imageH == containerH - FitPadding;
    var scale := Min(Min(sw, sh), 1.0);
    assert scale <= sw && scale <= sh;
    MulMono(scale, sw, imageW);
    MulMono(scale, sh, imageH);
    scale
  }

  lemma MulMono(a: real, b: real, c: real)
    requires a <= b && c > 0.0
    ensures a * c <= b * c
  {
  }

  /** getCanvasCoords on one axis: pointer position relative to the canvas, divided by the scale. */
  function ToImageSpace(client: real, origin: real, scale: real): (v: real)
    requires scale > 0.0
    ensures ToScreen(v, origin, scale) == client
    ensures (v >= 0.0) <==> (client >= origin)
  {
    (client - origin) / scale
  }

  /** Where an image coordinate is drawn on screen at this scale. */
  function ToScreen(v: real, origin: real, scale: real): real {
    origin + v * scale
  }

  /** Mapping to image space and back to the screen reproduces the pointer position, and conversely. */
  lemma ImageSpaceRoundTrip(client: real, v: real, origin: real, scale: real)
    requires scale > 0.0
    ensures ToScreen(ToImageSpace(client, origin, scale), origin, scale) == client
    ensures ToImageSpace(ToScreen(v, origin, scale), origin, scale) == v
  {
  }

  function Abs(n: int): nat {
    if n < 0 then -n else n
  }

  /** The rectangle spanned by the drag start and the current pointer: min corner, |dx| by |dy|. */
  function NormalizeRect(start: Point, p: Point): (r: Rect)
    ensures r.w >= 0 && r.h >= 0
    ensures Contains(r, start) && Contains(r, p)
    ensures (r.x == start.x || r.x == p.x) && (r.y == start.y || r.y == p.y)
  {
    Rect(if start.x <= p.x then start.x else p.x,
         if start.y <= p.y then start.y else p.y,
         Abs(p.x - start.x),
         Abs(p.y - start.y))
  }

  /**
   * The normalised rectangle is the smallest one holding both endpoints, it does
   * not depend on which endpoint came first, and a click without motion gives a
   * zero-size rectangle at the click.
   */
  lemma NormalizeRectSmallest(start: Point, p: Point, b: Rect)
    requires Contains(b, start) && Contains(b, p)
    ensures var r := NormalizeRect(start, p);
      b.x <= r.x && r.x + r.w <= b.x + b.w && b.y <= r.y && r.y + r.h <= b.y + b.h
    ensures NormalizeRect(start, p) == NormalizeRect(p, start)
    ensures NormalizeRect(start, start) == Rect(start.x, start.y, 0, 0)
  {
  }

  /** The text a new region shows until recognition writes back. */
  const RecognizingText: string := "識別中..."
  const SelectedNotice: string := "區域已選取，正在分析文字..."
  const OcrFailedNotice: string := "OCR 失敗"

  /** processRegion's new record: the rectangle's geometry with the fixed default style. */
  function NewRegion(id: int, rect: Rect): (r: Region)
    ensures r.id == id && r.x == rect.x && r.y == rect.y && r.w == rect.w && r.h == rect.h
    ensures r.text == RecognizingText && r.originalText == RecognizingText
    ensures !r.edited && r.transparentBg && r.bgColor == "#ffffff"
  {
    Region(
      id := id, x := rect.x, y := rect.y, w := rect.w, h := rect.h,
      originalText := RecognizingText, text := RecognizingText,
      fontSize := 24, fontFamily := "Noto Sans TC", fontWeight := "400",
      color := "#000000", bgColor := "#ffffff", transparentBg := true,
      padding := 4, textAlign := Left, lineHeight := 1.2, rotation := 0,
      gradientEnabled := false, gradientDirection := None, edited := false)
  }

  /** The characters `String.prototype.trim` removes: white space and line terminators. */
  const Whitespace: set<char> := {' ', '\t', '\n', '\r', '\U{000B}', '\U{000C}', '\U{00A0}', '\U{1680}',
          '\U{2000}', '\U{2001}', '\U{2002}', '\U{2003}', '\U{2004}', '\U{2005}',
          '\U{2006}', '\U{2007}', '\U{2008}', '\U{2009}', '\U{200A}', '\U{2028}',
          '\U{2029}', '\U{202F}', '\U{205F}', '\U{3000}', '\U{FEFF}'}

  predicate IsWhitespace(c: char) {
    c in Whitespace
  }

  /** `s` without its leading white space. */
  function TrimStart(s: string): (r: string)
    ensures |r| <= |s| && r == s[|s| - |r|..]
    ensures forall k :: 0 <= k < |s| - |r| ==> IsWhitespace(s[k])
    ensures r != [] ==> !IsWhitespace(r[0])
    decreases |s|
  {
    if s != [] && IsWhitespace(s[0]) then TrimStart(s[1..]) else s
  }

  /** `s` without its trailing white space. */
  function TrimEnd(s: string): (r: string)
    ensures |r| <= |s| && r == s[..|r|]
    ensures forall k :: |r| <= k < |s| ==> IsWhitespace(s[k])
    ensures r != [] ==> !IsWhitespace(r[|r| - 1])
    decreases |s|
  {
    if s != [] && IsWhitespace(s[|s| - 1]) then TrimEnd(s[..|s| - 1]) else s
  }

  /** How many leading characters `text.trim()` removes. */
  function LeadingWhitespace(s: string): nat {
    |s| - |TrimStart(s)|
  }

  /** `text.trim()`: a slice of `s` that neither starts nor ends with white space, with only white space cut off. */
  function Trim(s: string): (r: string)
    ensures LeadingWhitespace(s) + |r| <= |s|
    ensures r == s[LeadingWhitespace(s) .. LeadingWhitespace(s) + |r|]
    ensures forall k :: 0 <= k < LeadingWhitespace(s) ==> IsWhitespace(s[k])
    ensures forall k :: LeadingWhitespace(s) + |r| <= k < |s| ==> IsWhitespace(s[k])
    ensures r != [] ==> !IsWhitespace(r[0]) && !IsWhitespace(r[|r| - 1])
  {
    var t := TrimStart(s);
    TrimEndOfSuffix(s, |s| - |t|);
    TrimEnd(t)
  }

  /** Trimming the end of the suffix `s[i..]` leaves a slice of `s` followed only by white space. */
  lemma TrimEndOfSuffix(s: string, i: nat)
    requires i <= |s|
    ensures var r := TrimEnd(s[i..]);
      i + |r| <= |s| && r == s[i..i + |r|] &&
      forall k :: i + |r| <= k < |s| ==> IsWhitespace(s[k])
  {
    var t := s[i..];
    var r := TrimEnd(t);
    assert r == s[i..i + |r|] by {
      assert r == t[..|r|];
    }
    forall k | i + |r| <= k < |s|
      ensures IsWhitespace(s[k])
    {
      assert s[k] == t[k - i];
    }
  }

  /** Text that neither starts nor ends with white space is left as it is; so trimming twice is trimming once. */
  lemma {:induction false} TrimIdempotent(s: string)
    requires s != [] ==> !IsWhitespace(s[0]) && !IsWhitespace(s[|s| - 1])
    ensures Trim(s) == s
    ensures Trim(Trim(s)) == Trim(s)
  {
    assert TrimStart(s) == s;
    assert TrimEnd(s) == s;
  }

  /** Trimming is idempotent on every string. */
  lemma TrimTwice(s: string)
    ensures Trim(Trim(s)) == Trim(s)
  {
    TrimIdempotent(Trim(s));
  }

  /** `regions.map(r => r.id === id ? { ...r, text, originalText: text } : r)` */
  function WriteBack(rs: seq<Region>, id: int, text: string): (r: seq<Region>)
    ensures |r| == |rs|
    ensures forall i :: 0 <= i < |rs| ==>
      r[i] == if rs[i].id == id then rs[i].(text := text, originalText := text) else rs[i]
    decreases |rs|
  {
    if rs == [] then []
    else [if rs[0].id == id then rs[0].(text := text, originalText := text) else rs[0]]
         + WriteBack(rs[1..], id, text)
  }

  /**
   * A late write-back touches only the text fields of the region with that id; if
   * the region has gone (an undo removed it) the list is unchanged, so the region
   * is never brought back.
   */
  lemma WriteBackStale(rs: seq<Region>, id: int, text: string, nextId: int)
    requires App.RegionsValid(rs, nextId)
    ensures App.Ids(WriteBack(rs, id, text)) == App.Ids(rs)
    ensures id !in App.Ids(rs) ==> WriteBack(rs, id, text) == rs
    ensures App.RegionsValid(WriteBack(rs, id, text), nextId)
  {
  }

  /** What the recognition engine delivers when it settles. */
  datatype Recognition = Recognized(raw: string) | RecognitionFailed

  /**
   * processRegion up to the recognition call: raise the processing flag, append the
   * new region with a fresh id, make it active and announce it. Without an engine
   * the flag drops again at once; with one it stays up until FinishRecognition.
   */
  method ProcessRegion(s: App.Session, rect: Rect, engineAvailable: bool) returns (id: int)
    requires s.Valid() && rect.w > 10 && rect.h > 10
    modifies s
    ensures s.Valid()
    ensures id == old(s.nextId) && s.nextId == id + 1
    ensures id !in App.Ids(old(s.regions))
    ensures s.regions == old(s.regions) + [NewRegion(id, rect)]
    ensures s.activeRegion == Some(NewRegion(id, rect))
    ensures s.notices == old(s.notices) + [Notice(SelectedNotice, Info)]
    ensures s.isProcessing == engineAvailable
    ensures s.history == old(s.history) && s.historyIndex == old(s.historyIndex)
    ensures s.canvas == old(s.canvas) && s.mode == old(s.mode) && s.imageLoaded == old(s.imageLoaded)
    ensures s.imageRegions == old(s.imageRegions) && s.activeImageRegion == old(s.activeImageRegion)
  {
    s.isProcessing := true;
    id := s.nextId;
    var region := NewRegion(id, rect);
    App.AppendFresh(s.regions, region, id);
    App.NextIdMonotone(s.history, s.historyIndex, s.canvas.Length0, s.canvas.Length1,
                       s.regions, id, id + 1);
    assert App.ActiveValid(Some(region), id + 1);
    s.nextId, s.regions, s.activeRegion := id + 1, s.regions + [region], Some(region);
    s.notices := s.notices + [Notice(SelectedNotice, Info)];
    if !engineAvailable {
      s.isProcessing := false;
    }
  }

  /**
   * The rest of processRegion, once recognition settles (possibly after other
   * edits or an undo): write the trimmed text into the region with that id, or on
   * failure announce it; in both cases the processing flag drops.
   */
  method FinishRecognition(s: App.Session, id: int, outcome: Recognition)
    requires s.Valid()
    modifies s
    ensures s.Valid() && !s.isProcessing
    ensures outcome.Recognized? ==>
      s.regions == WriteBack(old(s.regions), id, Trim(outcome.raw)) && s.notices == old(s.notices)
    ensures outcome.RecognitionFailed? ==>
      s.regions == old(s.regions) && s.notices == old(s.notices) + [Notice(OcrFailedNotice, Error)]
    ensures s.activeRegion == old(s.activeRegion) && s.nextId == old(s.nextId)
    ensures s.history == old(s.history) && s.historyIndex == old(s.historyIndex)
    ensures s.canvas == old(s.canvas) && s.mode == old(s.mode) && s.imageLoaded == old(s.imageLoaded)
    ensures s.imageRegions == old(s.imageRegions) && s.activeImageRegion == old(s.activeImageRegion)
  {
    match outcome {
      case Recognized(raw) =>
        var text := Trim(raw);
        var updated := WriteBack(s.regions, id, text);
        WriteBackStale(s.regions, id, text, s.nextId);
        s.regions, s.isProcessing := updated, false;
      case RecognitionFailed =>
        s.notices, s.isProcessing := s.notices + [Notice(OcrFailedNotice, Error)], false;
    }
  }

  /** Clicking a region's overlay makes (a copy of) it the active region. */
  method ClickRegion(s: App.Session, i: nat)
    requires s.Valid() && i < |s.regions|
    modifies s
    ensures s.Valid() && s.activeRegion == Some(old(s.regions[i]))
    ensures s.regions == old(s.regions) && s.nextId == old(s.nextId)
    ensures s.history == old(s.history) && s.historyIndex == old(s.historyIndex)
    ensures s.canvas == old(s.canvas) && s.mode == old(s.mode) && s.imageLoaded == old(s.imageLoaded)
    ensures s.isProcessing == old(s.isProcessing) && s.notices == old(s.notices)
    ensures s.imageRegions == old(s.imageRegions) && s.activeImageRegion == old(s.activeImageRegion)
  {
    s.activeRegion := Some(s.regions[i]);
  }

  /** The drag state of the canvas view: isSelecting, selectionStart, selectionRect. */
  class Selector {
    var isSelecting: bool
    var selectionStart: Option<Point>
    var selectionRect: Option<Rect>
    /** The pointer position the current selection rectangle was computed from. */
    ghost var pointer: Point

    /** During a drag the rectangle is the normalised span of the start and the pointer. */
    ghost predicate Valid()
      reads this
    {
      (isSelecting ==>
        selectionStart.Some? && selectionRect == Some(NormalizeRect(selectionStart.value, pointer))) &&
      (selectionRect.Some? ==> selectionRect.value.w >= 0 && selectionRect.value.h >= 0)
    }

    constructor ()
      ensures Valid() && !isSelecting && selectionStart.None? && selectionRect.None?
    {
      isSelecting := false;
      selectionStart := None;
      selectionRect := None;
      pointer := Point(0, 0);
    }

    /**
     * handleMouseDown: with an image loaded and the left button, in REGION or
     * IMAGE_SELECT mode, start a drag with a zero-size rectangle at the point.
     */
    method MouseDown(s: App.Session, button: int, p: Point)
      requires Valid()
      modifies this
      ensures Valid()
      ensures s.imageLoaded && button == 0 && StartsDrag(s.mode) ==>
        isSelecting && selectionStart == Some(p) && selectionRect == Some(Rect(p.x, p.y, 0, 0))
      ensures !(s.imageLoaded && button == 0 && StartsDrag(s.mode)) ==> unchanged(this)
    {
      if !s.imageLoaded || button != 0 {
        return;
      }
      if s.mode == RegionMode || s.mode == ImageSelect {
        isSelecting := true;
        selectionStart := Some(p);
        selectionRect := Some(Rect(p.x, p.y, 0, 0));
        pointer := p;
      }
    }

    /** handleMouseMove: during a drag, recompute the rectangle; otherwise nothing. */
    method MouseMove(p: Point)
      requires Valid()
      modifies this
      ensures Valid()
      ensures old(isSelecting && selectionStart.Some?) ==>
        isSelecting && selectionStart == old(selectionStart) &&
        selectionRect == Some(NormalizeRect(selectionStart.value, p))
      ensures !old(isSelecting && selectionStart.Some?) ==> unchanged(this)
    {
      if !isSelecting || selectionStart.None? {
        return;
      }
      selectionRect := Some(NormalizeRect(selectionStart.value, p));
      pointer := p;
    }

    /**
     * handleMouseUp: end the drag and clear the rectangle; a rectangle larger than
     * 10 by 10 in REGION mode becomes a new region (the id is returned), anything
     * else is dropped.
     */
    method MouseUp(s: App.Session, engineAvailable: bool) returns (created: Option<int>)
      requires Valid() && s.Valid()
      modifies this, s
      ensures Valid() && s.Valid()
      ensures old(isSelecting && selectionRect.Some?) ==> !isSelecting && selectionRect.None?
      ensures !old(isSelecting && selectionRect.Some?) ==> unchanged(this) && unchanged(s)
      ensures created.Some? <==>
        old(isSelecting && selectionRect.Some? &&
            selectionRect.value.w > 10 && selectionRect.value.h > 10) && s.mode == RegionMode
      ensures created.Some? ==>
        s.regions == old(s.regions) + [NewRegion(created.value, old(selectionRect.value))] &&
        s.activeRegion == Some(NewRegion(created.value, old(selectionRect.value))) &&
        s.isProcessing == engineAvailable &&
        created.value == old(s.nextId) && created.value !in App.Ids(old(s.regions)) &&
        s.nextId == old(s.nextId) + 1 &&
        s.notices == old(s.notices) + [Notice(SelectedNotice, Info)]
      ensures created.None? ==> unchanged(s)
      ensures s.imageRegions == old(s.imageRegions) && s.activeImageRegion == old(s.activeImageRegion)
      ensures s.history == old(s.history) && s.historyIndex == old(s.historyIndex)
      ensures s.canvas == old(s.canvas) && s.mode == old(s.mode) && s.imageLoaded == old(s.imageLoaded)
    {
      created := None;
      if !isSelecting || selectionRect.None? {
        return;
      }
      isSelecting := false;
      var rect := selectionRect.value;
      if rect.w > 10 && rect.h > 10 {
        if s.mode == RegionMode {
          var id := ProcessRegion(s, rect, engineAvailable);
          created := Some(id);
        }
      }
      selectionRect := None;
    }
  }
}
