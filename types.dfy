/** Records and enumerations shared by the editor session (types.ts). */
module Types {

  datatype Option<+T> = None | Some(value: T)

  /** The thirteen tools of the editor; the string each stands for is ModeName. */
  datatype EditorMode =
    | Select | RegionMode | ImageSelect | Lasso | MagicWand | Eyedropper | Crop
    | Brush | Shape | Arrow | Marker | Mosaic | Blur

  /** Every mode, in declaration order. */
  const AllModes: seq<EditorMode> :=
    [Select, RegionMode, ImageSelect, Lasso, MagicWand, Eyedropper, Crop,
     Brush, Shape, Arrow, Marker, Mosaic, Blur]

  function ModeName(m: EditorMode): string {
    match m
    case Select => "select"
    case RegionMode => "region"
    case ImageSelect => "imageSelect"
    case Lasso => "lasso"
    case MagicWand => "magicwand"
    case Eyedropper => "eyedropper"
    case Crop => "crop"
    case Brush => "brush"
    case Shape => "shape"
    case Arrow => "arrow"
    case Marker => "marker"
    case Mosaic => "mosaic"
    case Blur => "blur"
  }

  /**
   * The mode whose enum string is `s`, if any. TypeScript string enums have no
   * reverse lookup and the editor never parses a mode; this inverse exists only
   * to show that the thirteen strings are distinct (ModesDistinct).
   */
  function ModeFromName(s: string): (r: Option<EditorMode>)
    ensures r.Some? ==> ModeName(r.value) == s
  {
    if s == "select" then Some(Select)
    else if s == "region" then Some(RegionMode)
    else if s == "imageSelect" then Some(ImageSelect)
    else if s == "lasso" then Some(Lasso)
    else if s == "magicwand" then Some(MagicWand)
    else if s == "eyedropper" then Some(Eyedropper)
    else if s == "crop" then Some(Crop)
    else if s == "brush" then Some(Brush)
    else if s == "shape" then Some(Shape)
    else if s == "arrow" then Some(Arrow)
    else if s == "marker" then Some(Marker)
    else if s == "mosaic" then Some(Mosaic)
    else if s == "blur" then Some(Blur)
    else None
  }

  /** The position of a mode in declaration order. */
  function ModeIndex(m: EditorMode): nat {
    match m
    case Select => 0
    case RegionMode => 1
    case ImageSelect => 2
    case Lasso => 3
    case MagicWand => 4
    case Eyedropper => 5
    case Crop => 6
    case Brush => 7
    case Shape => 8
    case Arrow => 9
    case Marker => 10
    case Mosaic => 11
    case Blur => 12
  }

  /** The enum has exactly 13 members, each listed in AllModes at its own position, and each mode's string maps back to it. */
  lemma ModesEnumerated(m: EditorMode)
    ensures |AllModes| == 13
    ensures ModeIndex(m) < |AllModes| && AllModes[ModeIndex(m)] == m
    ensures forall i :: 0 <= i < |AllModes| ==> ModeIndex(AllModes[i]) == i
    ensures ModeFromName(ModeName(m)) == Some(m)
  {
  }

  /** No mode is listed twice, and no two modes share a string. */
  lemma ModesDistinct(m: EditorMode, n: EditorMode)
    ensures forall i, j :: 0 <= i < j < |AllModes| ==> AllModes[i] != AllModes[j]
    ensures ModeName(m) == ModeName(n) ==> m == n
  {
    ModesEnumerated(m);
    ModesEnumerated(n);
    forall i, j | 0 <= i < j < |AllModes|
      ensures AllModes[i] != AllModes[j]
    {
      assert ModeIndex(AllModes[i]) != ModeIndex(AllModes[j]);
    }
  }

  /** The modes in which pressing the mouse on the canvas starts a selection drag. */
  predicate StartsDrag(m: EditorMode) {
    m == RegionMode || m == ImageSelect
  }

  /** Of the thirteen modes exactly two, REGION and IMAGE_SELECT, start a drag. */
  lemma DragModes()
    ensures forall i :: 0 <= i < |AllModes| ==> (StartsDrag(AllModes[i]) <==> i == 1 || i == 2)
    ensures AllModes[1] == RegionMode && AllModes[2] == ImageSelect
  {
  }

  datatype TextAlign = Left | Center | Right
  datatype GradientDirection = Horizontal | Vertical | Diagonal

  function TextAlignName(a: TextAlign): string {
    match a
    case Left => "left"
    case Center => "center"
    case Right => "right"
  }

  function GradientDirectionName(d: GradientDirection): string {
    match d
    case Horizontal => "horizontal"
    case Vertical => "vertical"
    case Diagonal => "diagonal"
  }

  /** `textAlign` and `gradientDirection` each take one of three distinct strings. */
  lemma StyleNamesDistinct(a: TextAlign, b: TextAlign, d: GradientDirection, e: GradientDirection)
    ensures TextAlignName(a) in {"left", "center", "right"}
    ensures TextAlignName(a) == TextAlignName(b) ==> a == b
    ensures GradientDirectionName(d) in {"horizontal", "vertical", "diagonal"}
    ensures GradientDirectionName(d) == GradientDirectionName(e) ==> d == e
  {
  }

  /** CSS colour strings such as "#ffffff"; a pixel of the raster holds one too. */
  type Color = string

  /** A raster: rows of pixels, row index = y, column index = x. */
  type Raster = seq<seq<Color>>

  ghost predicate IsGrid(g: Raster, rows: nat, cols: nat) {
    |g| == rows && forall i :: 0 <= i < rows ==> |g[i]| == cols
  }

  datatype Point = Point(x: int, y: int)

  /** An axis-aligned rectangle with top-left corner (x, y). */
  datatype Rect = Rect(x: int, y: int, w: int, h: int)

  /** Whether pixel (px, py) lies in `r` (left and top edges inclusive). */
  predicate Covers(r: Rect, px: int, py: int) {
    r.x <= px < r.x + r.w && r.y <= py < r.y + r.h
  }

  /** Whether the point lies in `r` with its right and bottom edges included. */
  predicate Contains(r: Rect, p: Point) {
    r.x <= p.x <= r.x + r.w && r.y <= p.y <= r.y + r.h
  }

  /**
   * A text region. The fields kept are those the session logic reads or writes;
   * stroke, shadow, scaleY, letterSpacing and curve fields are not part of this model.
   */
  datatype Region = Region(
    id: int,
    x: int, y: int, w: int, h: int,
    originalText: string,
    text: string,
    fontSize: int,
    fontFamily: string,
    fontWeight: string,
    color: Color,
    bgColor: Color,
    transparentBg: bool,
    padding: int,
    textAlign: TextAlign,
    lineHeight: real,
    rotation: int,
    gradientEnabled: bool,
    gradientDirection: Option<GradientDirection>,
    edited: bool)

  datatype ImageRegionKind = ImageKind | LassoKind

  function ImageRegionKindName(k: ImageRegionKind): (s: string)
    ensures s == "image" || s == "lasso"
  {
    match k
    case ImageKind => "image"
    case LassoKind => "lasso"
  }

  /** A selected image fragment, with its current and original placement. */
  datatype ImageRegion = ImageRegion(
    id: int,
    kind: ImageRegionKind,
    x: int, y: int, w: int, h: int,
    originalW: int, originalH: int, originalX: int, originalY: int,
    imageData: string,
    originalImageData: string,
    bgColor: Color,
    transparentBg: bool,
    tolerance: int,
    rotation: int,
    scale: real,
    lassoPath: Option<seq<Point>>,
    originalLassoPath: Option<seq<Point>>)

  /** One checkpoint of the undo log: a raster, a copy of the region list, a time and a label. */
  datatype HistoryItem = HistoryItem(
    raster: Raster,
    regions: seq<Region>,
    timestamp: int,
    actionName: string)

  datatype Severity = Success | Error | Info

  /** A transient user-visible notice (the toast). */
  datatype Notice = Notice(message: string, severity: Severity)
}
