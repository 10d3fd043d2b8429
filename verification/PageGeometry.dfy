/**
  From the page as the user sees it to the page as it is stored
  (src/common/document-signing/page-geometry.ts). Coordinates are PDF points over the reals.
 */
module PageGeometry {

  datatype Rotation = R0 | R90 | R180 | R270
  datatype Size = Size(width: real, height: real)
  datatype Point = Point(x: real, y: real)
  datatype Rect = Rect(x: real, y: real, width: real, height: real)
  datatype Ratios = Ratios(xRatio: real, yRatio: real, widthRatio: real, heightRatio: real)

  /** What drawImage gets: an anchor, a size and the angle given to degrees(). */
  datatype Placement = Placement(x: real, y: real, width: real, height: real, rotate: int)

  /** The remainder of JavaScript has the sign of the dividend. */
  function Remainder(a: int, b: int): int
    requires b > 0
  {
    if a >= 0 then a % b else -((-a) % b)
  }

  /** Math.round(angle / 90): half-way cases go up. */
  function RoundedQuadrant(angle: int): int {
    (2 * angle + 90) / 180
  }

  function ByQuadrant(i: int): Rotation {
    if i == 0 then R0 else if i == 1 then R90 else if i == 2 then R180 else R270
  }

  function OfQuadrant(q: int): Rotation {
    ByQuadrant(Remainder(Remainder(q, 4) + 4, 4))
  }

  function NormalizePageRotation(angle: int): Rotation {
    OfQuadrant(RoundedQuadrant(angle))
  }

  function Quadrant(r: Rotation): int {
    match r
    case R0 => 0
    case R90 => 1
    case R180 => 2
    case R270 => 3
  }

  lemma RemainderIsModulo(q: int)
    ensures Remainder(Remainder(q, 4) + 4, 4) == q % 4
  {
    if q < 0 {
      var r := (-q) % 4;
      assert -q == 4 * ((-q) / 4) + r;
      assert q == 4 * (-((-q) / 4)) - r;
    }
  }

  /** Whatever full turns the file adds or takes away, the quarter turn is the same. */
  lemma FullTurnsDoNotMatter(angle: int, turns: int)
    ensures NormalizePageRotation(angle + 360 * turns) == NormalizePageRotation(angle)
  {
    QuadrantShifts(2 * angle + 90, turns);
    FourQuadrantsAreATurn(RoundedQuadrant(angle), turns);
  }

  lemma FourQuadrantsAreATurn(q: int, turns: int)
    ensures OfQuadrant(q + 4 * turns) == OfQuadrant(q)
  {
    RemainderIsModulo(q);
    RemainderIsModulo(q + 4 * turns);
    SameModulo(q, turns);
  }

  lemma SameModulo(q: int, turns: int)
    ensures (q + 4 * turns) % 4 == q % 4
  {
    assert q + 4 * turns == 4 * (q / 4 + turns) + q % 4;
  }

  lemma QuadrantShifts(doubled: int, turns: int)
    ensures (doubled + 720 * turns) / 180 == doubled / 180 + 4 * turns
  {
    assert doubled + 720 * turns == 180 * (doubled / 180 + 4 * turns) + doubled % 180;
  }

  /** Every legal value of /Rotate, a multiple of 90, is kept up to full turns; any other goes to the nearest. */
  lemma NearestQuadrant(angle: int)
    ensures var q := RoundedQuadrant(angle);
            -45 <= 90 * q - angle <= 45 && Quadrant(NormalizePageRotation(angle)) == q % 4
    ensures angle % 90 == 0 ==> Quadrant(NormalizePageRotation(angle)) == (angle / 90) % 4
  {
    RemainderIsModulo(RoundedQuadrant(angle));
  }

  function DisplayedPageSize(content: Size, rotation: Rotation): Size {
    if rotation == R90 || rotation == R270 then Size(content.height, content.width) else content
  }

  function ToContentSpace(visible: Rect, content: Size, rotation: Rotation): Placement {
    var (w, h) := (visible.width, visible.height);
    match rotation
    case R90 => Placement(content.width - visible.y, visible.x, w, h, 90)
    case R180 => Placement(content.width - visible.x, content.height - visible.y, w, h, 180)
    case R270 => Placement(visible.y, content.height - visible.x, w, h, -90)
    case R0 => Placement(visible.x, visible.y, w, h, 0)
  }

  // ------------------------------------------------------------------------------------------
  // What drawing and displaying do.
  // ------------------------------------------------------------------------------------------

  predicate IsQuarterTurn(rotate: int) {
    rotate == 0 || rotate == 90 || rotate == 180 || rotate == -90
  }

  /** Where drawImage puts the point (a, b) of the image: turned counter-clockwise about the anchor. */
  function Drawn(p: Placement, a: real, b: real): Point
    requires IsQuarterTurn(p.rotate)
  {
    if p.rotate == 0 then Point(p.x + a, p.y + b)
    else if p.rotate == 90 then Point(p.x - b, p.y + a)
    else if p.rotate == 180 then Point(p.x - a, p.y - b)
    else Point(p.x + b, p.y - a)
  }

  /** Where a viewer shows a point of the page: the page turned clockwise by /Rotate. */
  function Displayed(content: Size, rotation: Rotation, p: Point): Point {
    match rotation
    case R0 => p
    case R90 => Point(p.y, content.width - p.x)
    case R180 => Point(content.width - p.x, content.height - p.y)
    case R270 => Point(content.height - p.y, p.x)
  }

  predicate IsOnPage(size: Size, p: Point) {
    0.0 <= p.x <= size.width && 0.0 <= p.y <= size.height
  }

  /** Turning the page turns its area onto the area the user sees. */
  lemma DisplayedPageIsThePage(content: Size, rotation: Rotation, p: Point)
    ensures IsOnPage(content, p) <==> IsOnPage(DisplayedPageSize(content, rotation), Displayed(content, rotation, p))
  {
  }

  /** The image is seen upright, with its lower left corner at the one of `visible`. */
  ghost predicate AppearsAt(p: Placement, content: Size, rotation: Rotation, visible: Rect) {
    && IsQuarterTurn(p.rotate) && p.width == visible.width && p.height == visible.height
    && forall a, b :: Displayed(content, rotation, Drawn(p, a, b)) == Point(visible.x + a, visible.y + b)
  }

  /** On every page, turned or not, the placement is the one and only one that shows the image where it was put. */
  lemma AppearsAtIff(p: Placement, content: Size, rotation: Rotation, visible: Rect)
    ensures AppearsAt(p, content, rotation, visible) <==> p == ToContentSpace(visible, content, rotation)
  {
    if AppearsAt(p, content, rotation, visible) {
      assert Displayed(content, rotation, Drawn(p, 0.0, 0.0)) == Point(visible.x + 0.0, visible.y + 0.0);
      assert Displayed(content, rotation, Drawn(p, 1.0, 0.0)) == Point(visible.x + 1.0, visible.y + 0.0);
    }
  }

  // ------------------------------------------------------------------------------------------
  // Ratios of the displayed page.
  // ------------------------------------------------------------------------------------------

  /** The frontend measures yRatio from the top, a PDF from the bottom. */
  function ToVisibleRect(ratios: Ratios, displayed: Size): Rect {
    Rect(ratios.xRatio * displayed.width,
         displayed.height - (ratios.yRatio + ratios.heightRatio) * displayed.height,
         ratios.widthRatio * displayed.width,
         ratios.heightRatio * displayed.height)
  }

  predicate RatiosAreInside(r: Ratios) {
    && 0.0 <= r.xRatio && 0.0 <= r.widthRatio && r.xRatio + r.widthRatio <= 1.0
    && 0.0 <= r.yRatio && 0.0 <= r.heightRatio && r.yRatio + r.heightRatio <= 1.0
  }

  predicate IsInside(rect: Rect, size: Size) {
    && 0.0 <= rect.x && 0.0 <= rect.width && rect.x + rect.width <= size.width
    && 0.0 <= rect.y && 0.0 <= rect.height && rect.y + rect.height <= size.height
  }

  lemma ScaledBounds(r: real, size: real)
    requires size > 0.0
    ensures 0.0 <= r <==> 0.0 <= r * size
    ensures r <= 1.0 <==> r * size <= size
  {
    if r < 0.0 {
      assert r * size < 0.0;
    }
    assert (1.0 - r) * size == size - r * size;
    if r > 1.0 {
      assert (1.0 - r) * size < 0.0;
    }
  }

  predicate Fits(from: real, length: real, size: real) {
    0.0 <= from && 0.0 <= length && from + length <= size
  }

  /** One axis: `from` and `length` are fractions of `size`. */
  lemma AxisInside(from: real, length: real, size: real)
    requires size > 0.0
    ensures (from + length) * size == from * size + length * size
    ensures Fits(from * size, length * size, size) <==> Fits(from, length, 1.0)
  {
    ScaledBounds(from, size);
    ScaledBounds(length, size);
    ScaledBounds(from + length, size);
  }

  /** A box is inside the displayed page exactly when its ratios are between 0 and 1. */
  lemma InsideIffRatios(ratios: Ratios, displayed: Size)
    requires displayed.width > 0.0 && displayed.height > 0.0
    ensures IsInside(ToVisibleRect(ratios, displayed), displayed) <==> RatiosAreInside(ratios)
  {
    AxisInside(ratios.xRatio, ratios.widthRatio, displayed.width);
    AxisInside(ratios.yRatio, ratios.heightRatio, displayed.height);
    InsideByAxes(ToVisibleRect(ratios, displayed), displayed, ratios.yRatio * displayed.height);
  }

  /** `fromTop` is the distance of the upper edge from the top. */
  lemma InsideByAxes(rect: Rect, size: Size, fromTop: real)
    requires rect.y == size.height - (fromTop + rect.height)
    ensures IsInside(rect, size)
       <==> Fits(rect.x, rect.width, size.width) && Fits(fromTop, rect.height, size.height)
  {
  }

  /** The ratios the user's viewer measures on a box of the displayed page. */
  function Measured(rect: Rect, displayed: Size): Ratios
    requires displayed.width > 0.0 && displayed.height > 0.0
  {
    Ratios(rect.x / displayed.width, (displayed.height - rect.y - rect.height) / displayed.height,
           rect.width / displayed.width, rect.height / displayed.height)
  }

  /** Ratios and boxes are two notations for one thing. */
  lemma MeasuredComesBack(rect: Rect, displayed: Size)
    requires displayed.width > 0.0 && displayed.height > 0.0
    ensures ToVisibleRect(Measured(rect, displayed), displayed) == rect
  {
    var (w, h) := (displayed.width, displayed.height);
    var m := Measured(rect, displayed);
    assert m.xRatio * w == rect.x && m.widthRatio * w == rect.width && m.heightRatio * h == rect.height;
    assert m.yRatio * h == h - rect.y - rect.height;
    assert (m.yRatio + m.heightRatio) * h == m.yRatio * h + m.heightRatio * h;
  }

  /** And the other way around: what is measured on the box of some ratios is these ratios. */
  lemma RatiosComeBack(ratios: Ratios, displayed: Size)
    requires displayed.width > 0.0 && displayed.height > 0.0
    ensures Measured(ToVisibleRect(ratios, displayed), displayed) == ratios
  {
    var (w, h) := (displayed.width, displayed.height);
    Divided(ratios.xRatio, w);
    Divided(ratios.widthRatio, w);
    Divided(ratios.heightRatio, h);
    Divided(ratios.yRatio, h);
    assert (ratios.yRatio + ratios.heightRatio) * h == ratios.yRatio * h + ratios.heightRatio * h;
  }

  lemma Divided(r: real, size: real)
    requires size > 0.0
    ensures r * size / size == r
  {
  }
}
