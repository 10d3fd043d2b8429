/**
  Where signatures are drawn on a document: the stamping loop (stampSignaturesOnto in
  src/document/document.service.ts) with the size and fitting rules of mergeSignatureIntoPdf
  (src/common/document-signing/document-signing.service.ts). Measures are PDF points over the reals;
  a document is its pages and the stamps drawn on them so far.
 */
module Stamping {
  import opened Wrappers
  import opened Collections
  import opened PageGeometry

  datatype Page = Page(size: Size, rotation: Rotation)

  datatype SignatureType = SIMPLE | FIEL | BIOMETRIC

  /** Ratios on a page counted from 1, or the absolute box of older data. */
  datatype Position = Ratio(page: int, ratios: Ratios) | Legacy(box: Rect)

  /**
    `positions` is None for a signer without simpleSignature. `image` is the size in pixels of the
    picture or, for FIEL, of the QR code.
   */
  datatype Signer = Signer(id: nat, signatureType: SignatureType, signed: bool, positions: Option<seq<Position>>,
                           image: Size)

  /** A picture drawn on page `pageIndex`, in the displayed space of that page. */
  datatype Stamp = Stamp(signer: nat, pageIndex: int, box: Rect)

  const DEFAULT_COORDINATES := Rect(50.0, 200.0, 100.0, 80.0)
  const VERTICAL_GAP := 40.0
  const DEFAULT_SIGNATURE_SIZE := Size(200.0, 80.0)
  const MIN_SIGNATURE_SIZE := Size(60.0, 24.0)
  const MAX_SIGNATURE_SIZE := Size(320.0, 128.0)

  predicate ValidSigners(signers: seq<Signer>) {
    forall s :: s in signers ==> s.image.width > 0.0 && s.image.height > 0.0
  }

  /** resolveStampImage gives no image for a biometric signer, nor for an e.firma still to be made. */
  predicate HasImage(s: Signer) {
    match s.signatureType
    case SIMPLE => true
    case FIEL => s.signed
    case BIOMETRIC => false
  }

  predicate IsStacked(s: Signer) {
    HasImage(s) && s.positions.None?
  }

  predicate IsOutOfRange(box: Rect) {
    || box.width < MIN_SIGNATURE_SIZE.width || box.height < MIN_SIGNATURE_SIZE.height
    || box.width > MAX_SIGNATURE_SIZE.width || box.height > MAX_SIGNATURE_SIZE.height
  }

  function ResolveSignatureSize(box: Rect): Size {
    if IsOutOfRange(box) then DEFAULT_SIGNATURE_SIZE else Size(box.width, box.height)
  }

  function Min(a: real, b: real): real {
    if a <= b then a else b
  }

  function FitPreservingAspectRatio(image: Size, x: real, y: real, box: Size): Rect
    requires image.width > 0.0 && image.height > 0.0
  {
    var scale := Min(box.width / image.width, box.height / image.height);
    var (w, h) := (image.width * scale, image.height * scale);
    Rect(x + (box.width - w) / 2.0, y + (box.height - h) / 2.0, w, h)
  }

  /** mergeSignatureIntoPdf, steps 5 and 6. */
  function DrawnBox(s: Signer, coordinates: Rect, normalizeSize: bool): Rect
    requires s.image.width > 0.0 && s.image.height > 0.0
  {
    var size := if normalizeSize then ResolveSignatureSize(coordinates) else Size(coordinates.width, coordinates.height);
    if s.signatureType == FIEL then FitPreservingAspectRatio(s.image, coordinates.x, coordinates.y, size)
    else Rect(coordinates.x, coordinates.y, size.width, size.height)
  }

  /** How far the page at `index` is from the one counted `page`. */
  function Distance(index: int, page: int): nat {
    if index + 1 <= page then page - (index + 1) else index + 1 - page
  }

  /** Pages are counted from 1; a page the document does not have becomes the nearest one it has. */
  function Clamp(page: int, pages: nat): (index: int)
    requires pages > 0
    ensures 0 <= index < pages
    ensures forall other :: 0 <= other < pages ==> Distance(index, page) <= Distance(other, page)
  {
    var wanted := if page - 1 > 0 then page - 1 else 0;
    if wanted < pages - 1 then wanted else pages - 1
  }

  function StampAt(pages: seq<Page>, s: Signer, position: Position): Stamp
    requires pages != [] && s.image.width > 0.0 && s.image.height > 0.0
  {
    match position
    case Ratio(page, ratios) =>
      var index := Clamp(page, |pages|);
      var displayed := DisplayedPageSize(pages[index].size, pages[index].rotation);
      Stamp(s.id, index, DrawnBox(s, ToVisibleRect(ratios, displayed), false))
    case Legacy(box) => Stamp(s.id, |pages| - 1, DrawnBox(s, box, true))
  }

  function VerticalStep(base: Rect): real {
    base.height + VERTICAL_GAP
  }

  /** The k-th place of the automatic stack. */
  function StackBox(base: Rect, k: nat): Rect {
    base.(y := base.y + k as real * VerticalStep(base))
  }

  /** What one signer gets when `k` signers were stacked before. */
  function StampsOf(pages: seq<Page>, base: Rect, s: Signer, k: nat): seq<Stamp>
    requires pages != [] && s.image.width > 0.0 && s.image.height > 0.0
  {
    if !HasImage(s) then []
    else
      match s.positions
      case Some(positions) => seq(|positions|, m requires 0 <= m < |positions| => StampAt(pages, s, positions[m]))
      case None => [Stamp(s.id, |pages| - 1, DrawnBox(s, StackBox(base, k), true))]
  }

  function CountStacked(signers: seq<Signer>): nat {
    if signers == [] then 0
    else CountStacked(signers[..|signers| - 1]) + if IsStacked(signers[|signers| - 1]) then 1 else 0
  }

  /** Each signer's stamps, in the order of the list. */
  function Stamps(pages: seq<Page>, base: Rect, signers: seq<Signer>): seq<Stamp>
    requires pages != [] && ValidSigners(signers)
  {
    if signers == [] then []
    else
      var rest, last := signers[..|signers| - 1], signers[|signers| - 1];
      Stamps(pages, base, rest) + StampsOf(pages, base, last, CountStacked(rest))
  }

  lemma StampsNext(pages: seq<Page>, base: Rect, signers: seq<Signer>, i: nat)
    requires pages != [] && ValidSigners(signers) && i < |signers|
    ensures signers[i] in signers && ValidSigners(signers[..i]) && ValidSigners(signers[..i + 1])
    ensures Stamps(pages, base, signers[..i + 1])
         == Stamps(pages, base, signers[..i]) + StampsOf(pages, base, signers[i], CountStacked(signers[..i]))
    ensures CountStacked(signers[..i + 1]) == CountStacked(signers[..i]) + if IsStacked(signers[i]) then 1 else 0
  {
    assert signers[..i + 1][..i] == signers[..i];
  }

  /** One stamp for each explicit position. */
  method StampPositions(pages: seq<Page>, s: Signer, positions: seq<Position>) returns (stamps: seq<Stamp>)
    requires pages != [] && s.image.width > 0.0 && s.image.height > 0.0
    ensures |stamps| == |positions| && forall m :: 0 <= m < |positions| ==> stamps[m] == StampAt(pages, s, positions[m])
  {
    stamps := [];
    for m := 0 to |positions|
      invariant |stamps| == m && forall k :: 0 <= k < m ==> stamps[k] == StampAt(pages, s, positions[k])
    {
      stamps := stamps + [StampAt(pages, s, positions[m])];
    }
  }

  /** One round of the loop; `autoStackIndex` advances only for signers that are stacked. */
  method StampSigner(pages: seq<Page>, base: Rect, s: Signer, autoStackIndex: nat)
    returns (stamps: seq<Stamp>, nextIndex: nat)
    requires pages != [] && s.image.width > 0.0 && s.image.height > 0.0
    ensures stamps == StampsOf(pages, base, s, autoStackIndex)
    ensures nextIndex == autoStackIndex + if IsStacked(s) then 1 else 0
  {
    nextIndex := autoStackIndex;
    if !HasImage(s) {
      return [], nextIndex;
    }
    if s.positions.Some? {
      stamps := StampPositions(pages, s, s.positions.value);
      assert stamps == StampsOf(pages, base, s, autoStackIndex);
    } else {
      var verticalStep := base.height + VERTICAL_GAP;
      var coordinates := base.(y := base.y + autoStackIndex as real * verticalStep);
      assert coordinates == StackBox(base, autoStackIndex);
      nextIndex := autoStackIndex + 1;
      stamps := [Stamp(s.id, |pages| - 1, DrawnBox(s, coordinates, true))];
    }
  }

  method StampSignaturesOnto(pages: seq<Page>, signatureCoordinates: Option<Rect>, signers: seq<Signer>)
    returns (stamps: seq<Stamp>)
    requires pages != [] && ValidSigners(signers)
    ensures stamps == Stamps(pages, BaseOf(signatureCoordinates), signers)
    ensures var base := if signatureCoordinates.Some? then signatureCoordinates.value else Rect(50.0, 200.0, 100.0, 80.0);
            && Offset(pages, base, signers, 0) == 0 && Offset(pages, base, signers, |signers|) == |stamps|
            && forall i :: 0 <= i < |signers| ==> StretchIsPlaced(pages, base, signers, stamps, i)
  {
    StretchesArePlaced(pages, BaseOf(signatureCoordinates), signers);
    stamps := [];
    var base := BaseOf(signatureCoordinates);
    var autoStackIndex := 0;
    for i := 0 to |signers|
      invariant ValidSigners(signers[..i])
      invariant stamps == Stamps(pages, base, signers[..i])
      invariant autoStackIndex == CountStacked(signers[..i])
    {
      StampsNext(pages, base, signers, i);
      var added, nextIndex := StampSigner(pages, base, signers[i], autoStackIndex);
      stamps, autoStackIndex := stamps + added, nextIndex;
    }
    assert signers[..|signers|] == signers;
  }

  function BaseOf(signatureCoordinates: Option<Rect>): Rect {
    if signatureCoordinates.Some? then signatureCoordinates.value else DEFAULT_COORDINATES
  }

  // ------------------------------------------------------------------------------------------
  // Every signer in its place.
  // ------------------------------------------------------------------------------------------

  function Offset(pages: seq<Page>, base: Rect, signers: seq<Signer>, i: nat): nat
    requires pages != [] && ValidSigners(signers) && i <= |signers|
  {
    |Stamps(pages, base, signers[..i])|
  }

  /** The stamps of the i-th signer are one stretch of the whole, with nothing in between. */
  lemma StampsOfSigner(pages: seq<Page>, base: Rect, signers: seq<Signer>, i: nat)
    requires pages != [] && ValidSigners(signers) && i < |signers|
    ensures ValidSigners([signers[i]])
    ensures var from, to := Offset(pages, base, signers, i), Offset(pages, base, signers, i + 1);
            && from <= to <= |Stamps(pages, base, signers)|
            && Stamps(pages, base, signers)[from..to] == StampsOf(pages, base, signers[i], CountStacked(signers[..i]))
  {
    assert signers[i] in signers;
    StampsNext(pages, base, signers, i);
    LongerListExtends(pages, base, signers, i + 1, |signers|);
    assert signers[..|signers|] == signers;
    StretchOf(Stamps(pages, base, signers), Stamps(pages, base, signers[..i]),
              StampsOf(pages, base, signers[i], CountStacked(signers[..i])));
  }

  lemma {:induction false} LongerListExtends(pages: seq<Page>, base: Rect, signers: seq<Signer>, i: nat, j: nat)
    requires pages != [] && ValidSigners(signers) && i <= j <= |signers|
    ensures Stamps(pages, base, signers[..i]) <= Stamps(pages, base, signers[..j])
    decreases j
  {
    if i < j {
      LongerListExtends(pages, base, signers, i, j - 1);
      StampsNext(pages, base, signers, j - 1);
      PrefixOfConcat(Stamps(pages, base, signers[..i]), Stamps(pages, base, signers[..j - 1]),
                     StampsOf(pages, base, signers[j - 1], CountStacked(signers[..j - 1])));
    }
  }

  /** A signer with explicit positions gets one stamp for each, in order; an empty list, none. */
  lemma ExplicitPositionsOnceEach(pages: seq<Page>, base: Rect, s: Signer, k: nat)
    requires pages != [] && ValidSigners([s]) && HasImage(s) && s.positions.Some?
    ensures s in [s] && |StampsOf(pages, base, s, k)| == |s.positions.value|
    ensures forall m :: 0 <= m < |s.positions.value| ==>
              StampsOf(pages, base, s, k)[m] == StampAt(pages, s, s.positions.value[m])
  {
    assert s in [s];
  }

  lemma {:induction false} CountGrows(signers: seq<Signer>, i: nat, j: nat)
    requires i < j <= |signers|
    ensures CountStacked(signers[..j]) >= CountStacked(signers[..i]) + if IsStacked(signers[i]) then 1 else 0
  {
    assert signers[..j][..j - 1] == signers[..j - 1];
    if i < j - 1 {
      CountGrows(signers, i, j - 1);
    }
  }

  // ------------------------------------------------------------------------------------------
  // Where the user put it.
  // ------------------------------------------------------------------------------------------

  /** The size of a box that may be drawn as it is: 60 to 320 points wide and 24 to 128 high; any other is 200 by 80. */
  function UsedSize(box: Rect): Size {
    if 60.0 <= box.width <= 320.0 && 24.0 <= box.height <= 128.0 then Size(box.width, box.height) else Size(200.0, 80.0)
  }

  /** A rubric fills its box; the code of an e.firma is inside it, with the proportions of the code, in the middle. */
  predicate Fills(s: Signer, drawn: Rect, box: Rect) {
    if s.signatureType == FIEL then
      box.width > 0.0 && box.height > 0.0 ==>
        && Within(drawn, box) && (drawn.width == box.width || drawn.height == box.height)
        && drawn.width * s.image.height == drawn.height * s.image.width
        && drawn.x - box.x == box.x + box.width - (drawn.x + drawn.width)
        && drawn.y - box.y == box.y + box.height - (drawn.y + drawn.height)
    else drawn == box
  }

  /**
    A position in ratios: the page asked for, or the nearest there is; and on that page, as the user
    sees it, the box on which a viewer measures those ratios, whatever its size.
   */
  ghost predicate IsAtRatios(pages: seq<Page>, s: Signer, page: int, ratios: Ratios, stamp: Stamp) {
    && 0 <= stamp.pageIndex < |pages|
    && stamp.pageIndex == (if page < 1 then 0 else if page > |pages| then |pages| - 1 else page - 1)
    && var shown := DisplayedPageSize(pages[stamp.pageIndex].size, pages[stamp.pageIndex].rotation);
       shown.width > 0.0 && shown.height > 0.0 ==>
         && (s.signatureType != FIEL ==> Measured(stamp.box, shown) == ratios)
         && forall box :: Measured(box, shown) == ratios ==> Fills(s, stamp.box, box)
  }

  /** An absolute box: the last page, its lower left corner, and its size if that is in range. */
  predicate IsAtBox(pages: seq<Page>, s: Signer, box: Rect, stamp: Stamp) {
    && stamp.pageIndex == |pages| - 1
    && Fills(s, stamp.box, Rect(box.x, box.y, UsedSize(box).width, UsedSize(box).height))
  }

  ghost predicate IsAt(pages: seq<Page>, s: Signer, position: Position, stamp: Stamp) {
    && stamp.signer == s.id
    && match position
       case Ratio(page, ratios) => IsAtRatios(pages, s, page, ratios, stamp)
       case Legacy(box) => IsAtBox(pages, s, box, stamp)
  }

  lemma DrawnBoxFills(s: Signer, box: Rect, normalizeSize: bool)
    requires s.image.width > 0.0 && s.image.height > 0.0
    ensures var size := if normalizeSize then UsedSize(box) else Size(box.width, box.height);
            Fills(s, DrawnBox(s, box, normalizeSize), Rect(box.x, box.y, size.width, size.height))
  {
    var size := if normalizeSize then UsedSize(box) else Size(box.width, box.height);
    assert normalizeSize ==> size == ResolveSignatureSize(box);
    if size.width > 0.0 && size.height > 0.0 {
      CodeFits(s.image, box.x, box.y, size);
    }
  }

  /** Every stamp is where its position says. */
  lemma StampIsAtItsPosition(pages: seq<Page>, s: Signer, position: Position)
    requires pages != [] && s.image.width > 0.0 && s.image.height > 0.0
    ensures IsAt(pages, s, position, StampAt(pages, s, position))
  {
    match position
    case Legacy(box) => DrawnBoxFills(s, box, true);
    case Ratio(page, ratios) =>
      var stamp := StampAt(pages, s, position);
      var shown := DisplayedPageSize(pages[stamp.pageIndex].size, pages[stamp.pageIndex].rotation);
      NearestPage(page, |pages|);
      if shown.width > 0.0 && shown.height > 0.0 {
        RatiosComeBack(ratios, shown);
        DrawnBoxFills(s, ToVisibleRect(ratios, shown), false);
        forall box | Measured(box, shown) == ratios ensures box == ToVisibleRect(ratios, shown) {
          MeasuredComesBack(box, shown);
        }
      }
  }

  lemma NearestPage(page: int, pages: nat)
    requires pages > 0
    ensures Clamp(page, pages) == if page < 1 then 0 else if page > pages then pages - 1 else page - 1
  {
  }

  /**
    What one signer gets when `k` signers were stacked before: nothing for a biometric signature or
    an e.firma still to be made; else one stamp for each explicit position; else one stamp in the
    stack, k steps of the box's height plus 40 points above the anchor.
   */
  ghost predicate IsStampedAt(pages: seq<Page>, base: Rect, s: Signer, k: nat, stamps: seq<Stamp>) {
    if s.signatureType == BIOMETRIC || (s.signatureType == FIEL && !s.signed) then stamps == []
    else
      match s.positions
      case Some(positions) =>
        |stamps| == |positions| && forall m :: 0 <= m < |stamps| ==> IsAt(pages, s, positions[m], stamps[m])
      case None =>
        |stamps| == 1 && IsAt(pages, s, Legacy(base.(y := base.y + k as real * (base.height + 40.0))), stamps[0])
  }

  lemma PositionsAreStamped(pages: seq<Page>, s: Signer, positions: seq<Position>, stamps: seq<Stamp>)
    requires pages != [] && s.image.width > 0.0 && s.image.height > 0.0 && |stamps| == |positions|
    requires forall m :: 0 <= m < |stamps| ==> stamps[m] == StampAt(pages, s, positions[m])
    ensures forall m :: 0 <= m < |stamps| ==> IsAt(pages, s, positions[m], stamps[m])
  {
    forall m | 0 <= m < |stamps| ensures IsAt(pages, s, positions[m], stamps[m]) {
      StampIsAtItsPosition(pages, s, positions[m]);
    }
  }

  lemma SignerIsStampedAt(pages: seq<Page>, base: Rect, s: Signer, k: nat)
    requires pages != [] && s.image.width > 0.0 && s.image.height > 0.0
    ensures IsStampedAt(pages, base, s, k, StampsOf(pages, base, s, k))
  {
    match s.positions
    case Some(positions) =>
      if HasImage(s) {
        PositionsAreStamped(pages, s, positions, StampsOf(pages, base, s, k));
      }
    case None => StampIsAtItsPosition(pages, s, Legacy(StackBox(base, k)));
  }

  /** The stretch of the i-th signer, who comes after `CountStacked` stacked ones, is where it should be. */
  ghost predicate StretchIsPlaced(pages: seq<Page>, base: Rect, signers: seq<Signer>, stamps: seq<Stamp>, i: nat)
    requires pages != [] && ValidSigners(signers) && i < |signers|
  {
    var from, to := Offset(pages, base, signers, i), Offset(pages, base, signers, i + 1);
    from <= to <= |stamps| && IsStampedAt(pages, base, signers[i], CountStacked(signers[..i]), stamps[from..to])
  }

  lemma StretchesArePlaced(pages: seq<Page>, base: Rect, signers: seq<Signer>)
    requires pages != [] && ValidSigners(signers)
    ensures forall i :: 0 <= i < |signers| ==> StretchIsPlaced(pages, base, signers, Stamps(pages, base, signers), i)
    ensures Offset(pages, base, signers, 0) == 0
    ensures Offset(pages, base, signers, |signers|) == |Stamps(pages, base, signers)|
  {
    forall i | 0 <= i < |signers|
      ensures StretchIsPlaced(pages, base, signers, Stamps(pages, base, signers), i)
    {
      StampsOfSigner(pages, base, signers, i);
      assert signers[i] in signers;
      SignerIsStampedAt(pages, base, signers[i], CountStacked(signers[..i]));
    }
    assert signers[..0] == [] && signers[..|signers|] == signers;
  }

  // ------------------------------------------------------------------------------------------
  // Overlaps.
  // ------------------------------------------------------------------------------------------

  predicate Overlap(a: Rect, b: Rect) {
    && a.x < b.x + b.width && b.x < a.x + a.width
    && a.y < b.y + b.height && b.y < a.y + a.height
  }

  predicate Within(inner: Rect, outer: Rect) {
    && outer.x <= inner.x && inner.x + inner.width <= outer.x + outer.width
    && outer.y <= inner.y && inner.y + inner.height <= outer.y + outer.height
  }

  /** The whole box a stacked signer may draw in. */
  function FullBox(base: Rect, k: nat): Rect {
    var size := ResolveSignatureSize(base);
    Rect(base.x, base.y + k as real * VerticalStep(base), size.width, size.height)
  }

  /** A code keeps its proportions, touches two sides of the box and stays inside. */
  lemma CodeFits(image: Size, x: real, y: real, box: Size)
    requires image.width > 0.0 && image.height > 0.0 && box.width > 0.0 && box.height > 0.0
    ensures var fit := FitPreservingAspectRatio(image, x, y, box);
            && Within(fit, Rect(x, y, box.width, box.height))
            && fit.width * image.height == fit.height * image.width
            && (fit.width == box.width || fit.height == box.height)
            && fit.x - x == x + box.width - (fit.x + fit.width)
            && fit.y - y == y + box.height - (fit.y + fit.height)
  {
    var byWidth, byHeight := box.width / image.width, box.height / image.height;
    var scale := Min(byWidth, byHeight);
    assert image.width * byWidth == box.width && image.height * byHeight == box.height;
    ScaleDown(image.width, scale, byWidth);
    ScaleDown(image.height, scale, byHeight);
    assert (image.width * scale) * image.height == (image.height * scale) * image.width;
  }

  lemma ScaleDown(length: real, scale: real, most: real)
    requires length > 0.0 && scale <= most
    ensures length * scale <= length * most
  {
    assert length * (most - scale) >= 0.0;
  }

  /** The height the stack would need is the height of one step. */
  predicate StackHasRoom(base: Rect) {
    !IsOutOfRange(base) || base.height >= 40.0 || base.height <= -120.0
  }

  lemma FarApart(k: nat, l: nat, step: real, height: real)
    requires k < l && height > 0.0 && (step >= height || step <= -height)
    ensures l as real * step - k as real * step >= height || l as real * step - k as real * step <= -height
  {
    var more := l as real - k as real - 1.0;
    assert l as real * step - k as real * step == more * step + step;
    if step >= 0.0 {
      assert more * step >= 0.0;
    } else {
      assert more * (-step) >= 0.0;
    }
  }

  lemma RoomIsAStep(base: Rect)
    ensures var (step, height) := (VerticalStep(base), ResolveSignatureSize(base).height);
            StackHasRoom(base) <==> step >= height || step <= -height
  {
  }

  lemma PlacesAreApart(base: Rect, k: nat, l: nat)
    requires StackHasRoom(base) && k < l
    ensures !Overlap(FullBox(base, k), FullBox(base, l))
  {
    var step := VerticalStep(base);
    RoomIsAStep(base);
    FarApart(k, l, step, ResolveSignatureSize(base).height);
    ApartByHeight(FullBox(base, k), FullBox(base, l), base.y, k as real * step, l as real * step);
  }

  lemma ApartByHeight(a: Rect, b: Rect, y: real, below: real, above: real)
    requires a.height == b.height > 0.0 && a.y == y + below && b.y == y + above
    requires above - below >= a.height || above - below <= -a.height
    ensures !Overlap(a, b)
  {
  }

  /** The places of the stack are apart exactly when a step is at least as high as what is drawn. */
  lemma StackIsApartIff(base: Rect)
    ensures (forall k: nat, l: nat :: k < l ==> !Overlap(FullBox(base, k), FullBox(base, l))) <==> StackHasRoom(base)
  {
    if StackHasRoom(base) {
      forall k: nat, l: nat | k < l ensures !Overlap(FullBox(base, k), FullBox(base, l)) {
        PlacesAreApart(base, k, l);
      }
    } else {
      RoomIsAStep(base);
      assert Overlap(FullBox(base, 0), FullBox(base, 1));
    }
  }

  /** What a stacked signer draws is the whole box, or a code inside it. */
  lemma StackedStampFits(pages: seq<Page>, base: Rect, s: Signer, k: nat)
    requires pages != [] && ValidSigners([s]) && IsStacked(s)
    ensures s in [s] && |StampsOf(pages, base, s, k)| == 1
    ensures var box := StampsOf(pages, base, s, k)[0].box;
            Within(box, FullBox(base, k)) && (s.signatureType == SIMPLE ==> box == FullBox(base, k))
  {
    assert s in [s];
    DrawnBoxFits(base, s, k);
  }

  lemma DrawnBoxFits(base: Rect, s: Signer, k: nat)
    requires s.image.width > 0.0 && s.image.height > 0.0
    ensures var box := DrawnBox(s, StackBox(base, k), true);
            Within(box, FullBox(base, k)) && (s.signatureType != FIEL ==> box == FullBox(base, k))
  {
    if s.signatureType == FIEL {
      CodeFits(s.image, base.x, base.y + k as real * VerticalStep(base), ResolveSignatureSize(base));
    }
  }

  /**
    The stacked signers of a list never draw over one another, unless the box of the document is out
    of range and lower than 40 points: then the size is replaced and the step is not.
   */
  lemma StackedSignersAreApart(pages: seq<Page>, base: Rect, signers: seq<Signer>, i: nat, j: nat)
    requires pages != [] && ValidSigners(signers) && i < j < |signers|
    requires IsStacked(signers[i]) && IsStacked(signers[j]) && StackHasRoom(base)
    ensures signers[i] in signers && signers[j] in signers
    ensures var a := StampsOf(pages, base, signers[i], CountStacked(signers[..i]));
            var b := StampsOf(pages, base, signers[j], CountStacked(signers[..j]));
            |a| == |b| == 1 && !Overlap(a[0].box, b[0].box)
  {
    var k, l := CountStacked(signers[..i]), CountStacked(signers[..j]);
    CountGrows(signers, i, j);
    PlacesAreApart(base, k, l);
    StackedStampFits(pages, base, signers[i], k);
    StackedStampFits(pages, base, signers[j], l);
  }

  /** Two handwritten signatures one above the other, in a box 30 points high: they overlap. */
  lemma LowBoxOverlaps() returns (base: Rect, a: Signer, b: Signer)
    ensures ValidSigners([a, b]) && a.signatureType == b.signatureType == SIMPLE
    ensures var pages := [Page(Size(595.0, 842.0), R0)];
            var stamps := Stamps(pages, base, [a, b]);
            |stamps| == 2 && Overlap(stamps[0].box, stamps[1].box)
  {
    base := Rect(50.0, 200.0, 50.0, 30.0);
    a, b := Signer(1, SIMPLE, true, None, Size(10.0, 10.0)), Signer(2, SIMPLE, true, None, Size(10.0, 10.0));
    var pages := [Page(Size(595.0, 842.0), R0)];
    StampsNext(pages, base, [a, b], 0);
    StampsNext(pages, base, [a, b], 1);
    assert [a, b][..0] == [] && [a, b][..1] == [a] && [a, b][..2] == [a, b];
  }

  // ------------------------------------------------------------------------------------------
  // The preview of a document that is partially signed.
  // ------------------------------------------------------------------------------------------

  function SignedOnly(signers: seq<Signer>): seq<Signer> {
    if signers == [] then []
    else
      var rest, last := SignedOnly(signers[..|signers| - 1]), signers[|signers| - 1];
      if last.signed then rest + [last] else rest
  }

  /** The list as it is when the document is finished: everyone has signed. */
  function AllSigned(signers: seq<Signer>): seq<Signer> {
    if signers == [] then [] else AllSigned(signers[..|signers| - 1]) + [signers[|signers| - 1].(signed := true)]
  }

  /** Signers who are stacked once they have signed. */
  predicate WillStack(s: Signer) {
    IsStacked(s.(signed := true))
  }

  lemma {:induction false} ListsAreValid(signers: seq<Signer>)
    requires ValidSigners(signers)
    ensures ValidSigners(SignedOnly(signers)) && ValidSigners(AllSigned(signers))
  {
    if signers != [] {
      ListsAreValid(signers[..|signers| - 1]);
    }
  }

  /** What the finished document shows of those who have signed so far. */
  function FinalStampsOfSigned(pages: seq<Page>, base: Rect, signers: seq<Signer>): seq<Stamp>
    requires pages != [] && ValidSigners(signers)
  {
    if signers == [] then []
    else
      var rest, last := signers[..|signers| - 1], signers[|signers| - 1];
      FinalStampsOfSigned(pages, base, rest)
      + if last.signed then StampsOf(pages, base, last, CountStacked(AllSigned(rest))) else []
  }

  lemma {:induction false} AllSignedAt(signers: seq<Signer>, i: nat)
    requires i < |signers|
    ensures |AllSigned(signers)| == |signers| && AllSigned(signers)[i] == signers[i].(signed := true)
    ensures AllSigned(signers)[..i] == AllSigned(signers[..i])
  {
    var n := |signers| - 1;
    AllSignedLength(signers);
    if i < n {
      AllSignedAt(signers[..n], i);
      assert signers[..n][..i] == signers[..i];
    }
  }

  lemma {:induction false} AllSignedLength(signers: seq<Signer>)
    ensures |AllSigned(signers)| == |signers|
  {
    if signers != [] {
      AllSignedLength(signers[..|signers| - 1]);
    }
  }

  /** FinalStampsOfSigned takes, of each signer who has signed, the stretch the finished document has. */
  lemma FinalStampsOfSigner(pages: seq<Page>, base: Rect, signers: seq<Signer>, i: nat)
    requires pages != [] && ValidSigners(signers) && i < |signers| && signers[i].signed
    ensures signers[i] in signers && ValidSigners(AllSigned(signers)) && |AllSigned(signers)| == |signers|
    ensures var from, to := Offset(pages, base, AllSigned(signers), i), Offset(pages, base, AllSigned(signers), i + 1);
            && from <= to <= |Stamps(pages, base, AllSigned(signers))|
            && Stamps(pages, base, AllSigned(signers))[from..to]
               == StampsOf(pages, base, signers[i], CountStacked(AllSigned(signers[..i])))
  {
    ListsAreValid(signers);
    AllSignedAt(signers, i);
    StampsOfSigner(pages, base, AllSigned(signers), i);
    assert signers[i] == signers[i].(signed := true);
  }

  /** refreshPartiallySignedPreview: the preview is replaced only when somebody has signed and all goes well. */
  method RefreshPartiallySignedPreview(pages: seq<Page>, signatureCoordinates: Option<Rect>, signers: seq<Signer>,
                                       previous: Option<seq<Stamp>>, fails: bool) returns (preview: Option<seq<Stamp>>)
    requires pages != [] && ValidSigners(signers)
    ensures ValidSigners(SignedOnly(signers))
    ensures preview == if SignedOnly(signers) == [] || fails then previous
                       else Some(Stamps(pages, BaseOf(signatureCoordinates), SignedOnly(signers)))
  {
    ListsAreValid(signers);
    var signed := SignedOnly(signers);
    if |signed| == 0 {
      return previous;
    }
    var stamps := StampSignaturesOnto(pages, signatureCoordinates, signed);
    preview := if fails then previous else Some(stamps);
  }

  /** Nobody who will be stacked and has not signed comes before the i-th signer. */
  predicate NobodyPendingBefore(signers: seq<Signer>, i: nat)
    requires i <= |signers|
  {
    forall j :: 0 <= j < i && WillStack(signers[j]) ==> signers[j].signed
  }

  lemma {:induction false} CountsAgreeIff(signers: seq<Signer>)
    ensures CountStacked(SignedOnly(signers)) <= CountStacked(AllSigned(signers))
    ensures CountStacked(SignedOnly(signers)) == CountStacked(AllSigned(signers))
       <==> NobodyPendingBefore(signers, |signers|)
  {
    if signers != [] {
      var rest, last := signers[..|signers| - 1], signers[|signers| - 1];
      CountsAgreeIff(rest);
      CountAppend(SignedOnly(rest), last);
      CountAppend(AllSigned(rest), last.(signed := true));
      NobodyPendingInRest(signers);
      assert last.signed ==> last == last.(signed := true);
    }
  }

  lemma NobodyPendingInRest(signers: seq<Signer>)
    requires signers != []
    ensures var rest, last := signers[..|signers| - 1], signers[|signers| - 1];
            NobodyPendingBefore(signers, |signers|) <==> NobodyPendingBefore(rest, |rest|) && (WillStack(last) ==> last.signed)
  {
    var rest := signers[..|signers| - 1];
    assert forall j :: 0 <= j < |rest| ==> rest[j] == signers[j];
  }

  lemma CountAppend(signers: seq<Signer>, s: Signer)
    ensures CountStacked(signers + [s]) == CountStacked(signers) + if IsStacked(s) then 1 else 0
  {
    assert (signers + [s])[..|signers|] == signers;
  }

  predicate KeepsPlace(base: Rect, signers: seq<Signer>, i: nat)
    requires i < |signers|
  {
    signers[i].signed && WillStack(signers[i]) ==> VerticalStep(base) == 0.0 || NobodyPendingBefore(signers, i)
  }

  predicate AllKeepPlace(base: Rect, signers: seq<Signer>) {
    forall i :: 0 <= i < |signers| ==> KeepsPlace(base, signers, i)
  }

  lemma SamePlaceIff(k: nat, l: nat, step: real)
    ensures k as real * step == l as real * step <==> k == l || step == 0.0
  {
    var apart := k as real - l as real;
    assert apart * step == k as real * step - l as real * step;
    if k != l && step != 0.0 {
      assert apart * step != 0.0;
    }
  }

  lemma SameStampsIff(pages: seq<Page>, base: Rect, s: Signer, k: nat, l: nat)
    requires pages != [] && s.image.width > 0.0 && s.image.height > 0.0
    ensures |StampsOf(pages, base, s, k)| == |StampsOf(pages, base, s, l)|
    ensures StampsOf(pages, base, s, k) == StampsOf(pages, base, s, l)
       <==> !IsStacked(s) || VerticalStep(base) == 0.0 || k == l
  {
    if IsStacked(s) {
      SamePlaceIff(k, l, VerticalStep(base));
      SameBoxIff(base, s, k as real * VerticalStep(base), l as real * VerticalStep(base));
      assert StampsOf(pages, base, s, k)[0].box == DrawnBox(s, base.(y := base.y + k as real * VerticalStep(base)), true);
      assert StampsOf(pages, base, s, l)[0].box == DrawnBox(s, base.(y := base.y + l as real * VerticalStep(base)), true);
    }
  }

  lemma SameBoxIff(base: Rect, s: Signer, a: real, b: real)
    requires s.image.width > 0.0 && s.image.height > 0.0
    ensures DrawnBox(s, base.(y := base.y + a), true) == DrawnBox(s, base.(y := base.y + b), true) <==> a == b
  {
  }

  /**
    Exactly when the preview shows what the finished document will show of the same signers: when
    nobody who has signed and is stacked comes after somebody who will be stacked and has not signed.
   */
  lemma {:induction false} PreviewIsFinalIff(pages: seq<Page>, base: Rect, signers: seq<Signer>)
    requires pages != [] && ValidSigners(signers)
    ensures ValidSigners(SignedOnly(signers))
    ensures |Stamps(pages, base, SignedOnly(signers))| == |FinalStampsOfSigned(pages, base, signers)|
    ensures Stamps(pages, base, SignedOnly(signers)) == FinalStampsOfSigned(pages, base, signers)
       <==> AllKeepPlace(base, signers)
  {
    ListsAreValid(signers);
    if signers != [] {
      var n := |signers| - 1;
      var rest, last := signers[..n], signers[n];
      PreviewIsFinalIff(pages, base, rest);
      KeepsPlaceInRest(base, signers);
      if last.signed {
        CountsAgreeIff(rest);
        SameStampsIff(pages, base, last, CountStacked(SignedOnly(rest)), CountStacked(AllSigned(rest)));
        PreviewAppend(pages, base, SignedOnly(rest), last);
        ConcatEqualIff(Stamps(pages, base, SignedOnly(rest)), StampsOf(pages, base, last, CountStacked(SignedOnly(rest))),
                       FinalStampsOfSigned(pages, base, rest), StampsOf(pages, base, last, CountStacked(AllSigned(rest))));
        assert last == last.(signed := true);
      }
    }
  }

  lemma KeepsPlaceInRest(base: Rect, signers: seq<Signer>)
    requires signers != []
    ensures AllKeepPlace(base, signers)
       <==> AllKeepPlace(base, signers[..|signers| - 1]) && KeepsPlace(base, signers, |signers| - 1)
    ensures NobodyPendingBefore(signers[..|signers| - 1], |signers| - 1) <==> NobodyPendingBefore(signers, |signers| - 1)
  {
    var rest := signers[..|signers| - 1];
    forall i | 0 <= i < |rest| ensures KeepsPlace(base, rest, i) <==> KeepsPlace(base, signers, i) {
      assert NobodyPendingBefore(rest, i) <==> NobodyPendingBefore(signers, i);
    }
  }

  lemma PreviewAppend(pages: seq<Page>, base: Rect, signers: seq<Signer>, s: Signer)
    requires pages != [] && ValidSigners(signers) && s.image.width > 0.0 && s.image.height > 0.0
    ensures ValidSigners(signers + [s])
    ensures Stamps(pages, base, signers + [s])
         == Stamps(pages, base, signers) + StampsOf(pages, base, s, CountStacked(signers))
  {
    assert (signers + [s])[..|signers|] == signers;
  }

  /** When everybody signs in the order of the list, the preview is the beginning of the finished document. */
  lemma SignedPrefixIsPrefix(pages: seq<Page>, base: Rect, signers: seq<Signer>, n: nat)
    requires pages != [] && ValidSigners(signers) && n <= |signers|
    requires forall i :: 0 <= i < |signers| ==> (signers[i].signed <==> i < n)
    ensures ValidSigners(SignedOnly(signers)) && ValidSigners(AllSigned(signers))
    ensures Stamps(pages, base, SignedOnly(signers)) <= Stamps(pages, base, AllSigned(signers))
    decreases |signers|
  {
    ListsAreValid(signers);
    if n == |signers| {
      NothingToSign(signers);
    } else {
      var rest, last := signers[..|signers| - 1], signers[|signers| - 1];
      SignedPrefixIsPrefix(pages, base, rest, n);
      PreviewAppend(pages, base, AllSigned(rest), last.(signed := true));
    }
  }

  lemma {:induction false} NothingToSign(signers: seq<Signer>)
    requires forall i :: 0 <= i < |signers| ==> signers[i].signed
    ensures SignedOnly(signers) == AllSigned(signers) == signers
  {
    if signers != [] {
      NothingToSign(signers[..|signers| - 1]);
      assert signers == signers[..|signers| - 1] + [signers[|signers| - 1]];
    }
  }

  /** The second signer signs first: the preview shows them in the place of the other. */
  lemma LateSignerMoves() returns (signers: seq<Signer>)
    ensures ValidSigners(signers) && ValidSigners(SignedOnly(signers))
    ensures var pages := [Page(Size(595.0, 842.0), R0)];
            Stamps(pages, DEFAULT_COORDINATES, SignedOnly(signers)) != FinalStampsOfSigned(pages, DEFAULT_COORDINATES, signers)
  {
    signers := [Signer(1, SIMPLE, false, None, Size(10.0, 10.0)), Signer(2, SIMPLE, true, None, Size(10.0, 10.0))];
    PreviewIsFinalIff([Page(Size(595.0, 842.0), R0)], DEFAULT_COORDINATES, signers);
    assert WillStack(signers[0]) && !KeepsPlace(DEFAULT_COORDINATES, signers, 1);
  }
}
