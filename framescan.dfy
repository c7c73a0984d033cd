// Border detection on one frame (autocrop_frame).
//
// A frame is a width x height grid of colour triples, indexed [y][x]. Two
// reference colours are read: the top-left pixel and the bottom-right pixel.
// Each side's crop value is the number of leading lines (rows for top and
// bottom, columns for left and right, counted inwards from that side) in
// which every pixel is within the tolerance of the side's reference colour;
// when no line on that side has a differing pixel, the value is 0.

module FrameScan {

  /** The three channels of a pixel, as RGB or YUV components. */
  datatype Colour = Colour(c0: int, c1: int, c2: int)

  datatype Frame = Frame(width: nat, height: nat, rows: seq<seq<Colour>>)
  {
    ghost predicate Valid()
    {
      width >= 1 && height >= 1 && |rows| == height &&
      forall y :: 0 <= y < height ==> |rows[y]| == width
    }

    /** The colour at column x of row y (get_pixel_color(x, y)). */
    function Pixel(x: nat, y: nat): Colour
      requires Valid() && x < width && y < height
    {
      rows[y][x]
    }
  }

  /** The crop values of a frame, in the order the source returns them. */
  datatype Crop = Crop(left: nat, top: nat, right: nat, bottom: nat)

  function Abs(n: int): nat
  {
    if n < 0 then -n else n
  }

  /** Some channel of `c` is further than `tol` from the same channel of `ref`. */
  predicate Differs(c: Colour, ref: Colour, tol: int)
  {
    Abs(c.c0 - ref.c0) > tol || Abs(c.c1 - ref.c1) > tol || Abs(c.c2 - ref.c2) > tol
  }

  datatype Side = Top | Bottom | Left | Right

  /** How many lines can be scanned from a side: rows for top and bottom, columns for left and right. */
  function Extent(f: Frame, side: Side): nat
  {
    if side == Top || side == Bottom then f.height else f.width
  }

  /** How many pixels one such line has. */
  function LineLength(f: Frame, side: Side): nat
  {
    if side == Top || side == Bottom then f.width else f.height
  }

  /** Pixel t of the k-th line counted inwards from `side`. */
  function LinePixel(f: Frame, side: Side, k: nat, t: nat): Colour
    requires f.Valid() && k < Extent(f, side) && t < LineLength(f, side)
  {
    match side
    case Top => f.Pixel(t, k)
    case Bottom => f.Pixel(t, f.height - 1 - k)
    case Left => f.Pixel(k, t)
    case Right => f.Pixel(f.width - 1 - k, t)
  }

  /** Top and left compare with the top-left pixel, bottom and right with the bottom-right one. */
  function Reference(f: Frame, side: Side): Colour
    requires f.Valid()
  {
    if side == Top || side == Left then f.Pixel(0, 0) else f.Pixel(f.width - 1, f.height - 1)
  }

  /** The k-th line from `side` holds a pixel that differs from the side's reference colour. */
  ghost predicate LineDiffers(f: Frame, side: Side, k: nat, tol: int)
    requires f.Valid() && k < Extent(f, side)
  {
    exists t :: 0 <= t < LineLength(f, side) && Differs(LinePixel(f, side, k, t), Reference(f, side), tol)
  }

  /**
   * `r` is the crop value of `side`: the least line index whose line differs,
   * or 0 when no line does.
   */
  ghost predicate IsBorder(f: Frame, side: Side, tol: int, r: nat)
    requires f.Valid()
  {
    r < Extent(f, side) &&
    (forall k :: 0 <= k < r ==> !LineDiffers(f, side, k, tol)) &&
    (LineDiffers(f, side, r, tol) || (r == 0 && forall k :: 0 <= k < Extent(f, side) ==> !LineDiffers(f, side, k, tol)))
  }

  /** The four crop values of a frame, each as IsBorder defines it. */
  ghost predicate IsFrameCrop(f: Frame, tol: int, c: Crop)
    requires f.Valid()
  {
    IsBorder(f, Left, tol, c.left) && IsBorder(f, Top, tol, c.top) &&
    IsBorder(f, Right, tol, c.right) && IsBorder(f, Bottom, tol, c.bottom)
  }

  /** Each side has one crop value, so the scan result does not depend on how it is found. */
  lemma BorderUnique(f: Frame, side: Side, tol: int, r1: nat, r2: nat)
    requires f.Valid()
    requires IsBorder(f, side, tol, r1) && IsBorder(f, side, tol, r2)
    ensures r1 == r2
  {
  }

  /** Every pixel of the lines a non-zero crop removes is within `tol` of the side's reference colour. */
  lemma BorderLinesUniform(f: Frame, side: Side, tol: int, r: nat, k: nat, t: nat)
    requires f.Valid()
    requires IsBorder(f, side, tol, r)
    requires k < r && t < LineLength(f, side)
    ensures !Differs(LinePixel(f, side, k, t), Reference(f, side), tol)
  {
    assert !LineDiffers(f, side, k, tol);
  }

  /** The two passes of autocrop_frame: rows (top and bottom) and columns (left and right). */
  datatype Pass = Rows | Columns
  {
    function Near(): Side { if this == Rows then Top else Left }
    function Far(): Side { if this == Rows then Bottom else Right }
  }

  /**
   * Scan state of one side after lines 0 .. n-1 were examined: once `done`,
   * `r` is the least differing line; before, `r` is 0 and none of them differs.
   */
  ghost predicate LinesScanned(f: Frame, side: Side, tol: int, r: nat, done: bool, n: nat)
    requires f.Valid() && n <= Extent(f, side)
  {
    if done then
      r < n && LineDiffers(f, side, r, tol) && forall k :: 0 <= k < r ==> !LineDiffers(f, side, k, tol)
    else
      r == 0 && forall k :: 0 <= k < n ==> !LineDiffers(f, side, k, tol)
  }

  /**
   * Scan state of one side inside line i, after its first `t` pixels were
   * examined: as LinesScanned, and if not yet done, none of those pixels differs.
   */
  ghost predicate LineScanned(f: Frame, side: Side, tol: int, r: nat, done: bool, i: nat, t: nat)
    requires f.Valid() && i < Extent(f, side) && t <= LineLength(f, side)
  {
    if done then
      r <= i && LineDiffers(f, side, r, tol) && forall k :: 0 <= k < r ==> !LineDiffers(f, side, k, tol)
    else
      r == 0 && (forall k :: 0 <= k < i ==> !LineDiffers(f, side, k, tol)) &&
      forall u :: 0 <= u < t ==> !Differs(LinePixel(f, side, i, u), Reference(f, side), tol)
  }

  /** Examining pixel t of line i: the side is found there exactly when that pixel differs. */
  lemma ScanPixel(f: Frame, side: Side, tol: int, r: nat, done: bool, i: nat, t: nat)
    requires f.Valid() && i < Extent(f, side) && t < LineLength(f, side)
    requires LineScanned(f, side, tol, r, done, i, t)
    ensures var found := !done && Differs(LinePixel(f, side, i, t), Reference(f, side), tol);
            LineScanned(f, side, tol, if found then i else r, done || found, i, t + 1)
  {
  }

  /** Finishing line i moves the scan past it. */
  lemma NextLine(f: Frame, side: Side, tol: int, r: nat, done: bool, i: nat)
    requires f.Valid() && i < Extent(f, side)
    requires LineScanned(f, side, tol, r, done, i, LineLength(f, side))
    ensures LinesScanned(f, side, tol, r, done, i + 1)
  {
  }

  /**
   * One pass of autocrop_frame: for each line index i, walk the pixels of
   * line i from the near side and of line i from the far side together; a
   * side stops being searched at its first differing pixel, and the pass
   * stops once both sides are found. A side never found stays 0.
   */
  method ScanPass(f: Frame, tol: int, pass: Pass) returns (near: nat, far: nat)
    requires f.Valid()
    ensures IsBorder(f, pass.Near(), tol, near)
    ensures IsBorder(f, pass.Far(), tol, far)
  {
    var nearRef, farRef := Reference(f, pass.Near()), Reference(f, pass.Far());
    var lines, length := Extent(f, pass.Near()), LineLength(f, pass.Near());
    near, far := 0, 0;
    var nearDone, farDone := false, false;
    var i := 0;
    while i < lines
      invariant 0 <= i <= lines
      invariant LinesScanned(f, pass.Near(), tol, near, nearDone, i)
      invariant LinesScanned(f, pass.Far(), tol, far, farDone, i)
      invariant !(nearDone && farDone)
    {
      var t := 0;
      while t < length
        invariant 0 <= t <= length
        invariant LineScanned(f, pass.Near(), tol, near, nearDone, i, t)
        invariant LineScanned(f, pass.Far(), tol, far, farDone, i, t)
        invariant !(nearDone && farDone)
      {
        ScanPixel(f, pass.Near(), tol, near, nearDone, i, t);
        ScanPixel(f, pass.Far(), tol, far, farDone, i, t);
        if !nearDone {
          if Differs(LinePixel(f, pass.Near(), i, t), nearRef, tol) {
            near, nearDone := i, true;
          }
        }
        if !farDone {
          if Differs(LinePixel(f, pass.Far(), i, t), farRef, tol) {
            far, farDone := i, true;
          }
        }
        if nearDone && farDone {
          break;
        }
        t := t + 1;
      }
      if nearDone && farDone {
        break;
      }
      NextLine(f, pass.Near(), tol, near, nearDone, i);
      NextLine(f, pass.Far(), tol, far, farDone, i);
      i := i + 1;
    }
  }

  /** autocrop_frame: the crop values (left, top, right, bottom) of one frame. */
  method AutocropFrame(f: Frame, tol: int) returns (c: Crop)
    requires f.Valid()
    ensures IsFrameCrop(f, tol, c)
    ensures c.left < f.width && c.right < f.width && c.top < f.height && c.bottom < f.height
  {
    var top, bottom := ScanPass(f, tol, Rows);
    var left, right := ScanPass(f, tol, Columns);
    c := Crop(left, top, right, bottom);
  }
}
