// Chroma-subsampling alignment of crop values (check_subsampling).
//
// A crop value must be a multiple of the chroma block size of the clip's
// colorspace in the direction it crops; otherwise it is rounded up (overcrop)
// or down to the nearest such multiple.

module Subsampling {

  /** ASCII lower-casing of one character (a byte string's `lower()`). */
  function LowerChar(c: char): char
  {
    if 'A' <= c <= 'Z' then (c as int + 32) as char else c
  }

  function ToLower(s: string): string
  {
    seq(|s|, i requires 0 <= i < |s| => LowerChar(s[i]))
  }

  /** The colorspace families that check_subsampling tells apart. */
  datatype Family = Packed422 | Planar411 | Planar420 | Unconstrained

  /** yuy2 and yv16, yv411, yv12, or anything else; names are compared lower-cased. */
  function FamilyOf(colorspace: string): Family
  {
    var cs := ToLower(colorspace);
    if cs == "yuy2" || cs == "yv16" then Packed422
    else if cs == "yv411" then Planar411
    else if cs == "yv12" then Planar420
    else Unconstrained
  }

  /**
   * The chroma block size that a crop value in the given direction must be a
   * multiple of: 2 horizontally for yuy2 and yv16, 4 horizontally for yv411,
   * 2 in both directions for yv12, and 1 (no constraint) otherwise.
   */
  function Granularity(colorspace: string, horizontal: bool): (g: nat)
    ensures g == 1 || g == 2 || g == 4
  {
    match FamilyOf(colorspace)
    case Packed422 => if horizontal then 2 else 1
    case Planar411 => if horizontal then 4 else 1
    case Planar420 => 2
    case Unconstrained => 1
  }

  /**
   * The crop value aligned to the colorspace: the nearest multiple of the
   * block size at or above the value when overcropping, at or below it
   * otherwise.
   */
  function CheckSubsampling(value: int, colorspace: string, horizontal: bool, overcrop: bool): (r: int)
    ensures r % Granularity(colorspace, horizontal) == 0
    ensures overcrop ==> value <= r < value + Granularity(colorspace, horizontal)
    ensures !overcrop ==> value - Granularity(colorspace, horizontal) < r <= value
  {
    match FamilyOf(colorspace)
    case Packed422 =>
      if value % 2 != 0 && horizontal then
        (if overcrop then value + 1 else value - 1)
      else value
    case Planar411 =>
      var q, rem := value / 4, value % 4;
      if rem != 0 && horizontal then
        (if overcrop then q * 4 + 4 else q * 4)
      else value
    case Planar420 =>
      if value % 2 != 0 then
        (if overcrop then value + 1 else value - 1)
      else value
    case Unconstrained => value
  }

  /** Two multiples of the block size g (1, 2 or 4) that are less than g apart are equal. */
  lemma {:induction false} AlignedUnique(a: int, b: int, g: nat)
    requires g == 1 || g == 2 || g == 4
    requires a % g == 0 && b % g == 0
    requires a - g < b < a + g
    ensures a == b
  {
    var d := b - a;
    assert (a + d) % g == 0;
    if g == 2 {
      assert d == -1 || d == 0 || d == 1;
    } else if g == 4 {
      assert -3 <= d <= 3;
    }
  }

  /**
   * The alignment is characterised by its contract: any multiple of the block
   * size in the same half-open window is the value CheckSubsampling returns.
   */
  lemma CheckSubsamplingUnique(value: int, colorspace: string, horizontal: bool, overcrop: bool, r: int)
    requires r % Granularity(colorspace, horizontal) == 0
    requires overcrop ==> value <= r < value + Granularity(colorspace, horizontal)
    requires !overcrop ==> value - Granularity(colorspace, horizontal) < r <= value
    ensures r == CheckSubsampling(value, colorspace, horizontal, overcrop)
  {
    AlignedUnique(r, CheckSubsampling(value, colorspace, horizontal, overcrop), Granularity(colorspace, horizontal));
  }

  /** Aligning an already aligned value changes nothing. */
  lemma CheckSubsamplingIdempotent(value: int, colorspace: string, horizontal: bool, overcrop: bool)
    ensures var once := CheckSubsampling(value, colorspace, horizontal, overcrop);
            CheckSubsampling(once, colorspace, horizontal, overcrop) == once
  {
    var once := CheckSubsampling(value, colorspace, horizontal, overcrop);
    CheckSubsamplingUnique(once, colorspace, horizontal, overcrop, once);
  }

  /** Colorspace names are matched without regard to case. */
  lemma CheckSubsamplingIgnoresCase(value: int, colorspace: string, horizontal: bool, overcrop: bool)
    ensures CheckSubsampling(value, ToLower(colorspace), horizontal, overcrop)
         == CheckSubsampling(value, colorspace, horizontal, overcrop)
  {
  }

  /**
   * yuy2 and yv16: an odd horizontal value moves by one to the even value in
   * the overcrop direction; even and vertical values are kept.
   */
  lemma HorizontalHalving(value: int, colorspace: string, horizontal: bool, overcrop: bool)
    requires ToLower(colorspace) == "yuy2" || ToLower(colorspace) == "yv16"
    ensures var r := CheckSubsampling(value, colorspace, horizontal, overcrop);
            if horizontal && value % 2 == 1 then r == (if overcrop then value + 1 else value - 1)
            else r == value
  {
  }

  /**
   * yv411: a horizontal value that is not a multiple of 4 goes to the next
   * multiple of 4 above (overcrop) or below; other values are kept.
   */
  lemma HorizontalQuartering(value: int, colorspace: string, horizontal: bool, overcrop: bool)
    requires ToLower(colorspace) == "yv411"
    ensures var r := CheckSubsampling(value, colorspace, horizontal, overcrop);
            if horizontal && value % 4 != 0 then
              r % 4 == 0 && (if overcrop then value < r < value + 4 else value - 4 < r < value)
            else r == value
  {
  }

  /**
   * yv12: an odd value moves by one to the even value in the overcrop
   * direction, in either direction; any other colorspace keeps every value.
   */
  lemma BothWaysHalving(value: int, colorspace: string, horizontal: bool, overcrop: bool)
    ensures var r := CheckSubsampling(value, colorspace, horizontal, overcrop);
            var cs := ToLower(colorspace);
            (cs == "yv12" && value % 2 == 1 ==> r == (if overcrop then value + 1 else value - 1)) &&
            (cs == "yv12" && value % 2 == 0 ==> r == value) &&
            (cs != "yuy2" && cs != "yv16" && cs != "yv411" && cs != "yv12" ==> r == value)
  {
  }
}
