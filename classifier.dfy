/**
  `ImageProcessor.is_white_background`: an image has a white background
  when the 5x5 block in its top-left corner, or the one in its top-right
  corner, is white in its first three channels.  The decoded image is an
  input; reading a pixel either gives its value or raises, and any
  exception makes the answer false.
 */
module Classifier {
  import opened Options

  /** What `img.load()[x, y]` returns: a plain number for single-band
      modes, a tuple of channel values otherwise. */
  datatype Mode = Scalar | Bands(bands: (int, int) -> seq<int>)

  /** A decoded image: `img.size` and its pixels. */
  datatype Image = Image(width: nat, height: nat, mode: Mode)

  /** `v[:3]` of a tuple. */
  function FirstThree(v: seq<int>): (r: seq<int>)
    ensures r <= v && |r| <= 3
  {
    if |v| <= 3 then v else v[..3]
  }

  /** The test `pixels[x, y][:3] == (255, 255, 255)`: `None` when it raises,
      either because the pixel lies outside the image (`IndexError`) or
      because a number cannot be sliced (`TypeError`). */
  function Probe(im: Image, x: int, y: int): Option<bool> {
    if x < 0 || x >= im.width || y < 0 || y >= im.height then None
    else
      match im.mode
      case Scalar => None
      case Bands(b) => Some(FirstThree(b(x, y)) == [255, 255, 255])
  }

  /** A pixel value whose first three channels are all 255. */
  predicate IsWhitePixel(v: seq<int>) {
    |v| >= 3 && v[0] == 255 && v[1] == 255 && v[2] == 255
  }

  /** The test succeeds exactly on a white pixel inside an image of
      channel tuples. */
  lemma ProbeWhite(im: Image, x: int, y: int)
    ensures Probe(im, x, y) == Some(true)
        <==> 0 <= x < im.width && 0 <= y < im.height && im.mode.Bands? && IsWhitePixel(im.mode.bands(x, y))
  {
    if 0 <= x < im.width && 0 <= y < im.height && im.mode.Bands? {
      var v := im.mode.bands(x, y);
      if |v| >= 3 {
        assert FirstThree(v) == [v[0], v[1], v[2]];
      }
    }
  }

  /** The 5x5 block with columns `x0 .. x0 + 4` and rows `0 .. 4` passes
      the test everywhere. */
  predicate BlockWhite(im: Image, x0: int) {
    forall x, y :: x0 <= x < x0 + 5 && 0 <= y < 5 ==> Probe(im, x, y) == Some(true)
  }

  /** What `is_white_background` returns for an image that opens (`Some`)
      or fails to open (`None`). */
  predicate ImageIsWhite(img: Option<Image>) {
    img.Some? && (BlockWhite(img.value, 0) || BlockWhite(img.value, img.value.width - 5))
  }

  /** A white block lies inside an image of channel tuples. */
  lemma BlockWhiteInside(im: Image, x0: int)
    ensures BlockWhite(im, x0) ==> 0 <= x0 && x0 + 5 <= im.width && 5 <= im.height && im.mode.Bands?
  {
    if BlockWhite(im, x0) {
      assert Probe(im, x0, 4) == Some(true);
      assert Probe(im, x0 + 4, 4) == Some(true);
    }
  }

  /** The verdict in terms of the pixel values alone: the image opens, has
      at least 5 columns and 5 rows of channel tuples, and one of its two
      top corner blocks is all white. */
  lemma ImageIsWhiteIff(img: Option<Image>)
    ensures ImageIsWhite(img) <==>
      img.Some? && img.value.width >= 5 && img.value.height >= 5 && img.value.mode.Bands? &&
      ((forall x, y :: 0 <= x < 5 && 0 <= y < 5 ==> IsWhitePixel(img.value.mode.bands(x, y))) ||
       (forall x, y :: img.value.width - 5 <= x < img.value.width && 0 <= y < 5 ==>
          IsWhitePixel(img.value.mode.bands(x, y))))
  {
    if img.Some? {
      var im := img.value;
      BlockWhiteInside(im, 0);
      BlockWhiteInside(im, im.width - 5);
      forall x, y { ProbeWhite(im, x, y); }
    }
  }

  /** Images that cannot be white: too narrow, too short, or single-band. */
  lemma TooSmallOrScalarNotWhite(im: Image)
    requires im.width < 5 || im.height < 5 || im.mode.Scalar?
    ensures !ImageIsWhite(Some(im))
  {
    BlockWhiteInside(im, 0);
    BlockWhiteInside(im, im.width - 5);
  }

  /** A failing test in the left block rules out the right block too: the
      image is then narrower than 5, shorter than 5 or single-band. */
  lemma LeftFailureExcludesRight(im: Image, x: int, y: int)
    requires 0 <= x < 5 && 0 <= y < 5 && Probe(im, x, y).None?
    ensures !BlockWhite(im, im.width - 5)
  {
    assert Probe(im, im.width - 5, 4) != Some(true);
  }

  /** `is_white_background`, with its two flag-and-`break` loops. */
  method IsWhiteBackground(img: Option<Image>) returns (white: bool)
    ensures white == ImageIsWhite(img)
  {
    if img.None? {
      return false;
    }
    var im := img.value;

    var isLeftWhite := true;
    for x := 0 to 5
      invariant isLeftWhite
      invariant forall i, j :: 0 <= i < x && 0 <= j < 5 ==> Probe(im, i, j) == Some(true)
    {
      for y := 0 to 5
        invariant isLeftWhite
        invariant forall j :: 0 <= j < y ==> Probe(im, x, j) == Some(true)
      {
        var p := Probe(im, x, y);
        if p.None? {
          LeftFailureExcludesRight(im, x, y);
          return false;
        }
        if !p.value {
          isLeftWhite := false;
          break;
        }
      }
      if !isLeftWhite {
        break;
      }
    }
    assert isLeftWhite <==> BlockWhite(im, 0);

    var isRightWhite := true;
    for x := im.width - 5 to im.width
      invariant isRightWhite
      invariant forall i, j :: im.width - 5 <= i < x && 0 <= j < 5 ==> Probe(im, i, j) == Some(true)
    {
      for y := 0 to 5
        invariant isRightWhite
        invariant forall j :: 0 <= j < y ==> Probe(im, x, j) == Some(true)
      {
        var p := Probe(im, x, y);
        if p.None? {
          // The left block cannot be white either: a white left block
          // means every pixel of the right block can be read.
          BlockWhiteInside(im, 0);
          return false;
        }
        if !p.value {
          isRightWhite := false;
          break;
        }
      }
      if !isRightWhite {
        break;
      }
    }
    assert isRightWhite <==> BlockWhite(im, im.width - 5);

    return isLeftWhite || isRightWhite;
  }
}
