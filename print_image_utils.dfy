/** The image arithmetic of printer/PrintImageUtils.java: measuring and
    trimming the clear columns at the left (or, on the mirrored image, the
    right) of an image, and the sizes of the passes a scaled instance goes
    through. An image is its width and its rows of 32-bit ARGB pixels; the
    grabbed pixel array pix[y * width + x] is rows[y][x]. Whether the pixel
    grab succeeds is a parameter. */
module PrintImages {
  import opened Wrappers
  import opened Numeric

  type Pixel = bv32

  datatype Image = Image(width: int, rows: seq<seq<Pixel>>)

  /** A BufferedImage: positive width and height, every row width pixels. */
  predicate Valid(img: Image) {
    img.width >= 1 && |img.rows| >= 1 && forall y :: 0 <= y < |img.rows| ==> |img.rows[y]| == img.width
  }

  /** A clear pixel: alpha byte 0, or red, green and blue bytes all 255. */
  predicate Clear(p: Pixel) {
    (p >> 24) & 0xff == 0 || ((p >> 16) & 0xff == 0xff && (p >> 8) & 0xff == 0xff && p & 0xff == 0xff)
  }

  /** Every pixel of column x is clear. */
  predicate ColumnClear(img: Image, x: int) {
    0 <= x && forall y :: 0 <= y < |img.rows| ==> x < |img.rows[y]| && Clear(img.rows[y][x])
  }

  // ------------------------------------------------------------ the scan

  /** lastClearRow when the scan starts at column x with columns 1..x-1 clear. */
  function ClearRun(img: Image, x: int): int
    requires Valid(img) && 1 <= x <= img.width
    decreases img.width - x
  {
    if x == img.width || !ColumnClear(img, x) then x - 1 else ClearRun(img, x + 1)
  }

  /** The column scan of getImageTrimHelper and trimImageHelper. */
  function LastClear(img: Image): int
    requires Valid(img)
  {
    ClearRun(img, 1)
  }

  lemma {:induction false} ClearRunSpec(img: Image, x: int)
    requires Valid(img) && 1 <= x <= img.width
    ensures x - 1 <= ClearRun(img, x) < img.width
    ensures forall c :: x <= c <= ClearRun(img, x) ==> ColumnClear(img, c)
    ensures ClearRun(img, x) + 1 < img.width ==> !ColumnClear(img, ClearRun(img, x) + 1)
    decreases img.width - x
  {
    if x < img.width && ColumnClear(img, x) {
      ClearRunSpec(img, x + 1);
    }
  }

  /** The scan's result is the largest x below the width such that columns
      1..x are entirely clear: 0 when column 1 is not clear, and column 0 is
      never looked at. */
  lemma LastClearSpec(img: Image)
    requires Valid(img)
    ensures 0 <= LastClear(img) < img.width
    ensures forall c :: 1 <= c <= LastClear(img) ==> ColumnClear(img, c)
    ensures LastClear(img) + 1 < img.width ==> !ColumnClear(img, LastClear(img) + 1)
  {
    ClearRunSpec(img, 1);
  }

  /** Those properties fix the result. */
  lemma LastClearUnique(img: Image, r: int)
    requires Valid(img) && 0 <= r < img.width
    requires forall c :: 1 <= c <= r ==> ColumnClear(img, c)
    requires r + 1 < img.width ==> !ColumnClear(img, r + 1)
    ensures LastClear(img) == r
  {
    LastClearSpec(img);
    var l := LastClear(img);
    assert l < r ==> ColumnClear(img, l + 1);
    assert r < l ==> ColumnClear(img, r + 1);
  }

  /** The labelled double loop over columns 1.. and rows. */
  method ScanColumns(img: Image) returns (lastClearRow: int)
    requires Valid(img)
    ensures lastClearRow == LastClear(img)
  {
    lastClearRow := 0;
    var x := 1;
    ghost var stopped := false;
    label out: while x < img.width
      invariant 1 <= x <= img.width
      invariant lastClearRow == x - 1
      invariant forall c :: 1 <= c < x ==> ColumnClear(img, c)
    {
      var y := 0;
      while y < |img.rows|
        invariant 0 <= y <= |img.rows|
        invariant forall y' :: 0 <= y' < y ==> Clear(img.rows[y'][x])
      {
        var pixel := img.rows[y][x];
        var alpha := (pixel >> 24) & 0xff;
        var red := (pixel >> 16) & 0xff;
        var green := (pixel >> 8) & 0xff;
        var blue := pixel & 0xff;
        if alpha == 0 || (red == 255 && green == 255 && blue == 255) {
          y := y + 1;
        } else {
          LastClearUnique(img, x - 1);
          break out;
        }
      }
      lastClearRow := x;
      x := x + 1;
    }
    if x == img.width {
      LastClearUnique(img, x - 1);
    }
  }

  // ------------------------------------------------------------ images

  /** getSubimage(t, 0, width - t, height). */
  function Subimage(img: Image, t: int): (r: Image)
    requires Valid(img) && 0 <= t < img.width
    ensures Valid(r) && r.width == img.width - t && |r.rows| == |img.rows|
  {
    Image(img.width - t, seq(|img.rows|, y requires 0 <= y < |img.rows| => img.rows[y][t..]))
  }

  function Reverse(s: seq<Pixel>): (r: seq<Pixel>)
    ensures |r| == |s| && forall i :: 0 <= i < |s| ==> r[i] == s[|s| - 1 - i]
  {
    seq(|s|, i requires 0 <= i < |s| => s[|s| - 1 - i])
  }

  /** flipImage: the mirror image about the vertical axis. */
  function Flip(img: Image): (r: Image)
    requires Valid(img)
    ensures Valid(r) && r.width == img.width && |r.rows| == |img.rows|
  {
    Image(img.width, seq(|img.rows|, y requires 0 <= y < |img.rows| => Reverse(img.rows[y])))
  }

  /** Flipping twice gives the image back, and column x of the flipped image
      is column width-1-x of the image. */
  lemma FlipFlip(img: Image)
    requires Valid(img)
    ensures Flip(Flip(img)) == img
    ensures forall x, y :: 0 <= x < img.width && 0 <= y < |img.rows| ==>
      Flip(img).rows[y][x] == img.rows[y][img.width - 1 - x]
  {
    var f := Flip(Flip(img));
    forall y | 0 <= y < |img.rows|
      ensures f.rows[y] == img.rows[y]
    {
      assert Reverse(Reverse(img.rows[y])) == img.rows[y];
    }
    assert f.rows == img.rows;
  }

  /** trimImageHelper: without pixels the image is returned as it is; a
      negative maxToTrim makes getSubimage throw. */
  function TrimSpec(img: Image, maxToTrim: int32, grabbed: bool): (r: Result<Image>)
    requires Valid(img)
    ensures r.Ok? ==> Valid(r.value) && 1 <= r.value.width <= img.width && |r.value.rows| == |img.rows|
    ensures r.Err? <==> grabbed && maxToTrim < 0
  {
    LastClearSpec(img);
    if !grabbed then Ok(img)
    else
      var t := if LastClear(img) < maxToTrim then LastClear(img) else maxToTrim;
      if t < 0 then Err("RasterFormatException") else Ok(Subimage(img, t))
  }

  /** getImageTrimHelper: -1 without pixels. */
  function TrimMeasure(img: Image, grabbed: bool): (r: int)
    requires Valid(img)
    ensures grabbed ==> 0 <= r < img.width
  {
    LastClearSpec(img);
    if grabbed then LastClear(img) else -1
  }

  /** trimImageHelper drops min(scan, maxToTrim) leading columns: the height
      is kept, the width falls by exactly that amount, and each row loses
      exactly its first that-many pixels. Every dropped column but column 0
      is clear; the scan starts at column 1 and never looks at column 0. */
  lemma TrimRemoves(img: Image, maxToTrim: int32)
    requires Valid(img) && maxToTrim >= 0
    ensures TrimSpec(img, maxToTrim, true).Ok?
    ensures var t := if TrimMeasure(img, true) < maxToTrim then TrimMeasure(img, true) else maxToTrim as int;
      var r := TrimSpec(img, maxToTrim, true).value;
      r.width == img.width - t && |r.rows| == |img.rows| &&
      (forall y :: 0 <= y < |img.rows| ==> r.rows[y] == img.rows[y][t..]) &&
      forall c :: 1 <= c < t ==> ColumnClear(img, c)
  {
    LastClearSpec(img);
  }

  method TrimImageHelper(img: Image, maxToTrim: int32, grabbed: bool) returns (r: Result<Image>)
    requires Valid(img)
    ensures r == TrimSpec(img, maxToTrim, grabbed)
  {
    if !grabbed {
      return Ok(img);
    }
    var lastClearRow := ScanColumns(img);
    var trimmable := if lastClearRow < maxToTrim then lastClearRow else maxToTrim as int;
    if trimmable < 0 {
      return Err("RasterFormatException");
    }
    LastClearSpec(img);
    return Ok(Subimage(img, trimmable));
  }

  method GetImageTrimHelper(img: Image, grabbed: bool) returns (r: int)
    requires Valid(img)
    ensures r == TrimMeasure(img, grabbed)
  {
    if !grabbed {
      return -1;
    }
    r := ScanColumns(img);
  }

  /** trimImage: from the end, the helper runs on the mirrored image and the
      result is mirrored back. */
  function TrimImageSpec(img: Image, trimFromEnd: bool, maxToTrim: int32, grabbed: bool): Result<Image>
    requires Valid(img)
  {
    if trimFromEnd then
      match TrimSpec(Flip(img), maxToTrim, grabbed)
      case Err(e) => Err(e)
      case Ok(t) => Ok(Flip(t))
    else TrimSpec(img, maxToTrim, grabbed)
  }

  /** getImageTrim. */
  function ImageTrim(img: Image, flipped: bool, grabbed: bool): int
    requires Valid(img)
  {
    if flipped then TrimMeasure(Flip(img), grabbed) else TrimMeasure(img, grabbed)
  }

  lemma ReverseDrop(s: seq<Pixel>, t: int)
    requires 0 <= t <= |s|
    ensures Reverse(Reverse(s)[t..]) == s[..|s| - t]
  {
  }

  /** trimImage(image, true, m) drops the last min(getImageTrim(image, true),
      m) columns of each row: the clear columns at the right. */
  lemma TrimFromEnd(img: Image, maxToTrim: int32)
    requires Valid(img) && maxToTrim >= 0
    ensures TrimImageSpec(img, true, maxToTrim, true).Ok?
    ensures var m := ImageTrim(img, true, true);
      var t := if m < maxToTrim then m else maxToTrim as int;
      var r := TrimImageSpec(img, true, maxToTrim, true).value;
      0 <= t < img.width && r.width == img.width - t && |r.rows| == |img.rows| &&
      forall y :: 0 <= y < |img.rows| ==> r.rows[y] == img.rows[y][..img.width - t]
  {
    var f := Flip(img);
    TrimRemoves(f, maxToTrim);
    var m := ImageTrim(img, true, true);
    var t := if m < maxToTrim then m else maxToTrim as int;
    var s := TrimSpec(f, maxToTrim, true).value;
    var r := Flip(s);
    forall y | 0 <= y < |img.rows|
      ensures r.rows[y] == img.rows[y][..img.width - t]
    {
      assert f.rows[y] == Reverse(img.rows[y]);
      assert s.rows[y] == f.rows[y][t..];
      ReverseDrop(img.rows[y], t);
    }
  }

  method FlipImage(img: Image) returns (r: Image)
    requires Valid(img)
    ensures r == Flip(img)
  {
    r := Flip(img);
  }

  method TrimImage(img: Image, trimFromEnd: bool, maxToTrim: int32, grabbed: bool) returns (r: Result<Image>)
    requires Valid(img)
    ensures r == TrimImageSpec(img, trimFromEnd, maxToTrim, grabbed)
  {
    if trimFromEnd {
      var flipped := FlipImage(img);
      var t := TrimImageHelper(flipped, maxToTrim, grabbed);
      if t.Err? {
        return Err(t.error);
      }
      var back := FlipImage(t.value);
      r := Ok(back);
    } else {
      r := TrimImageHelper(img, maxToTrim, grabbed);
    }
  }

  method GetImageTrim(img: Image, flipped: bool, grabbed: bool) returns (whitespace: int)
    requires Valid(img)
    ensures whitespace == ImageTrim(img, flipped, grabbed)
  {
    if flipped {
      var outImage := FlipImage(img);
      whitespace := GetImageTrimHelper(outImage, grabbed);
    } else {
      whitespace := GetImageTrimHelper(img, grabbed);
    }
  }

  // ------------------------------------------------------------ scaling

  /** One pass of the multi-step scale on one dimension: halved while above
      the target, never below it. */
  function Halve(w: int, target: int): int {
    if w > target then (if JavaDiv(w, 2) < target then target else JavaDiv(w, 2)) else w
  }

  /** The pass sizes of getScaledInstance: one pass straight to the target
      without higherQuality; with it, each pass halves both dimensions from
      the previous (the first from the image's size) until both reach the
      target, which only the last pass does. */
  predicate PassChain(ps: seq<(int, int)>, w0: int, h0: int, tw: int, th: int, higherQuality: bool) {
    |ps| >= 1 && ps[|ps| - 1] == (tw, th) &&
    (!higherQuality ==> ps == [(tw, th)]) &&
    (higherQuality ==>
      ps[0] == (Halve(w0, tw), Halve(h0, th)) &&
      (forall i :: 0 < i < |ps| ==> ps[i] == (Halve(ps[i - 1].0, tw), Halve(ps[i - 1].1, th))) &&
      forall i :: 0 <= i < |ps| - 1 ==> ps[i] != (tw, th))
  }

  /** getScaledInstance's do/while loop. Each pass draws into a new image, so
      a pass with a dimension below 1 throws. With higherQuality the loop runs
      forever when the image starts smaller than the target, so the start
      must be at least the target. */
  method ScaledPasses(w0: int, h0: int, tw: int, th: int, higherQuality: bool) returns (r: Result<seq<(int, int)>>)
    requires w0 >= 1 && h0 >= 1
    requires higherQuality ==> w0 >= tw && h0 >= th
    ensures r.Ok? <==> tw >= 1 && th >= 1
    ensures r.Ok? ==> PassChain(r.value, w0, h0, tw, th, higherQuality)
  {
    if !higherQuality {
      if tw < 1 || th < 1 {
        return Err("IllegalArgumentException");
      }
      return Ok([(tw, th)]);
    }
    var w, h := Halve(w0, tw), Halve(h0, th);
    if w < 1 || h < 1 {
      return Err("IllegalArgumentException");
    }
    var passes := [(w, h)];
    while w != tw || h != th
      invariant w >= 1 && h >= 1 && w >= tw && h >= th
      invariant |passes| >= 1 && passes[|passes| - 1] == (w, h)
      invariant passes[0] == (Halve(w0, tw), Halve(h0, th))
      invariant forall i :: 0 < i < |passes| ==> passes[i] == (Halve(passes[i - 1].0, tw), Halve(passes[i - 1].1, th))
      invariant forall i :: 0 <= i < |passes| - 1 ==> passes[i] != (tw, th)
      decreases w + h
    {
      w, h := Halve(w, tw), Halve(h, th);
      if w < 1 || h < 1 {
        return Err("IllegalArgumentException");
      }
      passes := passes + [(w, h)];
    }
    return Ok(passes);
  }

  lemma HalveBetween(w: int, t: int)
    requires 1 <= t <= w
    ensures t <= Halve(w, t) <= w
  {
  }

  /** Every pass lies between the target and the start, on both dimensions,
      and never grows. */
  lemma {:induction false} PassesBetween(ps: seq<(int, int)>, w0: int, h0: int, tw: int, th: int)
    requires 1 <= tw <= w0 && 1 <= th <= h0 && PassChain(ps, w0, h0, tw, th, true)
    ensures forall i :: 0 <= i < |ps| ==> tw <= ps[i].0 <= w0 && th <= ps[i].1 <= h0
    ensures forall i :: 0 < i < |ps| ==> ps[i].0 <= ps[i - 1].0 && ps[i].1 <= ps[i - 1].1
  {
    var i := 0;
    while i < |ps|
      invariant 0 <= i <= |ps|
      invariant forall j :: 0 <= j < i ==> tw <= ps[j].0 <= w0 && th <= ps[j].1 <= h0
      invariant forall j :: 0 < j < i ==> ps[j].0 <= ps[j - 1].0 && ps[j].1 <= ps[j - 1].1
    {
      if i == 0 {
        HalveBetween(w0, tw);
        HalveBetween(h0, th);
      } else {
        HalveBetween(ps[i - 1].0, tw);
        HalveBetween(ps[i - 1].1, th);
      }
      i := i + 1;
    }
  }
}
