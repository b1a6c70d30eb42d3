/**
 * The in-place pixel filters of src/utils/ocrFunction.js. Each works on the RGBA bytes
 * of an `ImageData` (four bytes per pixel, R G B A, row-major) and writes them back in
 * place; the canvas calls around them are not part of this model.
 *
 * Luma weights are exact rationals here, not IEEE doubles: what is claimed about the
 * outputs is their shape (R = G = B, each 0 or 255, alpha untouched), which does not
 * depend on rounding, not which side of the threshold a boundary pixel falls on.
 */
module PixelFilters {
  import opened JsBuiltins

  /** Byte `k` is an alpha byte. */
  predicate IsAlpha(k: nat) { k % 4 == 3 }

  /** Every pixel is grey (R = G = B) and black or white. */
  predicate IsBlackAndWhite(s: seq<Byte>)
    requires |s| % 4 == 0
  {
    forall q :: 0 <= q < |s| / 4 ==>
      s[4 * q] == s[4 * q + 1] == s[4 * q + 2] && (s[4 * q] == 0 || s[4 * q] == 255)
  }

  /** The alpha bytes of `t` are those of `s`. */
  predicate SameAlpha(s: seq<Byte>, t: seq<Byte>) {
    |s| == |t| && forall k :: 0 <= k < |s| && IsAlpha(k) ==> t[k] == s[k]
  }

  lemma PixelBase(n: nat, k: nat)
    requires n % 4 == 0 && k < n
    ensures k - k % 4 + 3 < n && (k - k % 4) % 4 == 0
  {
  }

  /** The four bytes of the pixel starting at a multiple of four. */
  lemma PixelOffsets(i: nat)
    requires i % 4 == 0
    ensures i % 4 == 0 && (i + 1) % 4 == 1 && (i + 2) % 4 == 2 && (i + 3) % 4 == 3
    ensures !IsAlpha(i) && !IsAlpha(i + 1) && !IsAlpha(i + 2) && IsAlpha(i + 3)
  {
  }

  // ---------------------------------------------------------------------------------
  // invertColors

  function InvertAt(s: seq<Byte>, k: nat): Byte
    requires k < |s|
  {
    if IsAlpha(k) then s[k] else 255 - s[k]
  }

  /** The buffer `invertColors` leaves: every colour byte v becomes 255 - v. */
  function Inverted(s: seq<Byte>): (r: seq<Byte>)
    ensures |r| == |s|
  {
    seq(|s|, k requires 0 <= k < |s| => InvertAt(s, k))
  }

  method InvertColors(data: array<Byte>)
    requires data.Length % 4 == 0
    modifies data
    ensures data[..] == Inverted(old(data[..]))
  {
    ghost var s := data[..];
    var i := 0;
    while i < data.Length
      invariant 0 <= i <= data.Length && i % 4 == 0
      invariant forall k :: 0 <= k < i ==> data[k] == InvertAt(s, k)
      invariant forall k :: i <= k < data.Length ==> data[k] == s[k]
    {
      PixelOffsets(i);
      assert InvertAt(s, i + 3) == s[i + 3];
      data[i] := 255 - data[i];
      data[i + 1] := 255 - data[i + 1];
      data[i + 2] := 255 - data[i + 2];
      i := i + 4;
    }
  }

  /** Inverting twice restores the buffer, and alpha is never touched. */
  lemma InvertInvolution(s: seq<Byte>)
    ensures Inverted(Inverted(s)) == s
    ensures SameAlpha(s, Inverted(s))
    ensures forall k :: 0 <= k < |s| && !IsAlpha(k) ==> Inverted(s)[k] as int == 255 - s[k] as int
  {
  }

  // ---------------------------------------------------------------------------------
  // The loop shared by `applyBinarization` and both passes of `preprocessCanvas`:
  // `data[i] = data[i + 1] = data[i + 2] = shade(R, G, B)` for every pixel.

  function PaintAt(s: seq<Byte>, shade: (Byte, Byte, Byte) -> Byte, k: nat): Byte
    requires |s| % 4 == 0 && k < |s|
  {
    PixelBase(|s|, k);
    var q := k - k % 4;
    if IsAlpha(k) then s[k] else shade(s[q], s[q + 1], s[q + 2])
  }

  /** Every pixel's colour bytes replaced by the shade of its old colour. */
  function Painted(s: seq<Byte>, shade: (Byte, Byte, Byte) -> Byte): (r: seq<Byte>)
    requires |s| % 4 == 0
    ensures |r| == |s|
  {
    seq(|s|, k requires 0 <= k < |s| => PaintAt(s, shade, k))
  }

  method PaintGrey(data: array<Byte>, shade: (Byte, Byte, Byte) -> Byte)
    requires data.Length % 4 == 0
    modifies data
    ensures data[..] == Painted(old(data[..]), shade)
  {
    ghost var s := data[..];
    var i := 0;
    while i < data.Length
      invariant 0 <= i <= data.Length && i % 4 == 0
      invariant forall k :: 0 <= k < i ==> data[k] == PaintAt(s, shade, k)
      invariant forall k :: i <= k < data.Length ==> data[k] == s[k]
    {
      var v := shade(data[i], data[i + 1], data[i + 2]);
      PixelOffsets(i);
      assert PaintAt(s, shade, i) == v && PaintAt(s, shade, i + 1) == v && PaintAt(s, shade, i + 2) == v;
      assert PaintAt(s, shade, i + 3) == s[i + 3];
      data[i] := v;
      data[i + 1] := v;
      data[i + 2] := v;
      i := i + 4;
    }
  }

  /** The shade takes only the values 0 and 255. */
  predicate TwoTone(shade: (Byte, Byte, Byte) -> Byte) {
    forall r, g, b :: shade(r, g, b) == 0 || shade(r, g, b) == 255
  }

  /** A two-tone shade leaves black-and-white pixels with their alpha. */
  lemma PaintedShape(s: seq<Byte>, shade: (Byte, Byte, Byte) -> Byte)
    requires |s| % 4 == 0 && TwoTone(shade)
    ensures IsBlackAndWhite(Painted(s, shade))
    ensures SameAlpha(s, Painted(s, shade))
  {
    var r := Painted(s, shade);
    forall q | 0 <= q < |s| / 4
      ensures r[4 * q] == r[4 * q + 1] == r[4 * q + 2] && (r[4 * q] == 0 || r[4 * q] == 255)
    {
      assert (4 * q + 1) - (4 * q + 1) % 4 == 4 * q;
      assert (4 * q + 2) - (4 * q + 2) % 4 == 4 * q;
    }
  }

  /** Painting never touches alpha. */
  lemma PaintedAlpha(s: seq<Byte>, shade: (Byte, Byte, Byte) -> Byte)
    requires |s| % 4 == 0
    ensures SameAlpha(s, Painted(s, shade))
  {
  }

  /** Painting a black-and-white buffer again changes nothing when the shade keeps
      black black and white white. */
  lemma PaintedFixes(s: seq<Byte>, shade: (Byte, Byte, Byte) -> Byte)
    requires |s| % 4 == 0 && IsBlackAndWhite(s)
    requires shade(0, 0, 0) == 0 && shade(255, 255, 255) == 255
    ensures Painted(s, shade) == s
  {
    forall k | 0 <= k < |s|
      ensures PaintAt(s, shade, k) == s[k]
    {
      PixelBase(|s|, k);
      var q := k - k % 4;
      assert s[q] == s[q + 1] == s[q + 2] && (s[q] == 0 || s[q] == 255) by {
        assert q == 4 * (q / 4);
      }
      assert q + k % 4 == k;
    }
  }

  // ---------------------------------------------------------------------------------
  // applyBinarization

  /** Rec. 601 luma, as `applyBinarization` weighs the channels. */
  function Luma601(r: Byte, g: Byte, b: Byte): real {
    0.299 * (r as real) + 0.587 * (g as real) + 0.114 * (b as real)
  }

  /** White exactly when the luma is above the threshold. */
  function BinaryShade(threshold: real): (Byte, Byte, Byte) -> Byte {
    (r, g, b) => if Luma601(r, g, b) > threshold then 255 else 0
  }

  /** The buffer `applyBinarization(canvas, threshold)` leaves. */
  function Binarized(s: seq<Byte>, threshold: real): (r: seq<Byte>)
    requires |s| % 4 == 0
    ensures |r| == |s|
  {
    Painted(s, BinaryShade(threshold))
  }

  /** `applyBinarization`; the source's default threshold is 128. */
  method ApplyBinarization(data: array<Byte>, threshold: real)
    requires data.Length % 4 == 0
    modifies data
    ensures data[..] == Binarized(old(data[..]), threshold)
  {
    PaintGrey(data, BinaryShade(threshold));
  }

  /** Binarization leaves black-and-white pixels with their alpha, and with a threshold
      in [0, 255) a second binarization changes nothing. */
  lemma BinarizedShape(s: seq<Byte>, threshold: real)
    requires |s| % 4 == 0
    ensures IsBlackAndWhite(Binarized(s, threshold))
    ensures SameAlpha(s, Binarized(s, threshold))
    ensures 0.0 <= threshold < 255.0 ==>
      Binarized(Binarized(s, threshold), threshold) == Binarized(s, threshold)
  {
    PaintedShape(s, BinaryShade(threshold));
    if 0.0 <= threshold < 255.0 {
      PaintedFixes(Binarized(s, threshold), BinaryShade(threshold));
    }
  }

  // ---------------------------------------------------------------------------------
  // preprocessCanvas

  /** Rec. 709 luma, as `preprocessCanvas` weighs the channels. */
  function Luma709(r: Byte, g: Byte, b: Byte): real {
    0.2126 * (r as real) + 0.7152 * (g as real) + 0.0722 * (b as real)
  }

  /** The grey level `preprocessCanvas` stores, in integers: the luma in ten-thousandths,
      rounded half to even (it never exceeds 255, so no clamping is needed). */
  function GrayOf(r: Byte, g: Byte, b: Byte): Byte {
    var n := 2126 * r as int + 7152 * g as int + 722 * b as int;
    var q, rem := n / 10000, n % 10000;
    if rem < 5000 || (rem == 5000 && q % 2 == 0) then q as Byte else (q + 1) as Byte
  }

  /** ... which is what storing the luma into the clamped array gives. */
  lemma GrayOfIsStoredLuma(r: Byte, g: Byte, b: Byte)
    ensures GrayOf(r, g, b) == ClampToByte(Luma709(r, g, b))
  {
    var n := 2126 * r as int + 7152 * g as int + 722 * b as int;
    var q, rem := n / 10000, n % 10000;
    var x := Luma709(r, g, b);
    assert x == (n as real) / 10000.0;
    assert x == q as real + (rem as real) / 10000.0;
    if 0.0 < x < 255.0 {
      assert x.Floor == q;
    }
  }

  /** The second pass: white where the (grey) red byte reaches `level * 255` with
      `level` 0.5. */
  function LevelShade(r: Byte, g: Byte, b: Byte): Byte {
    if r as real >= 0.5 * 255.0 then 255 else 0
  }

  function Preprocessed(s: seq<Byte>): (r: seq<Byte>)
    requires |s| % 4 == 0
    ensures |r| == |s|
  {
    Painted(Painted(s, GrayOf), LevelShade)
  }

  /** `preprocessCanvas`: grey scale, then a fixed threshold at level 0.5. */
  method PreprocessCanvas(data: array<Byte>)
    requires data.Length % 4 == 0
    modifies data
    ensures data[..] == Preprocessed(old(data[..]))
  {
    PaintGrey(data, GrayOf);
    PaintGrey(data, LevelShade);
  }

  lemma GrayOfExtremes()
    ensures GrayOf(0, 0, 0) == 0 && GrayOf(255, 255, 255) == 255
  {
  }

  /** The preprocessed buffer is black and white with the original alpha, and a second
      pass changes nothing. */
  lemma PreprocessedShape(s: seq<Byte>)
    requires |s| % 4 == 0
    ensures IsBlackAndWhite(Preprocessed(s))
    ensures SameAlpha(s, Preprocessed(s))
    ensures Preprocessed(Preprocessed(s)) == Preprocessed(s)
  {
    var g := Painted(s, GrayOf);
    var r := Painted(g, LevelShade);
    PaintedAlpha(s, GrayOf);
    PaintedShape(g, LevelShade);
    GrayOfExtremes();
    PaintedFixes(r, GrayOf);
    PaintedFixes(r, LevelShade);
  }

  // ---------------------------------------------------------------------------------
  // applyAdaptiveBinarization

  const BlockSize: int := 16
  const C: int := 8
  /** `blockSize / 2`: the window spans offsets -Half .. Half - 1 in each direction. */
  const Half: int := BlockSize / 2

  /** A running sum of red bytes and the number of pixels summed. */
  datatype Acc = Acc(sum: int, count: nat)

  function Add(a: Acc, b: Acc): Acc {
    Acc(a.sum + b.sum, a.count + b.count)
  }

  lemma AddAssoc(a: Acc, b: Acc, c: Acc)
    ensures Add(a, Add(b, c)) == Add(Add(a, b), c)
  {
  }

  /** Pixel (x, y) of a `w` by `h` image starts at byte `(y * w + x) * 4`. */
  lemma PixelInBounds(w: nat, h: nat, x: int, y: int)
    requires 0 <= x < w && 0 <= y < h
    ensures 0 <= y * w + x < w * h
    ensures 0 <= (y * w + x) * 4 && (y * w + x) * 4 + 3 < 4 * w * h
    ensures 4 * (y * w + x) + 3 < 4 * w * h
  {
    MulLeft(w, y, h - 1);
    assert w * (h - 1) == w * h - w;
    assert 4 * w * h == 4 * (w * h);
  }

  /** What neighbour (nx, ny) adds to the window: its red byte when it lies inside. */
  function Sample(s: seq<Byte>, w: nat, h: nat, nx: int, ny: int): Acc
    requires |s| == 4 * w * h
  {
    if 0 <= nx < w && 0 <= ny < h then
      PixelInBounds(w, h, nx, ny);
      Acc(s[(ny * w + nx) * 4] as int, 1)
    else Acc(0, 0)
  }

  /** Columns lo .. hi - 1 of image row ny, out-of-bounds columns contributing nothing. */
  function RowAcc(s: seq<Byte>, w: nat, h: nat, ny: int, lo: int, hi: int): Acc
    requires |s| == 4 * w * h && lo <= hi
    decreases hi - lo
  {
    if hi == lo then Acc(0, 0)
    else Add(RowAcc(s, w, h, ny, lo, hi - 1), Sample(s, w, h, hi - 1, ny))
  }

  /** Rows lo .. hi - 1 of the window around column x. */
  function WindowAcc(s: seq<Byte>, w: nat, h: nat, x: int, lo: int, hi: int): Acc
    requires |s| == 4 * w * h && lo <= hi
    decreases hi - lo
  {
    if hi == lo then Acc(0, 0)
    else Add(WindowAcc(s, w, h, x, lo, hi - 1), RowAcc(s, w, h, hi - 1, x - Half, x + Half))
  }

  /** The block around (x, y): offsets -Half .. Half - 1 in both directions. */
  function Window(s: seq<Byte>, w: nat, h: nat, x: int, y: int): Acc
    requires |s| == 4 * w * h
  {
    WindowAcc(s, w, h, x, y - Half, y + Half)
  }

  lemma {:induction false} RowCountPositive(s: seq<Byte>, w: nat, h: nat, x: int, ny: int, lo: int, hi: int)
    requires |s| == 4 * w * h && 0 <= x < w && 0 <= ny < h && lo <= x < hi
    ensures RowAcc(s, w, h, ny, lo, hi).count >= 1
    decreases hi - lo
  {
    if hi - 1 > x {
      RowCountPositive(s, w, h, x, ny, lo, hi - 1);
    }
  }

  lemma {:induction false} WindowCountFrom(s: seq<Byte>, w: nat, h: nat, x: int, y: int, lo: int, hi: int)
    requires |s| == 4 * w * h && 0 <= x < w && 0 <= y < h && lo <= y < hi
    ensures WindowAcc(s, w, h, x, lo, hi).count >= 1
    decreases hi - lo
  {
    if hi - 1 > y {
      WindowCountFrom(s, w, h, x, y, lo, hi - 1);
    } else {
      RowCountPositive(s, w, h, x, y, x - Half, x + Half);
    }
  }

  /** The window always contains the pixel itself, so the mean never divides by zero. */
  lemma WindowCountPositive(s: seq<Byte>, w: nat, h: nat, x: int, y: int)
    requires |s| == 4 * w * h && 0 <= x < w && 0 <= y < h
    ensures Window(s, w, h, x, y).count >= 1
  {
    WindowCountFrom(s, w, h, x, y, y - Half, y + Half);
  }

  /** Binarizing pixel (x, y) of the buffer as it is at that moment: white when its red
      byte exceeds the window's mean red minus C. */
  function AdaptiveStep(s: seq<Byte>, w: nat, h: nat, x: int, y: int): (r: seq<Byte>)
    requires |s| == 4 * w * h && 0 <= x < w && 0 <= y < h
    ensures |r| == |s|
  {
    PixelInBounds(w, h, x, y);
    SetPixel(s, y * w + x, AdaptiveValue(s, w, h, x, y))
  }

  /** The colour bytes of pixel `p` set to `v`. */
  function SetPixel(s: seq<Byte>, p: nat, v: Byte): (r: seq<Byte>)
    requires 4 * p + 3 < |s|
    ensures |r| == |s|
  {
    s[4 * p := v][4 * p + 1 := v][4 * p + 2 := v]
  }

  /** The value pixel (x, y) gets: 255 when its red byte exceeds the window mean minus C. */
  function AdaptiveValue(s: seq<Byte>, w: nat, h: nat, x: int, y: int): (v: Byte)
    requires |s| == 4 * w * h && 0 <= x < w && 0 <= y < h
    ensures v == 0 || v == 255
  {
    var acc := Window(s, w, h, x, y);
    WindowCountPositive(s, w, h, x, y);
    PixelInBounds(w, h, x, y);
    var mean := acc.sum as real / acc.count as real;
    if s[(y * w + x) * 4] as real > mean - C as real then 255 else 0
  }

  /** Pixels 0 .. x - 1 of row y done, in order. */
  function RowDone(s: seq<Byte>, w: nat, h: nat, y: int, x: int): (r: seq<Byte>)
    requires |s| == 4 * w * h && 0 <= y < h && 0 <= x <= w
    ensures |r| == |s|
    decreases x
  {
    if x == 0 then s else AdaptiveStep(RowDone(s, w, h, y, x - 1), w, h, x - 1, y)
  }

  lemma RowDoneNext(s: seq<Byte>, w: nat, h: nat, y: int, x: int)
    requires |s| == 4 * w * h && 0 <= y < h && 0 <= x < w
    ensures RowDone(s, w, h, y, x + 1) == AdaptiveStep(RowDone(s, w, h, y, x), w, h, x, y)
  {
  }

  /** Rows 0 .. y - 1 done, in order. */
  function RowsDone(s: seq<Byte>, w: nat, h: nat, y: int): (r: seq<Byte>)
    requires |s| == 4 * w * h && 0 <= y <= h
    ensures |r| == |s|
    decreases y
  {
    if y == 0 then s else RowDone(RowsDone(s, w, h, y - 1), w, h, y - 1, w)
  }

  /** The buffer `applyAdaptiveBinarization` leaves: every pixel binarized in row-major
      order, each against a window that already holds the binarized earlier pixels. */
  function AdaptiveBinarized(s: seq<Byte>, w: nat, h: nat): (r: seq<Byte>)
    requires |s| == 4 * w * h
    ensures |r| == |s|
  {
    RowsDone(s, w, h, h)
  }

  /** Pixel `p` is grey and black or white. */
  predicate BinaryPixel(t: seq<Byte>, p: nat)
    requires 4 * p + 3 < |t|
  {
    t[4 * p] == t[4 * p + 1] == t[4 * p + 2] && (t[4 * p] == 0 || t[4 * p] == 255)
  }

  /** Pixels 0 .. n - 1 are grey and black or white. */
  predicate BinaryBelow(t: seq<Byte>, n: nat)
    requires 4 * n <= |t|
  {
    forall p :: 0 <= p < n ==> BinaryPixel(t, p)
  }

  /** Setting pixel p to black or white extends the binary prefix by one pixel and
      leaves every alpha byte alone. */
  lemma SetPixelKeeps(s: seq<Byte>, t: seq<Byte>, p: nat, v: Byte)
    requires 4 * p + 3 < |t| && (v == 0 || v == 255)
    requires BinaryBelow(t, p) && SameAlpha(s, t)
    ensures BinaryBelow(SetPixel(t, p, v), p + 1)
    ensures SameAlpha(s, SetPixel(t, p, v))
  {
    var r := SetPixel(t, p, v);
    forall q | 0 <= q < p + 1
      ensures BinaryPixel(r, q)
    {
      if q < p {
        assert BinaryPixel(t, q);
      }
    }
    forall k | 0 <= k < |s| && IsAlpha(k)
      ensures r[k] == s[k]
    {
      assert k != 4 * p && k != 4 * p + 1 && k != 4 * p + 2;
    }
  }

  /** One adaptive step on pixel (x, y) extends the binary prefix to include it. */
  lemma StepKeeps(s: seq<Byte>, t: seq<Byte>, w: nat, h: nat, x: int, y: int, p: nat)
    requires |t| == 4 * w * h && 0 <= x < w && 0 <= y < h
    requires p == y * w + x && 4 * p + 4 <= |t|
    requires BinaryBelow(t, p) && SameAlpha(s, t)
    ensures BinaryBelow(AdaptiveStep(t, w, h, x, y), p + 1)
    ensures SameAlpha(s, AdaptiveStep(t, w, h, x, y))
  {
    PixelInBounds(w, h, x, y);
    var v := AdaptiveValue(t, w, h, x, y);
    assert AdaptiveStep(t, w, h, x, y) == SetPixel(t, p, v);
    SetPixelKeeps(s, t, p, v);
  }

  /** Doing the first x pixels of row y (which starts at pixel `b`) extends the binary
      prefix over them and keeps every alpha byte. */
  lemma {:induction false} RowDoneKeeps(s: seq<Byte>, t: seq<Byte>, w: nat, h: nat, y: int, x: int, b: nat)
    requires |t| == 4 * w * h && 0 <= y < h && 0 <= x <= w
    requires b == y * w && 4 * (b + w) <= |t|
    requires BinaryBelow(t, b) && SameAlpha(s, t)
    ensures BinaryBelow(RowDone(t, w, h, y, x), b + x)
    ensures SameAlpha(s, RowDone(t, w, h, y, x))
    decreases x
  {
    if x == 0 {
      assert RowDone(t, w, h, y, x) == t;
    } else {
      RowDoneKeeps(s, t, w, h, y, x - 1, b);
      RowStepKeeps(s, t, w, h, y, x, b);
    }
  }

  /** The step of `RowDoneKeeps`: pixel x - 1 of the row joins the binary prefix. */
  lemma RowStepKeeps(s: seq<Byte>, t: seq<Byte>, w: nat, h: nat, y: int, x: int, b: nat)
    requires |t| == 4 * w * h && 0 <= y < h && 0 < x <= w
    requires b == y * w && 4 * (b + w) <= |t|
    requires BinaryBelow(RowDone(t, w, h, y, x - 1), b + x - 1) && SameAlpha(s, RowDone(t, w, h, y, x - 1))
    ensures BinaryBelow(RowDone(t, w, h, y, x), b + x)
    ensures SameAlpha(s, RowDone(t, w, h, y, x))
  {
    var u := RowDone(t, w, h, y, x - 1);
    var p: nat := b + (x - 1);
    StepKeeps(s, u, w, h, x - 1, y, p);
    assert RowDone(t, w, h, y, x) == AdaptiveStep(u, w, h, x - 1, y);
  }

  /** Row y of a `w` by `h` image covers pixels y * w .. y * w + w - 1. */
  lemma RowInBounds(w: nat, h: nat, y: int)
    requires 0 <= y < h
    ensures 0 <= y * w && 4 * (y * w + w) <= 4 * w * h
    ensures (y + 1) * w == y * w + w
  {
    MulLeft(w, y, h - 1);
    assert w * (h - 1) == w * h - w;
    assert 4 * w * h == 4 * (w * h);
  }

  /** After the first y rows, their pixels are black or white and alpha is untouched. */
  lemma {:induction false} RowsDoneKeeps(s: seq<Byte>, w: nat, h: nat, y: int)
    requires |s| == 4 * w * h && 0 <= y <= h
    ensures 0 <= y * w && 4 * (y * w) <= |s|
    ensures BinaryBelow(RowsDone(s, w, h, y), y * w)
    ensures SameAlpha(s, RowsDone(s, w, h, y))
    decreases y
  {
    if y > 0 {
      RowsDoneKeeps(s, w, h, y - 1);
      RowInBounds(w, h, y - 1);
      var u := RowsDone(s, w, h, y - 1);
      RowDoneKeeps(s, u, w, h, y - 1, w, (y - 1) * w);
    }
  }

  /** A `w` by `h` image has h * w pixels of four bytes each. */
  lemma PixelCount(w: nat, h: nat)
    ensures 4 * w * h == 4 * (h * w) && (4 * w * h) % 4 == 0 && (4 * w * h) / 4 == h * w
  {
    assert 4 * w * h == 4 * (w * h);
    assert w * h == h * w;
  }

  /** `applyAdaptiveBinarization` leaves black-and-white pixels with their alpha. */
  lemma AdaptiveShape(s: seq<Byte>, w: nat, h: nat)
    requires |s| == 4 * w * h
    ensures |s| % 4 == 0
    ensures IsBlackAndWhite(AdaptiveBinarized(s, w, h))
    ensures SameAlpha(s, AdaptiveBinarized(s, w, h))
  {
    RowsDoneKeeps(s, w, h, h);
    var n := h * w;
    PixelCount(w, h);
    var r := AdaptiveBinarized(s, w, h);
    assert |r| / 4 == n;
    assert BinaryBelow(r, n);
    forall q | 0 <= q < |r| / 4
      ensures r[4 * q] == r[4 * q + 1] == r[4 * q + 2] && (r[4 * q] == 0 || r[4 * q] == 255)
    {
      assert BinaryPixel(r, q);
    }
  }

  method ApplyAdaptiveBinarization(data: array<Byte>, width: nat, height: nat)
    requires data.Length == 4 * width * height
    modifies data
    ensures data[..] == AdaptiveBinarized(old(data[..]), width, height)
  {
    ghost var s := data[..];
    var y := 0;
    while y < height
      invariant 0 <= y <= height
      invariant data[..] == RowsDone(s, width, height, y)
    {
      BinarizeRow(data, width, height, y);
      y := y + 1;
    }
  }

  /** The loop over the pixels of row `y`. */
  method BinarizeRow(data: array<Byte>, width: nat, height: nat, y: int)
    requires data.Length == 4 * width * height && 0 <= y < height
    modifies data
    ensures data[..] == RowDone(old(data[..]), width, height, y, width)
  {
    ghost var rowStart := data[..];
    var x := 0;
    while x < width
      invariant 0 <= x <= width
      invariant data[..] == RowDone(rowStart, width, height, y, x)
    {
      BinarizePixel(data, width, height, x, y);
      RowDoneNext(rowStart, width, height, y, x);
      x := x + 1;
    }
  }

  /** The body of the loop over x: pixel (x, y). */
  method BinarizePixel(data: array<Byte>, width: nat, height: nat, x: int, y: int)
    requires data.Length == 4 * width * height && 0 <= x < width && 0 <= y < height
    modifies data
    ensures data[..] == AdaptiveStep(old(data[..]), width, height, x, y)
  {
    var sum, count := SumWindow(data, width, height, x, y);
    WindowCountPositive(data[..], width, height, x, y);
    var mean := sum as real / count as real;
    PixelInBounds(width, height, x, y);
    var idx := (y * width + x) * 4;
    var val: Byte := if data[idx] as real > mean - C as real then 255 else 0;
    assert val == AdaptiveValue(data[..], width, height, x, y);
    data[idx] := val;
    data[idx + 1] := val;
    data[idx + 2] := val;
  }

  /** The two inner loops of `applyAdaptiveBinarization`: the red bytes of the in-bounds
      pixels of the window around (x, y), and how many there are. */
  method SumWindow(data: array<Byte>, width: nat, height: nat, x: int, y: int)
    returns (sum: int, count: nat)
    requires data.Length == 4 * width * height
    ensures Acc(sum, count) == Window(data[..], width, height, x, y)
  {
    sum, count := 0, 0;
    var dy := -Half;
    while dy < Half
      invariant -Half <= dy <= Half
      invariant Acc(sum, count) == WindowAcc(data[..], width, height, x, y - Half, y + dy)
    {
      sum, count := SumRow(data, width, height, x, y, dy, sum, count);
      dy := dy + 1;
    }
  }

  /** The innermost loop: row offset `dy` of the window added to the running sum. */
  method SumRow(data: array<Byte>, width: nat, height: nat, x: int, y: int, dy: int,
                sum0: int, count0: nat)
    returns (sum: int, count: nat)
    requires data.Length == 4 * width * height
    ensures Acc(sum, count) == Add(Acc(sum0, count0), RowAcc(data[..], width, height, y + dy, x - Half, x + Half))
  {
    sum, count := sum0, count0;
    ghost var s := data[..];
    var dx := -Half;
    while dx < Half
      invariant -Half <= dx <= Half
      invariant Acc(sum, count) == Add(Acc(sum0, count0), RowAcc(s, width, height, y + dy, x - Half, x + dx))
    {
      var nx, ny := x + dx, y + dy;
      assert RowAcc(s, width, height, ny, x - Half, x + dx + 1)
        == Add(RowAcc(s, width, height, ny, x - Half, x + dx), Sample(s, width, height, nx, ny));
      AddAssoc(Acc(sum0, count0), RowAcc(s, width, height, ny, x - Half, x + dx), Sample(s, width, height, nx, ny));
      sum, count := AddSample(data, width, height, nx, ny, sum, count);
      dx := dx + 1;
    }
  }

  /** The body of the innermost loop: an in-bounds neighbour adds its red byte and one
      to the count. */
  method AddSample(data: array<Byte>, width: nat, height: nat, nx: int, ny: int, sum0: int, count0: nat)
    returns (sum: int, count: nat)
    requires data.Length == 4 * width * height
    ensures Acc(sum, count) == Add(Acc(sum0, count0), Sample(data[..], width, height, nx, ny))
  {
    sum, count := sum0, count0;
    if nx >= 0 && ny >= 0 && nx < width && ny < height {
      PixelInBounds(width, height, nx, ny);
      var idx := (ny * width + nx) * 4;
      sum := sum + data[idx] as int;
      count := count + 1;
    }
  }
}
