/** The Java side's colour conversion: the YUV_420_888 planes of a camera
    image are packed into one NV21-style buffer (luma, then interleaved V/U
    pairs), and that buffer is converted to RGBA with the integer
    fixed-point formula of CameraRenderer. */
module YuvConversion {
  import opened Common

  /** Largest value a channel sum may keep before the `>> 10` shift. */
  const CHANNEL_MAX := 262143

  /** Clamping of a channel sum to `[0, CHANNEL_MAX]`. */
  function ClampSum(x: int): int
  {
    if x < 0 then 0 else if x > CHANNEL_MAX then CHANNEL_MAX else x
  }

  /** One output channel as written: clamp, shift right by 10, mask `0xff`. */
  function Channel(sum: int): Byte
  {
    (ClampSum(sum) / 1024) % 256
  }

  /** An RGBA pixel. */
  datatype Rgba = Rgba(r: Byte, g: Byte, b: Byte, a: Byte)

  /** Luma with the video-range offset removed; darker samples become 0. */
  function LumaOffset(y: Byte): nat
  {
    if y < 16 then 0 else y as int - 16
  }

  /** The pixel the formula gives for luma `y` and chroma bytes `v`, `u`. */
  function YuvPixel(y: Byte, v: Byte, u: Byte): Rgba
  {
    var y1192 := 1192 * LumaOffset(y);
    var vv, uu := v as int - 128, u as int - 128;
    Rgba(Channel(y1192 + 1634 * vv), Channel(y1192 - 833 * vv - 400 * uu),
         Channel(y1192 + 2066 * uu), 255)
  }

  /** Index of the V byte that pixel (`i`, `j`) of a `w` by `h` frame reads;
      its U byte follows. */
  function ChromaIndex(w: nat, h: nat, i: nat, j: nat): nat
  {
    w * h + (j / 2) * w + 2 * (i / 2)
  }

  /** The converter reads only inside a buffer of `len` bytes: the chroma
      reads of the last row are the furthest. */
  predicate ReadsInRange(w: nat, h: nat, len: nat)
  {
    w == 0 || h == 0 || w * h + ((h - 1) / 2) * w + 2 * ((w + 1) / 2) <= len
  }

  lemma PixelReadsInRange(w: nat, h: nat, len: nat, i: nat, j: nat)
    requires i < w && j < h && ReadsInRange(w, h, len)
    ensures j * w + i < w * h <= len
    ensures ChromaIndex(w, h, i, j) + 1 < len
  {
    var half, lastHalf := j / 2, (h - 1) / 2;
    MulLeftMonotone(j + 1, h, w);
    assert (j + 1) * w == j * w + w;
    assert h * w == w * h;
    MulLeftMonotone(half, lastHalf, w);
    assert 0 <= lastHalf * w;
    assert w * h + lastHalf * w + 2 * ((w + 1) / 2) <= len;
    assert 2 * (i / 2) + 2 <= 2 * ((w + 1) / 2);
  }

  /** The bound is exact: the U byte read for the last even column of the
      last row is the furthest byte read, so the converter stays inside the
      buffer exactly when that read does. */
  lemma LastReadDecides(w: nat, h: nat, len: nat)
    requires w > 0 && h > 0
    ensures 2 * ((w - 1) / 2) < w
    ensures ReadsInRange(w, h, len) <==> ChromaIndex(w, h, 2 * ((w - 1) / 2), h - 1) + 1 < len
  {
    assert 2 * ((w - 1) / 2 + 1) == 2 * ((w + 1) / 2);
  }

  lemma PixelIndicesInBuffer(w: nat, h: nat, len: nat, i: nat, j: nat, yi: nat, c: nat)
    requires i < w && j < h && ReadsInRange(w, h, len)
    requires yi == j * w + i && c == ChromaIndex(w, h, i, j)
    ensures yi < len && c + 1 < len
  {
    PixelReadsInRange(w, h, len, i, j);
  }

  /** Pixel (`i`, `j`) of the converted frame. */
  function PixelAt(yuv: seq<Byte>, w: nat, h: nat, i: nat, j: nat): Rgba
    requires i < w && j < h && ReadsInRange(w, h, |yuv|)
  {
    var yi, c := j * w + i, ChromaIndex(w, h, i, j);
    PixelIndicesInBuffer(w, h, |yuv|, i, j, yi, c);
    YuvPixel(yuv[yi], yuv[c], yuv[c + 1])
  }

  /** Channel `c` (0 = R, 1 = G, 2 = B, 3 = A) of a pixel. */
  function ChannelOf(px: Rgba, c: nat): Byte
    requires c < 4
  {
    if c == 0 then px.r else if c == 1 then px.g else if c == 2 then px.b else px.a
  }

  /** Byte `k` of the converted frame: pixel `k / 4` in row-major order,
      channel `k % 4`. */
  function ConvertedByte(yuv: seq<Byte>, w: nat, h: nat, k: nat): Byte
    requires k < w * h * 4 && ReadsInRange(w, h, |yuv|)
  {
    var p := k / 4;
    RowBelowHeight(p, w, h);
    ChannelOf(PixelAt(yuv, w, h, p % w, p / w), k % 4)
  }

  /** The whole RGBA frame the converter produces from an NV21 buffer. */
  function ToRgba(yuv: seq<Byte>, w: nat, h: nat): seq<Byte>
    requires ReadsInRange(w, h, |yuv|)
  {
    seq(w * h * 4, k requires 0 <= k < w * h * 4 => ConvertedByte(yuv, w, h, k))
  }

  /** Bytes `4 * yp .. 4 * yp + 3` of `out` hold pixel `px` in the order
      R, G, B, A. */
  predicate HoldsPixel(out: seq<Byte>, yp: nat, px: Rgba)
  {
    4 * yp + 3 < |out| &&
    out[4 * yp] == px.r && out[4 * yp + 1] == px.g && out[4 * yp + 2] == px.b && out[4 * yp + 3] == px.a
  }

  /** Pixel `yp = j * w + i` of the converted frame is the formula applied to
      luma byte `yp` and to the chroma pair at `ChromaIndex(w, h, i, j)`. */
  lemma {:induction false} PixelLayout(yuv: seq<Byte>, w: nat, h: nat, i: nat, j: nat, yp: nat, c: nat)
    requires i < w && j < h && ReadsInRange(w, h, |yuv|)
    requires yp == j * w + i && c == ChromaIndex(w, h, i, j)
    ensures yp < |yuv| && c + 1 < |yuv|
    ensures HoldsPixel(ToRgba(yuv, w, h), yp, YuvPixel(yuv[yp], yuv[c], yuv[c + 1]))
  {
    var out, px := ToRgba(yuv, w, h), PixelAt(yuv, w, h, i, j);
    PixelReadsInRange(w, h, |yuv|, i, j);
    RowMajorDivMod(i, j, w);
    assert 4 * yp + 3 < |out|;
    forall ch | 0 <= ch < 4
      ensures out[4 * yp + ch] == ChannelOf(px, ch)
    {
      assert (4 * yp + ch) / 4 == yp && (4 * yp + ch) % 4 == ch;
      assert out[4 * yp + ch] == ConvertedByte(yuv, w, h, 4 * yp + ch);
    }
    assert out[4 * yp] == ChannelOf(px, 0) && out[4 * yp + 1] == ChannelOf(px, 1);
    assert out[4 * yp + 2] == ChannelOf(px, 2) && out[4 * yp + 3] == ChannelOf(px, 3);
  }

  /** Every pixel of the converted frame is opaque. */
  lemma AlphaIsOpaque(yuv: seq<Byte>, w: nat, h: nat, p: nat)
    requires p < w * h && ReadsInRange(w, h, |yuv|)
    ensures ToRgba(yuv, w, h)[4 * p + 3] == 255
  {
  }

  /** The `& 0xff` mask never cuts anything: the clamped sum shifted right by
      10 is already at most 255. */
  lemma ChannelNeverTruncates(sum: int)
    ensures Channel(sum) == ClampSum(sum) / 1024 <= 255
  {
  }

  /** Columns `2k`, `2k + 1` of rows `2m`, `2m + 1` share one chroma pair: V
      at `w * h + m * w + 2k`, U right after it. */
  lemma ChromaShared(w: nat, h: nat, k: nat, m: nat, di: nat, dj: nat)
    requires di < 2 && dj < 2 && 2 * k + di < w && 2 * m + dj < h
    ensures ChromaIndex(w, h, 2 * k + di, 2 * m + dj) == w * h + m * w + 2 * k
  {
  }

  /** With neutral chroma (V = U = 128) the pixel is grey:
      R = G = B = `min(1192 * y', 262143) >> 10`. */
  lemma NeutralChromaIsGrey(y: Byte)
    ensures var px, grey := YuvPixel(y, 128, 128), ClampSum(1192 * LumaOffset(y)) / 1024;
      px.r == grey && px.g == grey && px.b == grey && px.a == 255
  {
  }

  /** An all-zero input is not black: zero chroma is strongly negative, so
      the pixel is (0, 154, 0, 255). */
  lemma AllZeroIsGreen()
    ensures YuvPixel(0, 0, 0) == Rgba(0, 154, 0, 255)
  {
  }

  /** Video-range black (Y = 16, neutral chroma) converts to black. */
  lemma VideoBlackIsBlack()
    ensures YuvPixel(16, 128, 128) == Rgba(0, 0, 0, 255)
  {
  }

  /** The first `n` bytes of `out` agree with `target`. */
  ghost predicate AgreeUpTo(out: seq<Byte>, target: seq<Byte>, n: nat)
  {
    n <= |out| && n <= |target| && forall k :: 0 <= k < n ==> out[k] == target[k]
  }

  /** Copying the next four bytes of `target` extends the agreement by four. */
  lemma ExtendAgreement(before: seq<Byte>, after: seq<Byte>, target: seq<Byte>, n: nat)
    requires AgreeUpTo(before, target, n) && n + 3 < |before| && n + 3 < |target|
    requires after == before[n := target[n]][n + 1 := target[n + 1]][n + 2 := target[n + 2]][n + 3 := target[n + 3]]
    ensures AgreeUpTo(after, target, n + 4)
  {
  }

  /** Along row `j` the chroma index grows with the column, two bytes per
      pair of columns. */
  lemma ChromaAlongRow(w: nat, h: nat, i: nat, j: nat)
    ensures ChromaIndex(w, h, i, j) == ChromaIndex(w, h, 0, j) + i - i % 2
  {
  }

  /** Parity flips from one column to the next. */
  lemma NextParity(i: nat)
    ensures (i + 1) % 2 == 1 - i % 2 && 0 <= i % 2 <= 1
  {
  }

  /** Converts the NV21 buffer `yuv` into `rgba`, row by row. The buffer is
      only read, so it is passed as its contents. */
  method ConvertYuv420ToRgba(yuv: seq<Byte>, rgba: array<Byte>, width: nat, height: nat)
    requires rgba.Length == width * height * 4
    requires ReadsInRange(width, height, |yuv|)
    modifies rgba
    ensures rgba[..] == ToRgba(yuv, width, height)
  {
    var j, yp := 0, 0;
    while j < height
      invariant 0 <= j <= height
      invariant yp == j * width
      invariant AgreeUpTo(rgba[..], ToRgba(yuv, width, height), 4 * yp)
    {
      yp := ConvertRow(yuv, rgba, width, height, j, yp);
      j := j + 1;
    }
    assert height * width == width * height;
  }

  /** Row `j` of the conversion: the luma index `yp` runs along the row, the
      chroma index `uvp` advances by one V/U pair at every even column. */
  method ConvertRow(yuv: seq<Byte>, rgba: array<Byte>, width: nat, height: nat, j: nat, yp0: nat)
    returns (yp: nat)
    requires j < height && yp0 == j * width
    requires rgba.Length == width * height * 4
    requires ReadsInRange(width, height, |yuv|)
    requires AgreeUpTo(rgba[..], ToRgba(yuv, width, height), 4 * yp0)
    modifies rgba
    ensures yp == (j + 1) * width
    ensures AgreeUpTo(rgba[..], ToRgba(yuv, width, height), 4 * yp)
  {
    ghost var rowBase, target := ChromaIndex(width, height, 0, j), ToRgba(yuv, width, height);
    var uvp: int, u: int, v: int := width * height + (j / 2) * width, 0, 0;
    assert |target| == rgba.Length && uvp == rowBase;
    var i := 0;
    yp := yp0;
    while i < width
      invariant 0 <= i <= width
      invariant yp == yp0 + i
      invariant uvp == rowBase + i + i % 2
      invariant i % 2 == 1 ==> 2 <= uvp <= |yuv| && v + 128 == yuv[uvp - 2] && u + 128 == yuv[uvp - 1]
      invariant AgreeUpTo(rgba[..], target, 4 * yp)
    {
      ghost var c := rowBase + i - i % 2;
      ChromaAlongRow(width, height, i, j);
      PixelLayout(yuv, width, height, i, j, yp, c);
      NextParity(i);
      if i % 2 == 0 {
        assert uvp == c;
        v := yuv[uvp] as int - 128;
        uvp := uvp + 1;
        u := yuv[uvp] as int - 128;
        uvp := uvp + 1;
      } else {
        assert uvp == c + 2;
      }
      ConvertPixel(yuv, rgba, yp, c, v, u, target);
      i, yp := i + 1, yp + 1;
    }
    assert (j + 1) * width == j * width + width;
  }

  /** Luma byte `yp` with the chroma pair `v`, `u` read at `c` (already
      centred on 0) becomes pixel `yp` of the output. */
  method ConvertPixel(yuv: seq<Byte>, rgba: array<Byte>, yp: nat, ghost c: nat, v: int, u: int, ghost target: seq<Byte>)
    requires yp < |yuv| && c + 1 < |yuv| && v + 128 == yuv[c] && u + 128 == yuv[c + 1]
    requires 4 * yp + 3 < rgba.Length
    requires HoldsPixel(target, yp, YuvPixel(yuv[yp], yuv[c], yuv[c + 1]))
    requires AgreeUpTo(rgba[..], target, 4 * yp)
    modifies rgba
    ensures AgreeUpTo(rgba[..], target, 4 * (yp + 1))
  {
    var px := FormulaPixel(yuv[yp], v, u);
    ghost var before := rgba[..];
    StorePixel(rgba, yp, px);
    ExtendAgreement(before, rgba[..], target, 4 * yp);
  }

  /** The arithmetic of one pixel in the converter's own steps: offset and
      floor the luma, form the three fixed-point sums, clamp each to
      `[0, 262143]`, shift and mask. */
  method FormulaPixel(luma: Byte, v: int, u: int) returns (px: Rgba)
    requires -128 <= v < 128 && -128 <= u < 128
    ensures px == YuvPixel(luma, v + 128, u + 128)
  {
    var y: int := luma as int - 16;
    if y < 0 { y := 0; }
    var y1192 := 1192 * y;
    var r := y1192 + 1634 * v;
    var g := y1192 - 833 * v - 400 * u;
    var b := y1192 + 2066 * u;
    if r < 0 { r := 0; } else if r > 262143 { r := 262143; }
    if g < 0 { g := 0; } else if g > 262143 { g := 262143; }
    if b < 0 { b := 0; } else if b > 262143 { b := 262143; }
    px := Rgba((r / 1024) % 256, (g / 1024) % 256, (b / 1024) % 256, 255);
  }

  /** Writes pixel number `yp` as four bytes R, G, B, A. */
  method StorePixel(rgba: array<Byte>, yp: nat, px: Rgba)
    requires 4 * yp + 3 < rgba.Length
    modifies rgba
    ensures rgba[..] == old(rgba[..])[4 * yp := px.r][4 * yp + 1 := px.g][4 * yp + 2 := px.b][4 * yp + 3 := px.a]
  {
    var pixelIndex := yp * 4;
    rgba[pixelIndex] := px.r;
    rgba[pixelIndex + 1] := px.g;
    rgba[pixelIndex + 2] := px.b;
    rgba[pixelIndex + 3] := px.a;
  }

  /** The NV21 buffer built from the three planes: the Y plane, then `V[i]`,
      `U[i]` for every U byte, then zeros for the rest of the allocation
      (`ySize + uSize + vSize` bytes in all). */
  function Nv21(y: seq<Byte>, u: seq<Byte>, v: seq<Byte>): seq<Byte>
    requires |u| <= |v|
  {
    y + seq(2 * |u|, k requires 0 <= k < 2 * |u| => if k % 2 == 0 then v[k / 2] else u[k / 2])
      + seq(|v| - |u|, _ => 0)
  }

  /** The layout of the NV21 buffer, byte by byte. */
  lemma Nv21Layout(y: seq<Byte>, u: seq<Byte>, v: seq<Byte>)
    requires |u| <= |v|
    ensures |Nv21(y, u, v)| == |y| + |u| + |v|
    ensures Nv21(y, u, v)[..|y|] == y
    ensures forall i :: 0 <= i < |u| ==> Nv21(y, u, v)[|y| + 2 * i] == v[i] && Nv21(y, u, v)[|y| + 2 * i + 1] == u[i]
    ensures forall k :: |y| + 2 * |u| <= k < |y| + |u| + |v| ==> Nv21(y, u, v)[k] == 0
  {
    var out := Nv21(y, u, v);
    forall i | 0 <= i < |u|
      ensures out[|y| + 2 * i] == v[i] && out[|y| + 2 * i + 1] == u[i]
    {
      assert (2 * i) / 2 == i && (2 * i + 1) / 2 == i;
    }
  }

  /** A buffer with the layout of `Nv21Layout` is the NV21 buffer. */
  lemma Nv21Determined(s: seq<Byte>, y: seq<Byte>, u: seq<Byte>, v: seq<Byte>)
    requires |u| <= |v| && |s| == |y| + |u| + |v|
    requires forall k :: 0 <= k < |y| ==> s[k] == y[k]
    requires forall t :: 0 <= t < |u| ==> s[|y| + 2 * t] == v[t] && s[|y| + 2 * t + 1] == u[t]
    requires forall k :: |y| + 2 * |u| <= k < |s| ==> s[k] == 0
    ensures s == Nv21(y, u, v)
  {
    var out := Nv21(y, u, v);
    forall k | 0 <= k < |s|
      ensures s[k] == out[k]
    {
      if |y| <= k < |y| + 2 * |u| {
        var t := (k - |y|) / 2;
        assert k == |y| + 2 * t || k == |y| + 2 * t + 1;
      }
    }
  }

  /** The interleaving of the chroma planes: `null` stands for the
      IndexOutOfBoundsException `vBuffer.get(i)` throws once `i` reaches the
      V plane's size, which happens exactly when the V plane is shorter than
      the U plane. */
  method InterleaveNv21(yPlane: array<Byte>, uPlane: array<Byte>, vPlane: array<Byte>) returns (nv21: array?<Byte>)
    ensures nv21 == null <==> vPlane.Length < uPlane.Length
    ensures nv21 != null ==> fresh(nv21) && nv21[..] == Nv21(yPlane[..], uPlane[..], vPlane[..])
  {
    var ySize, uSize, vSize := yPlane.Length, uPlane.Length, vPlane.Length;
    if vSize < uSize {
      return null;
    }
    nv21 := new Byte[ySize + uSize + vSize](_ => 0);
    forall k | 0 <= k < ySize {
      nv21[k] := yPlane[k];
    }
    var uvIndex := ySize;
    var i := 0;
    while i < uSize
      invariant 0 <= i <= uSize && uvIndex == ySize + 2 * i
      invariant forall k :: 0 <= k < ySize ==> nv21[k] == yPlane[k]
      invariant forall t :: 0 <= t < i ==> nv21[ySize + 2 * t] == vPlane[t] && nv21[ySize + 2 * t + 1] == uPlane[t]
      invariant forall k :: uvIndex <= k < nv21.Length ==> nv21[k] == 0
    {
      var vByte, uByte := vPlane[i], uPlane[i];
      nv21[uvIndex] := vByte;
      uvIndex := uvIndex + 1;
      nv21[uvIndex] := uByte;
      uvIndex := uvIndex + 1;
      i := i + 1;
    }
    Nv21Determined(nv21[..], yPlane[..], uPlane[..], vPlane[..]);
  }

  /** The full conversion of one camera image: `null` when a read would
      throw (V plane shorter than U plane, or an NV21 buffer too short for
      the chroma rows), otherwise a fresh `width * height * 4` RGBA frame. */
  method ConvertYuvToRgb(yPlane: array<Byte>, uPlane: array<Byte>, vPlane: array<Byte>, width: nat, height: nat)
    returns (rgba: array?<Byte>)
    ensures rgba == null <==>
      vPlane.Length < uPlane.Length || !ReadsInRange(width, height, yPlane.Length + uPlane.Length + vPlane.Length)
    ensures rgba != null ==> |Nv21(yPlane[..], uPlane[..], vPlane[..])| == yPlane.Length + uPlane.Length + vPlane.Length
    ensures rgba != null ==>
      fresh(rgba) && rgba.Length == width * height * 4 &&
      rgba[..] == ToRgba(Nv21(yPlane[..], uPlane[..], vPlane[..]), width, height)
  {
    var nv21 := InterleaveNv21(yPlane, uPlane, vPlane);
    if nv21 == null {
      return null;
    }
    Nv21Layout(yPlane[..], uPlane[..], vPlane[..]);
    if !ReadsInRange(width, height, nv21.Length) {
      return null;
    }
    rgba := new Byte[width * height * 4];
    ConvertYuv420ToRgba(nv21[..], rgba, width, height);
  }
}
