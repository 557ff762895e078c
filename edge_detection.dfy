/** The native edge pipeline of edge_detection.cpp around the OpenCV
    operators, which stay abstract: each is a field of `CvLib`, a function
    that gives `None` where OpenCV throws a `cv::Exception`. */
module EdgeDetection {
  import opened Common

  /** An 8-bit matrix: `rows` by `cols` pixels of `channels` bytes each, row
      `r` starting at byte `r * step` of `data`. */
  datatype Mat = Mat(rows: nat, cols: nat, channels: nat, step: nat, data: seq<Byte>)

  /** A single-channel 8-bit matrix freshly allocated by OpenCV, so its rows
      follow each other without gaps: pixel `(r, c)` is `data[r * cols + c]`. */
  datatype EdgeMap = EdgeMap(rows: nat, cols: nat, data: seq<Byte>)

  /** A single-channel `CV_64F` matrix (the Sobel derivatives and their
      magnitude). */
  datatype FloatMat = FloatMat(rows: nat, cols: nat, values: seq<real>)

  datatype ColorCode = RgbaToGray | BgrToGray

  /** The OpenCV operators the pipeline calls, with the arguments
      `applyCanny` and `applySobel` pass: `GaussianBlur(src, Size(k, k), sigma)`,
      `Canny(src, low, high, aperture, L2gradient)`,
      `Sobel(src, CV_64F, dx, dy, ksize)`, `magnitude(x, y)` and
      `convertTo(CV_8UC1)`. */
  datatype CvLib = CvLib(
    cvtColor: (Mat, ColorCode) -> Option<Mat>,
    gaussianBlur: (Mat, int, real) -> Option<Mat>,
    canny: (Mat, real, real, int, bool) -> Option<EdgeMap>,
    sobel: (Mat, int, int, int) -> Option<FloatMat>,
    magnitude: (FloatMat, FloatMat) -> Option<FloatMat>,
    convertTo8U: FloatMat -> Option<EdgeMap>)

  /** One call into OpenCV, with its fixed arguments. */
  datatype CvCall =
    | CvtColor(code: ColorCode)
    | CloneMat
    | GaussianBlur(ksize: int, sigma: real)
    | Canny(low: real, high: real, aperture: int, l2: bool)
    | Sobel(dx: int, dy: int, ksize: int)
    | Magnitude
    | ConvertTo8U

  /** The outcome of a step and the OpenCV calls it made, in order. */
  datatype Run<T> = Run(result: Option<T>, calls: seq<CvCall>)

  /** `cv::Mat::empty()` for a matrix over a non-null buffer. */
  predicate Empty(m: Mat)
  {
    m.rows == 0 || m.cols == 0
  }

  /** `Mat::isContinuous()`: the rows of a single-row matrix, or of one
      whose stride is the row length, follow each other without gaps. */
  predicate Continuous(m: Mat)
  {
    m.rows <= 1 || m.step == m.cols * m.channels
  }

  /** The grayscale step of both detectors: RGBA to gray for four channels,
      BGR to gray for three, otherwise a clone of the input. */
  function Grayscale(lib: CvLib, m: Mat): Run<Mat>
  {
    if m.channels == 4 then Run(lib.cvtColor(m, RgbaToGray), [CvtColor(RgbaToGray)])
    else if m.channels == 3 then Run(lib.cvtColor(m, BgrToGray), [CvtColor(BgrToGray)])
    else Run(Some(m), [CloneMat])
  }

  /** `applyCanny`: reject an empty input, convert to gray, blur with a
      `kernelSize` square kernel and sigma 1.4, then Canny with aperture 3
      and the L1 gradient. */
  function ApplyCanny(lib: CvLib, m: Mat, low: real, high: real, kernelSize: int): Run<EdgeMap>
  {
    if Empty(m) then Run(None, [])
    else
      var gray := Grayscale(lib, m);
      if gray.result.None? then Run(None, gray.calls)
      else
        var blurred := lib.gaussianBlur(gray.result.value, kernelSize, 1.4);
        var calls := gray.calls + [GaussianBlur(kernelSize, 1.4)];
        if blurred.None? then Run(None, calls)
        else Run(lib.canny(blurred.value, low, high, 3, false), calls + [Canny(low, high, 3, false)])
  }

  /** `applySobel`: reject an empty input, convert to gray, blur with a fixed
      3x3 kernel (sigma 0, derived from the kernel), take the x and y
      derivatives with `kernelSize`, their magnitude, and convert to 8 bits. */
  function ApplySobel(lib: CvLib, m: Mat, kernelSize: int): Run<EdgeMap>
  {
    if Empty(m) then Run(None, [])
    else
      var gray := Grayscale(lib, m);
      if gray.result.None? then Run(None, gray.calls)
      else
        var blurred := lib.gaussianBlur(gray.result.value, 3, 0.0);
        var c1 := gray.calls + [GaussianBlur(3, 0.0)];
        if blurred.None? then Run(None, c1)
        else
          var dx := lib.sobel(blurred.value, 1, 0, kernelSize);
          var c2 := c1 + [Sobel(1, 0, kernelSize)];
          if dx.None? then Run(None, c2)
          else
            var dy := lib.sobel(blurred.value, 0, 1, kernelSize);
            var c3 := c2 + [Sobel(0, 1, kernelSize)];
            if dy.None? then Run(None, c3)
            else
              var mag := lib.magnitude(dx.value, dy.value);
              var c4 := c3 + [Magnitude];
              if mag.None? then Run(None, c4)
              else Run(lib.convertTo8U(mag.value), c4 + [ConvertTo8U])
  }

  /** The four channels `merge` builds from one edge map repeated four times. */
  function Replicate4(edges: seq<Byte>): (r: seq<Byte>)
    ensures |r| == 4 * |edges|
  {
    seq(4 * |edges|, k requires 0 <= k < 4 * |edges| => edges[k / 4])
  }

  /** `edgeToRGBA`: `None` for an empty edge map, otherwise a fresh
      continuous four-channel matrix whose every channel, alpha included, is
      the edge value. */
  function EdgeToRgba(e: EdgeMap): Option<Mat>
  {
    if e.rows == 0 || e.cols == 0 then None
    else Some(Mat(e.rows, e.cols, 4, e.cols * 4, Replicate4(e.data)))
  }

  /** The shape assumptions the pipeline relies on: gray conversion, blur and
      Canny keep the number of rows and columns and return complete
      matrices; gray conversion gives one channel and blur keeps the channel
      count. OpenCV documents each of these; `processFrame` copies
      `width * height * 4` bytes out on the strength of them. */
  ghost predicate KeepsShape(lib: CvLib)
  {
    (forall m: Mat, code: ColorCode {:trigger lib.cvtColor(m, code)} ::
      lib.cvtColor(m, code).Some? ==>
        var g := lib.cvtColor(m, code).value;
        g.rows == m.rows && g.cols == m.cols && g.channels == 1 && g.step == g.cols) &&
    (forall m: Mat, k: int, sigma: real {:trigger lib.gaussianBlur(m, k, sigma)} ::
      lib.gaussianBlur(m, k, sigma).Some? ==>
        var b := lib.gaussianBlur(m, k, sigma).value;
        b.rows == m.rows && b.cols == m.cols && b.channels == m.channels) &&
    (forall m: Mat, lo: real, hi: real, ap: int, l2: bool {:trigger lib.canny(m, lo, hi, ap, l2)} ::
      lib.canny(m, lo, hi, ap, l2).Some? ==>
        var e := lib.canny(m, lo, hi, ap, l2).value;
        e.rows == m.rows && e.cols == m.cols && |e.data| == e.rows * e.cols)
  }

  /** The RGBA edge frame `processFrame` produces from `width * height * 4`
      input bytes: Canny with thresholds 50 and 150 and a 3x3 blur, then the
      four-channel replication. `None` where `processFrame` returns false
      after the pointer checks. */
  function EdgeFrame(lib: CvLib, width: nat, height: nat, pixels: seq<Byte>): Run<Mat>
  {
    var edges := ApplyCanny(lib, Mat(height, width, 4, width * 4, pixels), 50.0, 150.0, 3);
    if edges.result.None? then Run(None, edges.calls)
    else Run(EdgeToRgba(edges.result.value), edges.calls)
  }

  /** Row after row, `rowLen` bytes from every `step` bytes of `src`: what
      the row-by-row copy writes for the first `rows` rows. */
  function Packed(src: seq<Byte>, step: nat, rowLen: nat, rows: nat): (r: seq<Byte>)
    requires rows == 0 || (rows - 1) * step + rowLen <= |src|
    ensures |r| == rows * rowLen
  {
    if rows == 0 then []
    else
      var last := (rows - 1) * step;
      MulLeftMonotone(rows - 2, rows - 1, step);
      assert (rows - 1) * rowLen + rowLen == rows * rowLen;
      Packed(src, step, rowLen, rows - 1) + src[last..last + rowLen]
  }

  /** Both copy paths write the same bytes: when the stride is the row
      length, the rows of the row-by-row copy are the first `rows * rowLen`
      bytes of the matrix. */
  lemma {:induction false} PackedContinuous(src: seq<Byte>, rowLen: nat, rows: nat)
    requires rows * rowLen <= |src|
    ensures rows == 0 || (rows - 1) * rowLen + rowLen <= |src|
    ensures Packed(src, rowLen, rowLen, rows) == src[..rows * rowLen]
  {
    if rows > 0 {
      assert (rows - 1) * rowLen + rowLen == rows * rowLen;
      if rows >= 2 {
        MulLeftMonotone(rows - 1, rows, rowLen);
      }
      PackedContinuous(src, rowLen, rows - 1);
      var last := (rows - 1) * rowLen;
      assert src[..rows * rowLen] == src[..last] + src[last..last + rowLen];
    }
  }

  /** Every byte of the replicated map, that is every channel of every pixel,
      is the edge value of that pixel; nothing else is in it. */
  lemma EdgeToRgbaChannels(e: EdgeMap)
    ensures EdgeToRgba(e).None? <==> e.rows == 0 || e.cols == 0
    ensures EdgeToRgba(e).Some? ==>
      var m := EdgeToRgba(e).value;
      m.rows == e.rows && m.cols == e.cols && m.channels == 4 && Continuous(m) &&
      |m.data| == 4 * |e.data| &&
      forall p :: 0 <= p < |e.data| ==>
        m.data[4 * p] == e.data[p] && m.data[4 * p + 1] == e.data[p] &&
        m.data[4 * p + 2] == e.data[p] && m.data[4 * p + 3] == e.data[p]
  {
    if EdgeToRgba(e).Some? {
      var m := EdgeToRgba(e).value;
      forall p | 0 <= p < |e.data|
        ensures m.data[4 * p] == e.data[p] && m.data[4 * p + 1] == e.data[p]
        ensures m.data[4 * p + 2] == e.data[p] && m.data[4 * p + 3] == e.data[p]
      {
        assert (4 * p) / 4 == p && (4 * p + 1) / 4 == p;
        assert (4 * p + 2) / 4 == p && (4 * p + 3) / 4 == p;
      }
    }
  }

  /** Grayscale dispatch: one call, chosen by the channel count alone, and a
      matrix with any other channel count passes through unchanged. */
  lemma GrayscaleDispatch(lib: CvLib, m: Mat)
    ensures Grayscale(lib, m).calls ==
      if m.channels == 4 then [CvtColor(RgbaToGray)]
      else if m.channels == 3 then [CvtColor(BgrToGray)]
      else [CloneMat]
    ensures m.channels != 3 && m.channels != 4 ==> Grayscale(lib, m).result == Some(m)
  {
  }

  /** Both detectors reject an empty matrix before calling OpenCV. */
  lemma EmptyInputRejected(lib: CvLib, m: Mat, low: real, high: real, k: int)
    requires Empty(m)
    ensures ApplyCanny(lib, m, low, high, k) == Run(None, [])
    ensures ApplySobel(lib, m, k) == Run(None, [])
  {
  }

  /** Every call Canny's path makes has the caller's thresholds, aperture 3
      and the L1 gradient, and every blur uses the caller's kernel and sigma
      1.4; a result comes with the full sequence: the grayscale step, the
      blur, Canny. */
  lemma CannyCallArguments(lib: CvLib, m: Mat, low: real, high: real, k: int)
    ensures var run := ApplyCanny(lib, m, low, high, k);
      |run.calls| <= 3 &&
      (forall i :: 0 <= i < |run.calls| && run.calls[i].Canny? ==> run.calls[i] == Canny(low, high, 3, false)) &&
      (forall i :: 0 <= i < |run.calls| && run.calls[i].GaussianBlur? ==> run.calls[i] == GaussianBlur(k, 1.4)) &&
      (run.result.Some? ==>
        |run.calls| == 3 && run.calls[0] == Grayscale(lib, m).calls[0] &&
        run.calls[1] == GaussianBlur(k, 1.4) && run.calls[2] == Canny(low, high, 3, false))
  {
  }

  /** Sobel's blur is 3x3 with sigma 0 whatever `kernelSize` is; the two
      derivative calls are first in x, then in y, both with `kernelSize`; a
      result comes with the full chain from the grayscale step on. */
  lemma SobelCallArguments(lib: CvLib, m: Mat, k: int)
    ensures var run := ApplySobel(lib, m, k);
      (forall i :: 0 <= i < |run.calls| && run.calls[i].GaussianBlur? ==> run.calls[i] == GaussianBlur(3, 0.0)) &&
      (forall i :: 0 <= i < |run.calls| && run.calls[i].Sobel? ==>
        run.calls[i] == Sobel(1, 0, k) || run.calls[i] == Sobel(0, 1, k)) &&
      (run.result.Some? ==>
        run.calls == Grayscale(lib, m).calls + [GaussianBlur(3, 0.0), Sobel(1, 0, k), Sobel(0, 1, k), Magnitude, ConvertTo8U])
  {
  }

  /** The RGBA frame of a well-shaped library: when it exists it is a
      continuous `height` by `width` four-channel frame of exactly
      `width * height * 4` bytes; its blur was 3x3 with sigma 1.4 and its
      Canny call used thresholds 50 and 150. */
  lemma EdgeFrameShape(lib: CvLib, width: nat, height: nat, pixels: seq<Byte>)
    requires KeepsShape(lib)
    ensures var run := EdgeFrame(lib, width, height, pixels);
      (width == 0 || height == 0 ==> run == Run(None, [])) &&
      (forall i :: 0 <= i < |run.calls| && run.calls[i].Canny? ==> run.calls[i] == Canny(50.0, 150.0, 3, false)) &&
      (forall i :: 0 <= i < |run.calls| && run.calls[i].GaussianBlur? ==> run.calls[i] == GaussianBlur(3, 1.4)) &&
      (run.result.Some? ==>
        var m := run.result.value;
        m.rows == height && m.cols == width && m.channels == 4 && m.step == width * 4 &&
        |m.data| == width * height * 4)
  {
    var input := Mat(height, width, 4, width * 4, pixels);
    CannyCallArguments(lib, input, 50.0, 150.0, 3);
    var edges := ApplyCanny(lib, input, 50.0, 150.0, 3);
    if edges.result.Some? {
      var gray := Grayscale(lib, input).result.value;
      var blurred := lib.gaussianBlur(gray, 3, 1.4).value;
      assert edges.result == lib.canny(blurred, 50.0, 150.0, 3, false);
      var e := edges.result.value;
      assert |e.data| == height * width;
    }
  }

  /** Row `i` of a `height`-row copy fits both buffers, and the offsets of
      row `i + 1` are one row length and one stride further on. */
  lemma RowFits(i: nat, height: nat, step: nat, rowLen: nat, srcLen: nat)
    requires i < height && (height - 1) * step + rowLen <= srcLen
    ensures (i + 1) * rowLen <= height * rowLen && i * step + rowLen <= srcLen
    ensures (i + 1) * rowLen == i * rowLen + rowLen && (i + 1) * step == i * step + step
  {
    MulLeftMonotone(i + 1, height, rowLen);
    MulLeftMonotone(i, height - 1, step);
  }

  /** The row-by-row copy of `i + 1` rows is that of `i` rows followed by
      row `i`. */
  lemma PackedStep(src: seq<Byte>, step: nat, rowLen: nat, i: nat)
    requires i * step + rowLen <= |src|
    ensures i == 0 || (i - 1) * step + rowLen <= |src|
    ensures Packed(src, step, rowLen, i + 1) == Packed(src, step, rowLen, i) + src[i * step..i * step + rowLen]
  {
    MulLeftMonotone(i - 1, i, step);
  }

  /** One `memcpy` of `count` bytes from `src` at `from` to `out` at `to`. */
  method CopyBytes(src: seq<Byte>, from: nat, out: array<Byte>, to: nat, count: nat)
    requires from + count <= |src| && to + count <= out.Length
    modifies out
    ensures out[..to + count] == old(out[..to]) + src[from..from + count]
    ensures forall k :: to + count <= k < out.Length ==> out[k] == old(out[k])
  {
    forall k | 0 <= k < count {
      out[to + k] := src[from + k];
    }
  }

  /** The output copy: one `memcpy` of `width * height * 4` bytes from a
      continuous matrix, otherwise one `memcpy` of `width * 4` bytes per row
      from `ptr(i)`, row `i` landing at offset `i * width * 4`. */
  method CopyOut(m: Mat, out: array<Byte>, width: nat, height: nat)
    requires width * height * 4 <= out.Length
    requires Continuous(m) ==> width * height * 4 <= |m.data|
    requires height == 0 || (height - 1) * m.step + width * 4 <= |m.data|
    modifies out
    ensures Continuous(m) ==> out[..width * height * 4] == m.data[..width * height * 4]
    ensures !Continuous(m) ==> out[..width * height * 4] == Packed(m.data, m.step, width * 4, height)
    ensures forall k :: width * height * 4 <= k < out.Length ==> out[k] == old(out[k])
  {
    var total := width * height * 4;
    if Continuous(m) {
      CopyBytes(m.data, 0, out, 0, total);
      return;
    }
    assert height * (width * 4) == total;
    CopyRows(m.data, m.step, out, width * 4, height);
  }

  /** The row loop of the output copy, for a matrix with stride `step`. */
  method CopyRows(data: seq<Byte>, step: nat, out: array<Byte>, rowLen: nat, height: nat)
    requires height * rowLen <= out.Length
    requires height == 0 || (height - 1) * step + rowLen <= |data|
    modifies out
    ensures out[..height * rowLen] == Packed(data, step, rowLen, height)
    ensures forall k :: height * rowLen <= k < out.Length ==> out[k] == old(out[k])
  {
    var i, dst, src := 0, 0, 0;
    while i < height
      invariant 0 <= i <= height
      invariant dst == i * rowLen && src == i * step
      invariant dst <= height * rowLen
      invariant out[..dst] == Packed(data, step, rowLen, i)
      invariant forall k :: height * rowLen <= k < out.Length ==> out[k] == old(out[k])
    {
      RowFits(i, height, step, rowLen, |data|);
      PackedStep(data, step, rowLen, i);
      CopyBytes(data, src, out, dst, rowLen);
      i, dst, src := i + 1, dst + rowLen, src + step;
    }
  }

  /** `processFrame`: false for a null pointer or, because the matrix
      constructor rejects them, negative dimensions; false when Canny's path
      or the conversion to RGBA fails; otherwise the RGBA edge frame is
      copied to the first `width * height * 4` bytes of `outputData`.
      Nothing is written unless the result is true. */
  method ProcessFrame(lib: CvLib, inputData: array?<Byte>, width: int, height: int, outputData: array?<Byte>)
    returns (ok: bool)
    requires KeepsShape(lib)
    requires inputData != null && width >= 0 && height >= 0 ==> width * height * 4 <= inputData.Length
    requires outputData != null && width >= 0 && height >= 0 ==> width * height * 4 <= outputData.Length
    modifies outputData
    ensures ok <==>
      inputData != null && outputData != null && width >= 0 && height >= 0 &&
      EdgeFrame(lib, width, height, old(inputData[..width * height * 4])).result.Some?
    ensures ok ==>
      outputData[..width * height * 4] == EdgeFrame(lib, width, height, old(inputData[..width * height * 4])).result.value.data &&
      outputData[width * height * 4..] == old(outputData[width * height * 4..])
    ensures !ok && outputData != null ==> outputData[..] == old(outputData[..])
  {
    if inputData == null || outputData == null {
      return false;
    }
    if width < 0 || height < 0 {
      return false;
    }
    var pixels := inputData[..width * height * 4];
    var run := EdgeFrame(lib, width, height, pixels);
    if run.result.None? {
      return false;
    }
    EdgeFrameShape(lib, width, height, pixels);
    var outputMat := run.result.value;
    assert Continuous(outputMat);
    if height > 0 {
      MulLeftMonotone(height - 1, height, width * 4);
      assert (height - 1) * (width * 4) + width * 4 == width * height * 4;
    }
    CopyOut(outputMat, outputData, width, height);
    assert outputMat.data[..width * height * 4] == outputMat.data;
    return true;
  }
}
