# EdgeDetectionViewer core in Dafny

EdgeDetectionViewer is an Android app. It captures camera frames with
Camera2 and converts each YUV_420_888 frame to RGBA in Java. It passes the
RGBA bytes over JNI to a native OpenCV Canny pipeline, and displays the
result through an OpenGL ES texture. This project models the parts of that
code that can be stated precisely, and proves their properties:

- `CameraSelection` (camera_selection.dfy) covers camera and preview-size
  selection in `CameraRenderer`. The model includes the stable area sort and
  the three-tier preference, plus the back-facing camera choice.
- `YuvConversion` (yuv_conversion.dfy) covers the frame conversion in
  `CameraRenderer`. It models the NV21 interleaving of the planes and the
  fixed-point YUV to RGBA loop, which works in place on the output array.
- `EdgeDetection` (edge_detection.dfy) covers the native pipeline of
  edge_detection.cpp. The model includes the grayscale dispatch, the
  parameters of Canny and Sobel, the replication of the edge map into four
  channels, and the copy to the output buffer. The OpenCV operators are
  abstract functions; `None` means the operator threw.
- `JniBridge` (jni_bridge.dfy) covers the JNI `processFrame` validation, and
  also the frame-rate statistics kept in three globals. It models
  `nativeInit`, `cleanup` and `getPerformanceStats`.
- `GLTexture` (gl_texture_renderer.dfy) covers the bookkeeping of
  `GLTextureRenderer`: the GL handles, the texture dimensions and the
  once-per-second frame-rate meter. GL calls are returned as values.
- `DecimalText` (decimal_text.dfy) gives the decimal text of `std::to_string`
  for a count. `Common` (common.dfy) holds the byte type, `Option` and a few
  arithmetic facts.

Stateful code is imperative Dafny. The JNI globals and the renderer's fields
are classes, and the conversion, the interleave and the output copy are
loops over arrays. Each is proved against a specification function, and the
properties are proved about those functions.

The spec functions these contracts refer to:

- `ToRgba` is the image the conversion loop must produce, and `YuvPixel`
  is the fixed-point conversion of one pixel in it.
- `ReadsInRange` says when every read of the conversion is in the buffer.
- `Nv21` is the interleaved buffer.
- `SortByArea` and `PreferredSize` define the size choice. `FirstMatch` is
  the scan over the sorted list, and `BestIn` is the reference it is
  compared with: the earliest size of least area that passes a test.
- `EdgeFrame`, `ApplyCanny`, `ApplySobel`, `Grayscale` and `EdgeToRgba`
  define the native pipeline. `Packed` is what the row-by-row copy writes.
- `AfterSuccess` and `AfterFrames` update the JNI statistics. `StatsText`
  is the text of `getPerformanceStats`, and `NatToString` the decimal text
  of the count in it.
- `Tick` and `Ticks` run the renderer's meter.
- `CleanupCalls` lists the deletions `cleanup` issues.

All paths below are under `app/src/main/`:

- CameraRenderer.java is `java/com/example/edgedetectionviewer/CameraRenderer.java`.
- GLTextureRenderer.java is `java/com/example/edgedetectionviewer/GLTextureRenderer.java`.
- The native files are under `cpp/`.

## Model

| member | source | states |
|---|---|---|
| CameraSelection.SortByAreaIsSortedPermutation | app/src/main/java/com/example/edgedetectionviewer/CameraRenderer.java:231-237 | the area sort yields a sequence ordered by area (width times height) that is a permutation of the choices |
| CameraSelection.InsertKeepsElements | app/src/main/java/com/example/edgedetectionviewer/CameraRenderer.java:231-237 | one insertion step of the sort adds exactly the new element to the multiset |
| CameraSelection.InsertKeepsOrder | app/src/main/java/com/example/edgedetectionviewer/CameraRenderer.java:231-237 | inserting into an area-ordered sequence keeps it ordered and one longer |
| CameraSelection.FirstMatchIsElement | app/src/main/java/com/example/edgedetectionviewer/CameraRenderer.java:240-255 | a size returned by one of the scans is one of the choices and passes that scan's test |
| CameraSelection.FirstMatchInsert | app/src/main/java/com/example/edgedetectionviewer/CameraRenderer.java:231-255 | scanning after an insertion finds the inserted size exactly when it passes and its area is at most that of the previous find; otherwise the previous find |
| CameraSelection.FirstMatchOfSortedIsBest | app/src/main/java/com/example/edgedetectionviewer/CameraRenderer.java:231-255 | scanning the list `SortByArea` produces (tied sizes kept in input order) finds the same size as the `BestIn` reference on the unsorted list: the earliest size of least area that passes the test |
| CameraSelection.BestInIsLeastEarliest | app/src/main/java/com/example/edgedetectionviewer/CameraRenderer.java:240-255 | nothing is found exactly when no choice passes; a found size passes, no passing choice has a smaller area, and it is the earliest passing choice of its area (a stable sort keeps ties in input order) |
| CameraSelection.PreferredSizeMeaning | app/src/main/java/com/example/edgedetectionviewer/CameraRenderer.java:240-258 | no size is chosen only for an empty list. The first preference is the smallest size within 640x480..1920x1080. If none fits, it is the smallest within 1920x1080. Failing that, it is the smallest of all |
| CameraSelection.ChooseOptimalSize | app/src/main/java/com/example/edgedetectionviewer/CameraRenderer.java:226-259 | the array is left sorted by area (the list view sorts the array in place), and the result is the preferred size of the original choices |
| CameraSelection.GetBestCameraId | app/src/main/java/com/example/edgedetectionviewer/CameraRenderer.java:195-221 | null when the camera list is empty or a `CameraAccessException` is caught, both from reading the list and from querying a camera the loop reaches before any back-facing one (`cameras` is then `None`; a camera after the first back-facing one is never queried, so its entry does not matter); otherwise the id of the first back-facing camera, or the first id when no camera faces back |
| YuvConversion.ConvertYuv420ToRgba | app/src/main/java/com/example/edgedetectionviewer/CameraRenderer.java:343-373 | afterwards the RGBA array is exactly `ToRgba` of the NV21 bytes: pixel `(i, j)` holds the fixed-point conversion of its luma and of the V/U pair of its 2x2 block |
| YuvConversion.ConvertRow | app/src/main/java/com/example/edgedetectionviewer/CameraRenderer.java:347-371 | one row, with the chroma cursor read on even columns only: the output agrees with `ToRgba` up to the end of the row |
| YuvConversion.ConvertPixel | app/src/main/java/com/example/edgedetectionviewer/CameraRenderer.java:349-370 | writing one pixel extends the agreement with `ToRgba` by four bytes |
| YuvConversion.FormulaPixel | app/src/main/java/com/example/edgedetectionviewer/CameraRenderer.java:349-370 | the steps of `convertYUV420ToRGBA` (luma offset clamped at 0, the 1192/1634/833/400/2066 sums, the clamp to 262143, `>> 10` and `& 0xff`, alpha 255) compute `YuvPixel` |
| YuvConversion.StorePixel | app/src/main/java/com/example/edgedetectionviewer/CameraRenderer.java:366-370 | the four bytes at `4 * yp` become R, G, B, A; nothing else changes |
| YuvConversion.PixelReadsInRange | app/src/main/java/com/example/edgedetectionviewer/CameraRenderer.java:349-354 | under `ReadsInRange` every luma read and both chroma reads of every pixel are inside the buffer |
| YuvConversion.LastReadDecides | app/src/main/java/com/example/edgedetectionviewer/CameraRenderer.java:346-355 | `ReadsInRange` is exact: it holds if and only if the last chroma read (U of the last even column of the last row) is in the buffer |
| YuvConversion.PixelLayout | app/src/main/java/com/example/edgedetectionviewer/CameraRenderer.java:346-371 | pixel `(i, j)` of `ToRgba` sits at bytes `4 * (j * w + i)` and is computed from `yuv[j * w + i]` and its chroma pair |
| YuvConversion.ChromaShared | app/src/main/java/com/example/edgedetectionviewer/CameraRenderer.java:347-355 | the four pixels of a 2x2 block share one V/U pair at `w * h + m * w + 2 * k` |
| YuvConversion.AlphaIsOpaque | app/src/main/java/com/example/edgedetectionviewer/CameraRenderer.java:370 | every alpha byte is 255 |
| YuvConversion.ChannelNeverTruncates | app/src/main/java/com/example/edgedetectionviewer/CameraRenderer.java:362-369 | after the clamp, `>> 10` is at most 255, so the `& 0xff` mask never changes a value |
| YuvConversion.NeutralChromaIsGrey | app/src/main/java/com/example/edgedetectionviewer/CameraRenderer.java:357-369 | with neutral chroma (128, 128) the three colour channels are equal |
| YuvConversion.AllZeroIsGreen | app/src/main/java/com/example/edgedetectionviewer/CameraRenderer.java:349-370 | an all-zero input pixel becomes (0, 154, 0, 255) |
| YuvConversion.VideoBlackIsBlack | app/src/main/java/com/example/edgedetectionviewer/CameraRenderer.java:349-370 | video black (Y 16, chroma 128) becomes opaque black |
| YuvConversion.Nv21Layout | app/src/main/java/com/example/edgedetectionviewer/CameraRenderer.java:315-328 | the NV21 buffer has the lengths of the three planes added together. It starts with Y, then holds V/U pairs for each U sample, then zeros |
| YuvConversion.Nv21Determined | app/src/main/java/com/example/edgedetectionviewer/CameraRenderer.java:315-328 | any buffer with that layout is `Nv21` of the planes |
| YuvConversion.InterleaveNv21 | app/src/main/java/com/example/edgedetectionviewer/CameraRenderer.java:311-328 | fails exactly when the V plane is shorter than the U plane (the read past its end throws); otherwise a fresh array holding `Nv21` of the planes |
| YuvConversion.ConvertYuvToRgb | app/src/main/java/com/example/edgedetectionviewer/CameraRenderer.java:305-338 | fails exactly when the interleave throws or the conversion would read past the NV21 buffer; otherwise a fresh `width * height * 4` array holding `ToRgba` of the NV21 bytes |
| EdgeDetection.EmptyInputRejected | app/src/main/cpp/edge_detection.cpp:31-34 | both detectors fail on an empty matrix without calling OpenCV |
| EdgeDetection.GrayscaleDispatch | app/src/main/cpp/edge_detection.cpp:39-45 | four channels are converted RGBA to gray and three BGR to gray; any other count is cloned unchanged |
| EdgeDetection.CannyCallArguments | app/src/main/cpp/edge_detection.cpp:27-64 | every blur uses the caller's kernel size and sigma 1.4, and every Canny call uses the caller's thresholds, aperture 3 and the L1 gradient. A result needs exactly three calls: the grayscale step for the channel count, the blur, Canny |
| EdgeDetection.SobelCallArguments | app/src/main/cpp/edge_detection.cpp:73-117 | the blur is 3x3 with sigma 0 whatever the kernel size. The derivatives come first in x, then in y, both with the kernel size. A result needs the full chain: the grayscale step, the blur, both derivatives, magnitude and the 8-bit conversion |
| EdgeDetection.EdgeToRgbaChannels | app/src/main/cpp/edge_detection.cpp:125-148 | fails exactly for an empty edge map. Otherwise the result is a continuous 4-channel matrix of the same size, and every channel of every pixel, alpha included, is the edge value |
| EdgeDetection.EdgeFrameShape | app/src/main/cpp/edge_detection.cpp:158-180 | the frame pipeline blurs only 3x3 with sigma 1.4 and calls Canny only with 50/150, aperture 3 and the L1 gradient. A zero-sized frame fails, and a result is a `height` by `width` RGBA frame of `width * height * 4` bytes |
| EdgeDetection.PackedContinuous | app/src/main/cpp/edge_detection.cpp:183-192 | for a continuous matrix the row-by-row copy and the single `memcpy` write the same bytes |
| EdgeDetection.CopyBytes | app/src/main/cpp/edge_detection.cpp:184-190 | one `memcpy` of `count` bytes: `out[..to + count]` is the old `out[..to]` followed by `src[from..from + count]`, and every byte after the copied span keeps its old value |
| EdgeDetection.CopyRows | app/src/main/cpp/edge_detection.cpp:187-191 | the row loop for a non-continuous matrix: `out[..height * rowLen] == Packed(data, step, rowLen, height)`, so row `i` lands at `i * rowLen` from offset `i * step` of the matrix; the rest of `out` is unchanged |
| EdgeDetection.CopyOut | app/src/main/cpp/edge_detection.cpp:183-192 | a continuous matrix is copied as one block, otherwise row by row at the matrix stride; bytes after the frame are untouched |
| EdgeDetection.ProcessFrame | app/src/main/cpp/edge_detection.cpp:158-203 | the call succeeds exactly when both pointers are non-null, the dimensions are not negative and the Canny/RGBA pipeline succeeds. On success the output holds the RGBA edge frame; on failure it is unchanged |
| JniBridge.AfterSuccessSamplesOnlyEvery30 | app/src/main/cpp/jni_bridge.cpp:150-160 | a success counts one frame, and the frame rate and clock change only when the new count is a multiple of 30. The rate is then 30000 over the milliseconds since the last sample, and the clock moves to now |
| JniBridge.AfterFramesSamples | app/src/main/cpp/jni_bridge.cpp:150-160 | over any run of successes from a zero count, the count is the number of frames. With no full window nothing is sampled; otherwise the sample and the clock belong to the last complete window of 30 frames |
| JniBridge.CleanupKeepsClock | app/src/main/cpp/jni_bridge.cpp:340-356 | after `cleanup`, the first sample is measured from the clock before the cleanup |
| JniBridge.StatsTextFrames | app/src/main/cpp/jni_bridge.cpp:319-333 | the statistics text starts with `Frames: `, and the digits that follow read back as the frame count |
| JniBridge.NativeBridge.constructor | app/src/main/cpp/jni_bridge.cpp:19-21 | the globals start at zero count, zero rate and the clock's epoch |
| JniBridge.NativeBridge.NativeInit | app/src/main/cpp/jni_bridge.cpp:57-77 | succeeds, zeroes count and rate, and starts the clock at now |
| JniBridge.NativeBridge.Cleanup | app/src/main/cpp/jni_bridge.cpp:340-356 | zeroes count and rate and keeps the clock |
| JniBridge.NativeBridge.ProcessFrame | app/src/main/cpp/jni_bridge.cpp:88-171 | null for a null input, a length other than `width * height * 4`, or a pipeline failure, and then the counters are unchanged. Otherwise the result is a fresh array as long as the input holding the RGBA edge frame, and the counters take one success step |
| DecimalText.NatToStringRoundTrip | app/src/main/cpp/jni_bridge.cpp:324 | the decimal text of a count has only digits and no leading zero, and reads back as the count |
| DecimalText.NatToStringInjective | app/src/main/cpp/jni_bridge.cpp:324 | different counts have different texts |
| DecimalText.LeadingDigitsOfDigitsThen | app/src/main/cpp/jni_bridge.cpp:324-325 | the digits of the count are recovered up to the following comma |
| GLTexture.TickEffect | app/src/main/java/com/example/edgedetectionviewer/GLTextureRenderer.java:350-367 | one call counts the frame, or closes the window and restarts the count. The clock moves only to now, and the rate changes only when a window closes, to a positive value. A window closes exactly when the clock had started and a second or more has passed |
| GLTexture.WithinWindow | app/src/main/java/com/example/edgedetectionviewer/GLTextureRenderer.java:359-364 | frames less than a second after the window opened are only counted |
| GLTexture.WindowCloses | app/src/main/java/com/example/edgedetectionviewer/GLTextureRenderer.java:359-364 | the first frame a second or more after the window opened sets the rate to all frames of the window times 1000 over the elapsed milliseconds, and opens an empty window at its time |
| GLTexture.FirstWindow | app/src/main/java/com/example/edgedetectionviewer/GLTextureRenderer.java:350-364 | the first frame only starts the clock, and that frame is counted in the first window's rate |
| GLTexture.TicksAppend | app/src/main/java/com/example/edgedetectionviewer/GLTextureRenderer.java:350-367 | running the meter through two runs of frames is running it through their concatenation |
| GLTexture.CleanupCallsDeleteLive | app/src/main/java/com/example/edgedetectionviewer/GLTextureRenderer.java:390-408 | cleanup deletes each existing object once and nothing else, with both buffers in one call. With no objects left it issues nothing, so a second cleanup issues no deletes |
| GLTexture.GLTextureRenderer.constructor | app/src/main/java/com/example/edgedetectionviewer/GLTextureRenderer.java:58-88 | a new renderer has no GL objects, a 640x480 texture size and a meter that has seen no frame |
| GLTexture.GLTextureRenderer.OnSurfaceCreated | app/src/main/java/com/example/edgedetectionviewer/GLTextureRenderer.java:116-142 | records the texture and buffers GL created, and a program id of 0 when linking failed |
| GLTexture.GLTextureRenderer.UpdateTexture | app/src/main/java/com/example/edgedetectionviewer/GLTextureRenderer.java:313-337 | with no texture or no pixels it does nothing. Otherwise the texture takes the call's dimensions and the pixels are bound and uploaded; the handles and the meter are unchanged |
| GLTexture.GLTextureRenderer.CalculateFps | app/src/main/java/com/example/edgedetectionviewer/GLTextureRenderer.java:350-367 | the meter takes one `Tick` at the clock reading; nothing else changes |
| GLTexture.GLTextureRenderer.Cleanup | app/src/main/java/com/example/edgedetectionviewer/GLTextureRenderer.java:390-408 | issues `CleanupCalls` of the old handles and zeroes all four handles |

## Left out

- Camera2 sessions, the capture threads and the `ImageReader` dropping frames (`acquireLatestImage`, two buffers) are platform concurrency, outside the repository's code.
- CameraSelection.ChooseOptimalSize: `validSizes.get(0)` throws on an empty array; the model returns `None` there.
- `processImageFrame` catches the exception of a short buffer and reports it through `onError`. The model returns `null` from the conversion instead and does not model the callbacks.
- The plane buffers are read as whole sequences. `ByteBuffer.remaining()` and positions, row and pixel strides of the planes, and padding are not modelled; the code ignores strides too.
- YuvConversion.ConvertYuv420ToRgba: takes the NV21 bytes as a value (`seq`), not as a Java array, because the buffer is only read. Aliasing between the input and the output is not modelled.
- Java `int` overflow of `width * height * 4`, of the JNI length check and of the frame counters is not modelled: integers are unbounded.
- Times are whole milliseconds supplied by the caller. The high-resolution clock, its truncation to milliseconds in `duration_cast`, and `System.currentTimeMillis` are not modelled.
- JniBridge.StatsText: the text of the frame rate (`std::to_string` of a `double`) is a parameter; only the frame count part is spelled out. Floating point is modelled as exact reals, with `30000.0 / 0` as infinity.
- GLTexture.Tick: `currentFPS` is a Java `float`; the model uses exact reals.
- JNI pinning (`GetByteArrayElements`, `ReleaseByteArrayElements`) and its failure returns are not modelled. `NewByteArray` is allocation, which is assumed to succeed.
- EdgeDetection.ProcessFrame: negative dimensions fail. OpenCV rejects them with an exception, which `processFrame` catches; which OpenCV call throws is not modelled. OpenCV's operators are abstract, and `KeepsShape` only assumes the shape guarantees that OpenCV documents.
- The GL pass-through JNI functions, gl_renderer.cpp, shader compilation, draw calls, matrices and `checkGLError` exceptions are all GL work and are not modelled. `onDrawFrame` is modelled only through `calculateFPS`.
- `getCurrentFPS` and `captureFrame` are a field read and a log line.
- `updateParameters`, `updateProcessingParameters`, `getProcessingStats` and `resetProcessingStats` are only declared, with no definition in the repository, so there is no behaviour to model.
- MainActivity.java, EdgeDetectionJNI.java and the UI are not part of this model.

## Notes

- A frame of all-zero bytes converts to the green pixel (0, 154, 0, 255), not to black, because V and U of 0 are far from the neutral 128. The model follows the code, and `YuvConversion.AllZeroIsGreen` states the actual value. Video black (Y 16, chroma 128) is black; see `YuvConversion.VideoBlackIsBlack`.
- The native `cleanup` resets the count and the rate but not `lastFrameTime`. The first sample after a cleanup therefore spans the time since the last sample before it (`JniBridge.CleanupKeepsClock`).
