/** The native side of the JNI bridge (jni_bridge.cpp): frame processing
    behind the Java byte arrays and the frame-rate statistics kept in three
    static globals. Clock readings are parameters, in whole milliseconds. */
module JniBridge {
  import opened Common
  import DecimalText
  import EdgeDetection

  /** A `double` frame rate: `30000.0 / 0` is IEEE positive infinity,
      every other quotient a finite value. */
  datatype Fps = Finite(value: real) | Infinite

  /** The frame rate over a window of 30 frames that took `elapsedMs`. */
  function Rate(elapsedMs: int): Fps
  {
    if elapsedMs == 0 then Infinite else Finite(30000.0 / elapsedMs as real)
  }

  /** The globals `frameCount`, `averageFps` and `lastFrameTime`. */
  datatype Counters = Counters(frameCount: nat, averageFps: Fps, lastFrameTime: int)

  /** The statistics update after a frame processed successfully, finished
      at `now`: the count rises by one, and every 30th frame takes a frame
      rate sample over the time since the previous sample and restarts the
      window. */
  function AfterSuccess(c: Counters, now: int): Counters
  {
    var n := c.frameCount + 1;
    if n % 30 == 0 then Counters(n, Rate(now - c.lastFrameTime), now)
    else c.(frameCount := n)
  }

  /** A success always counts one frame; the frame rate and the clock change
      only on a frame whose new count is a multiple of 30, and then the
      clock moves to `now`. */
  lemma AfterSuccessSamplesOnlyEvery30(c: Counters, now: int)
    ensures var d := AfterSuccess(c, now);
      d.frameCount == c.frameCount + 1 &&
      (d.averageFps != c.averageFps || d.lastFrameTime != c.lastFrameTime ==> d.frameCount % 30 == 0) &&
      (d.frameCount % 30 == 0 ==> d.lastFrameTime == now && d.averageFps == Rate(now - c.lastFrameTime))
  {
  }

  /** The counters after frames that succeeded, finishing at the times `ts`. */
  function AfterFrames(c: Counters, ts: seq<int>): Counters
  {
    if ts == [] then c else AfterSuccess(AfterFrames(c, ts[..|ts| - 1]), ts[|ts| - 1])
  }

  /** The number of frames in the completed windows of 30 among `n` frames. */
  function Sampled(n: nat): nat
  {
    30 * (n / 30)
  }

  lemma SampledStep(n: nat)
    requires n > 0
    ensures (n % 30 == 0) ==> Sampled(n) == n && Sampled(n - 1) == n - 30
    ensures (n % 30 != 0) ==> Sampled(n) == Sampled(n - 1)
  {
  }

  /** Starting from a zero count, after the frames that finished at `ts`:
      the count is the number of frames; no sample has been taken before
      the 30th frame; afterwards the sample and the clock belong to the
      last completed window, whose start is the previous window's last frame
      or, for the first window, the clock the counters started with. */
  lemma {:induction false} AfterFramesSamples(c: Counters, ts: seq<int>)
    requires c.frameCount == 0
    ensures var d, s := AfterFrames(c, ts), Sampled(|ts|);
      d.frameCount == |ts| &&
      (s == 0 ==> d.averageFps == c.averageFps && d.lastFrameTime == c.lastFrameTime) &&
      (s > 0 ==>
        30 <= s <= |ts| && d.lastFrameTime == ts[s - 1] &&
        d.averageFps == Rate(ts[s - 1] - (if s == 30 then c.lastFrameTime else ts[s - 31])))
  {
    if ts != [] {
      var n := |ts|;
      var prefix := ts[..n - 1];
      AfterFramesSamples(c, prefix);
      SampledStep(n);
      var s := Sampled(n - 1);
      if s > 30 {
        assert prefix[s - 31] == ts[s - 31];
      }
      if s > 0 {
        assert prefix[s - 1] == ts[s - 1];
      }
    }
  }

  /** `cleanup` leaves the clock alone, so the first sample after it measures
      from the last sample (or initialisation) before it, not from the
      cleanup. */
  lemma CleanupKeepsClock(before: Counters, ts: seq<int>)
    requires |ts| == 30
    ensures var d := AfterFrames(Counters(0, Finite(0.0), before.lastFrameTime), ts);
      d.frameCount == 30 && d.averageFps == Rate(ts[29] - before.lastFrameTime) && d.lastFrameTime == ts[29]
  {
    AfterFramesSamples(Counters(0, Finite(0.0), before.lastFrameTime), ts);
  }

  /** The text of `getPerformanceStats`; `fpsText` is `std::to_string` on a
      `double`, which this model does not spell out. */
  function StatsText(c: Counters, fpsText: Fps -> string): string
  {
    "Frames: " + DecimalText.NatToString(c.frameCount) + ", FPS: " + fpsText(c.averageFps)
  }

  /** The frame count can be read back from the statistics text: after the
      label come the digits of the count, ended by the comma. */
  lemma StatsTextFrames(c: Counters, fpsText: Fps -> string)
    ensures var s := StatsText(c, fpsText);
      |s| > 8 && s[..8] == "Frames: " &&
      DecimalText.AllDigits(DecimalText.LeadingDigits(s[8..])) &&
      DecimalText.ParseDigits(DecimalText.LeadingDigits(s[8..])) == c.frameCount
  {
    var digits := DecimalText.NatToString(c.frameCount);
    var rest := ", FPS: " + fpsText(c.averageFps);
    var s := StatsText(c, fpsText);
    DecimalText.NatToStringRoundTrip(c.frameCount);
    assert s == "Frames: " + (digits + rest);
    assert s[8..] == digits + rest;
    DecimalText.LeadingDigitsOfDigitsThen(digits, rest);
  }

  /** The three globals, and the JNI functions that use them. */
  class NativeBridge {
    var frameCount: nat
    var averageFps: Fps
    var lastFrameTime: int

    function State(): Counters
      reads this
    {
      Counters(frameCount, averageFps, lastFrameTime)
    }

    /** Static initialisation: zero counters, the clock at its epoch. */
    constructor ()
      ensures State() == Counters(0, Finite(0.0), 0)
    {
      frameCount, averageFps, lastFrameTime := 0, Finite(0.0), 0;
    }

    /** `nativeInit`: zero the counters and start the clock at `now`. */
    method NativeInit(now: int) returns (ok: bool)
      modifies this
      ensures ok && State() == Counters(0, Finite(0.0), now)
    {
      frameCount, averageFps, lastFrameTime := 0, Finite(0.0), now;
      return true;
    }

    /** `cleanup`: zero the count and the frame rate; the clock stays. */
    method Cleanup()
      modifies this
      ensures State() == Counters(0, Finite(0.0), old(lastFrameTime))
    {
      frameCount, averageFps := 0, Finite(0.0);
    }

    /** `getPerformanceStats`, a pure read of the counters. */
    function PerformanceStats(fpsText: Fps -> string): string
      reads this
    {
      StatsText(State(), fpsText)
    }

    /** `processFrame`: null for a null input or one whose length is not
      `width * height * 4`, and null when the native pipeline fails; the
      counters change only on success, where the result is a new array as
      long as the input holding the RGBA edge frame and the frame finished
      at `now` is counted. */
    method ProcessFrame(lib: EdgeDetection.CvLib, input: array?<Byte>, width: int, height: int, now: int)
      returns (output: array?<Byte>)
      requires EdgeDetection.KeepsShape(lib)
      modifies this
      ensures output != null <==>
        input != null && input.Length == width * height * 4 && width >= 0 && height >= 0 &&
        EdgeDetection.EdgeFrame(lib, width, height, input[..]).result.Some?
      ensures output != null ==>
        fresh(output) && output.Length == input.Length &&
        output[..] == EdgeDetection.EdgeFrame(lib, width, height, input[..]).result.value.data &&
        State() == AfterSuccess(old(State()), now)
      ensures output == null ==> State() == old(State())
    {
      if input == null {
        return null;
      }
      var inputLength := input.Length;
      if inputLength != width * height * 4 {
        return null;
      }
      var out := new Byte[inputLength];
      assert input[..width * height * 4] == input[..];
      var success := EdgeDetection.ProcessFrame(lib, input, width, height, out);
      if !success {
        return null;
      }
      assert out[..] == out[..width * height * 4];
      frameCount := frameCount + 1;
      if frameCount % 30 == 0 {
        averageFps := Rate(now - lastFrameTime);
        lastFrameTime := now;
      }
      return out;
    }
  }
}
