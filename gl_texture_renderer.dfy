/** The bookkeeping of the Java renderer (GLTextureRenderer.java): the GL
    object handles, the texture dimensions and the once-per-second frame
    rate meter. GL itself is abstract: the ids GL hands out are parameters,
    and the calls whose effect the renderer relies on are returned as
    `GlCall` values. */
module GLTexture {
  import opened Common

  const INITIAL_TEXTURE_WIDTH := 640
  const INITIAL_TEXTURE_HEIGHT := 480
  /** The window, in milliseconds, after which the frame rate is recomputed. */
  const FPS_WINDOW_MS := 1000

  /** A GL call the renderer issues. */
  datatype GlCall =
    | BindTexture(texture: int)
    | TexSubImage2D(width: int, height: int, pixels: seq<Byte>)
    | DeleteTextures(texture: int)
    | DeleteProgram(program: int)
    | DeleteBuffers(vertexBuffer: int, indexBuffer: int)

  /** The fields `frameCount`, `lastFrameTime` (0 until the first frame) and
      `currentFPS`. */
  datatype FpsMeter = FpsMeter(frameCount: nat, lastFrameTime: int, currentFps: real)

  /** `calculateFPS` at clock reading `now`: count the frame; the first call
      only starts the clock; once a second or more has passed since the
      window opened, the rate is the frames counted over the time elapsed,
      and a new window opens empty at `now`. */
  function Tick(m: FpsMeter, now: int): FpsMeter
  {
    var n := m.frameCount + 1;
    if m.lastFrameTime == 0 then FpsMeter(n, now, m.currentFps)
    else
      var delta := now - m.lastFrameTime;
      if delta >= FPS_WINDOW_MS then FpsMeter(0, now, (n as real * 1000.0) / delta as real)
      else FpsMeter(n, m.lastFrameTime, m.currentFps)
  }

  /** The meter after one frame at each of the clock readings `ts`. */
  function Ticks(m: FpsMeter, ts: seq<int>): FpsMeter
  {
    if ts == [] then m else Tick(Ticks(m, ts[..|ts| - 1]), ts[|ts| - 1])
  }

  /** A single call counts the frame, or closes the window and restarts the
      count; the clock only ever moves to `now`; the rate changes only when
      a window closes, and then it is positive. */
  lemma TickEffect(m: FpsMeter, now: int)
    ensures var t := Tick(m, now);
      (t.frameCount == m.frameCount + 1 || t.frameCount == 0) &&
      (t.lastFrameTime == m.lastFrameTime || t.lastFrameTime == now) &&
      (t.currentFps != m.currentFps ==> t.frameCount == 0 && t.currentFps > 0.0) &&
      (t.frameCount == 0 <==> m.lastFrameTime != 0 && now - m.lastFrameTime >= FPS_WINDOW_MS)
  {
  }

  /** Frames that arrive less than a second after the window opened at `t0`
      are only counted. */
  lemma {:induction false} WithinWindow(k: nat, t0: int, fps: real, ts: seq<int>)
    requires t0 != 0
    requires forall i :: 0 <= i < |ts| ==> ts[i] - t0 < FPS_WINDOW_MS
    ensures Ticks(FpsMeter(k, t0, fps), ts) == FpsMeter(k + |ts|, t0, fps)
  {
    if ts != [] {
      WithinWindow(k, t0, fps, ts[..|ts| - 1]);
    }
  }

  /** The first frame a second or more after the window opened at `t0`
      closes it: the rate is every frame of the window, the `k` already
      counted and the new ones, per second elapsed. */
  lemma WindowCloses(k: nat, t0: int, fps: real, ts: seq<int>)
    requires t0 != 0 && ts != []
    requires forall i :: 0 <= i < |ts| - 1 ==> ts[i] - t0 < FPS_WINDOW_MS
    requires ts[|ts| - 1] - t0 >= FPS_WINDOW_MS
    ensures Ticks(FpsMeter(k, t0, fps), ts) ==
      FpsMeter(0, ts[|ts| - 1], ((k + |ts|) as real * 1000.0) / (ts[|ts| - 1] - t0) as real)
  {
    WithinWindow(k, t0, fps, ts[..|ts| - 1]);
  }

  /** From the initial meter, the first frame (at a non-zero clock reading
      `t0`) starts the clock and is counted in the first window. */
  lemma FirstWindow(t0: int, ts: seq<int>)
    requires t0 != 0 && ts != []
    requires forall i :: 0 <= i < |ts| - 1 ==> ts[i] - t0 < FPS_WINDOW_MS
    requires ts[|ts| - 1] - t0 >= FPS_WINDOW_MS
    ensures Ticks(FpsMeter(0, 0, 0.0), [t0]) == FpsMeter(1, t0, 0.0)
    ensures Ticks(FpsMeter(0, 0, 0.0), [t0] + ts).currentFps ==
      ((1 + |ts|) as real * 1000.0) / (ts[|ts| - 1] - t0) as real
  {
    var start := FpsMeter(0, 0, 0.0);
    assert [t0][..0] == [];
    assert Ticks(start, [t0]) == FpsMeter(1, t0, 0.0);
    TicksAppend(start, [t0], ts);
    WindowCloses(1, t0, 0.0, ts);
  }

  /** Ticking through `a` and then `b` is ticking through `a + b`. */
  lemma {:induction false} TicksAppend(m: FpsMeter, a: seq<int>, b: seq<int>)
    ensures Ticks(m, a + b) == Ticks(Ticks(m, a), b)
  {
    if b == [] {
      assert a + b == a;
    } else {
      var last := |b| - 1;
      assert (a + b)[..|a + b| - 1] == a + b[..last];
      assert (a + b)[|a + b| - 1] == b[last];
      TicksAppend(m, a, b[..last]);
    }
  }

  /** The GL objects the renderer owns; 0 is no object. */
  datatype Handles = Handles(shaderProgram: int, textureId: int, vertexBuffer: int, indexBuffer: int)

  /** The deletions `cleanup` issues for the handles `h`. */
  function CleanupCalls(h: Handles): seq<GlCall>
  {
    (if h.textureId != 0 then [DeleteTextures(h.textureId)] else []) +
    (if h.shaderProgram != 0 then [DeleteProgram(h.shaderProgram)] else []) +
    (if h.vertexBuffer != 0 || h.indexBuffer != 0 then [DeleteBuffers(h.vertexBuffer, h.indexBuffer)] else [])
  }

  /** `cleanup` deletes each object that exists, once, and nothing else (the
      two buffers go together, in one call); with no object left it issues
      nothing. */
  lemma CleanupCallsDeleteLive(h: Handles)
    ensures CleanupCalls(h) == [] <==> h == Handles(0, 0, 0, 0)
    ensures DeleteTextures(h.textureId) in CleanupCalls(h) <==> h.textureId != 0
    ensures DeleteProgram(h.shaderProgram) in CleanupCalls(h) <==> h.shaderProgram != 0
    ensures DeleteBuffers(h.vertexBuffer, h.indexBuffer) in CleanupCalls(h) <==>
      h.vertexBuffer != 0 || h.indexBuffer != 0
    ensures forall c :: c in CleanupCalls(h) ==>
      c == DeleteTextures(h.textureId) || c == DeleteProgram(h.shaderProgram) ||
      c == DeleteBuffers(h.vertexBuffer, h.indexBuffer)
    ensures |CleanupCalls(h)| <= 3
  {
  }

  class GLTextureRenderer {
    var shaderProgram: int
    var textureId: int
    var vertexBuffer: int
    var indexBuffer: int
    var textureWidth: int
    var textureHeight: int
    var lastFrameTime: int
    var frameCount: nat
    var currentFps: real

    function GlHandles(): Handles
      reads this
    {
      Handles(shaderProgram, textureId, vertexBuffer, indexBuffer)
    }

    function Meter(): FpsMeter
      reads this
    {
      FpsMeter(frameCount, lastFrameTime, currentFps)
    }

    /** A new renderer: no GL objects yet, a 640x480 texture size and a
        meter that has seen no frame. */
    constructor ()
      ensures GlHandles() == Handles(0, 0, 0, 0)
      ensures textureWidth == INITIAL_TEXTURE_WIDTH && textureHeight == INITIAL_TEXTURE_HEIGHT
      ensures Meter() == FpsMeter(0, 0, 0.0)
    {
      shaderProgram, textureId, vertexBuffer, indexBuffer := 0, 0, 0, 0;
      textureWidth, textureHeight := INITIAL_TEXTURE_WIDTH, INITIAL_TEXTURE_HEIGHT;
      lastFrameTime, frameCount, currentFps := 0, 0, 0.0;
    }

    /** `onSurfaceCreated`: record the program (0 when linking failed), the
        texture and the two buffers GL created. */
    method OnSurfaceCreated(program: int, linked: bool, texture: int, vbo: int, ibo: int)
      modifies this
      ensures GlHandles() == Handles(if linked then program else 0, texture, vbo, ibo)
      ensures textureWidth == old(textureWidth) && textureHeight == old(textureHeight)
      ensures Meter() == old(Meter())
    {
      shaderProgram := program;
      if !linked {
        shaderProgram := 0;
      }
      textureId := texture;
      vertexBuffer, indexBuffer := vbo, ibo;
    }

    /** `updateTexture`: without a texture or pixels, nothing; otherwise the
        texture takes the frame's dimensions and its pixels are uploaded. */
    method UpdateTexture(pixelData: array?<Byte>, width: int, height: int) returns (calls: seq<GlCall>)
      modifies this
      ensures textureId == 0 || pixelData == null ==>
        calls == [] && textureWidth == old(textureWidth) && textureHeight == old(textureHeight)
      ensures textureId != 0 && pixelData != null ==>
        textureWidth == width && textureHeight == height &&
        calls == [BindTexture(textureId), TexSubImage2D(width, height, pixelData[..])]
      ensures GlHandles() == old(GlHandles()) && Meter() == old(Meter())
    {
      if textureId == 0 || pixelData == null {
        return [];
      }
      if width != textureWidth || height != textureHeight {
        textureWidth, textureHeight := width, height;
      }
      calls := [BindTexture(textureId), TexSubImage2D(width, height, pixelData[..])];
    }

    /** `calculateFPS`, called once per drawn frame. */
    method CalculateFps(now: int)
      modifies this
      ensures Meter() == Tick(old(Meter()), now)
      ensures GlHandles() == old(GlHandles())
      ensures textureWidth == old(textureWidth) && textureHeight == old(textureHeight)
    {
      frameCount := frameCount + 1;
      if lastFrameTime == 0 {
        lastFrameTime := now;
        return;
      }
      var deltaTime := now - lastFrameTime;
      if deltaTime >= FPS_WINDOW_MS {
        currentFps := (frameCount as real * 1000.0) / deltaTime as real;
        frameCount := 0;
        lastFrameTime := now;
      }
    }

    /** `cleanup`: delete the objects that exist and zero every handle. */
    method Cleanup() returns (calls: seq<GlCall>)
      modifies this
      ensures calls == CleanupCalls(old(GlHandles()))
      ensures GlHandles() == Handles(0, 0, 0, 0)
      ensures textureWidth == old(textureWidth) && textureHeight == old(textureHeight)
      ensures Meter() == old(Meter())
    {
      calls := [];
      if textureId != 0 {
        calls := calls + [DeleteTextures(textureId)];
        textureId := 0;
      }
      if shaderProgram != 0 {
        calls := calls + [DeleteProgram(shaderProgram)];
        shaderProgram := 0;
      }
      if vertexBuffer != 0 || indexBuffer != 0 {
        calls := calls + [DeleteBuffers(vertexBuffer, indexBuffer)];
        vertexBuffer, indexBuffer := 0, 0;
      }
    }
  }
}
