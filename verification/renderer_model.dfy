/**
  GLRenderer: framebuffer and staging-buffer set-up in init, the fixed order
  of setupScene, the two passes of render(camera, outfilename) and the
  one-pass offscreen render, each as a trace over the GL state, plus the
  image the PNG writer receives.

  Window and context creation come before anything modelled here; the
  names glGen* hands out, the framebuffer completeness verdict and the size
  glfwGetFramebufferSize reports are inputs.
*/
module RendererModel {
  import opened Basics
  import opened GlState
  import SceneModel
  import Renderables
  import Readback

  /** init's framebuffer check failed (the source stops on assert(false)). */
  datatype RenderError = FramebufferIncomplete

  /**
    The renderer after init: the current size (mWidth, mHeight), the FBO and
    its colour texture, the sizes of the two staging buffers, the GL state.
  */
  datatype Renderer = Renderer(
    width: nat, height: nat,
    fbo: nat, colorTexture: nat,
    byteStaging: nat,    // mBuffer, bytes
    floatStaging: nat,   // mRGBD, bytes
    gl: GLState)

  // ---------------------------------------------------------------------------
  // init
  // ---------------------------------------------------------------------------

  /** init's framebuffer calls up to the completeness check. */
  function InitFramebufferOps(fbo: nat, texture: nat): seq<Op>
  {
    [BindFramebuffer(fbo), BindTexture(texture)]
  }

  /**
    GLRenderer::init from glGenFramebuffers on, with the float staging
    buffer given in bytes. An incomplete framebuffer is an error; a complete
    one is unbound again and both staging buffers are allocated.
  */
  function InitWith(gl: GLState, width: nat, height: nat, fbo: nat, texture: nat, complete: bool,
                    floatStaging: nat): (r: Result<Renderer, RenderError>)
    ensures r.Failure? <==> !complete
    ensures r.Failure? ==> r.error == FramebufferIncomplete
    ensures r.Success? ==>
      && r.value.gl.framebuffer == 0
      && r.value.gl.texture == texture
      && r.value.width == width && r.value.height == height
      && r.value.fbo == fbo && r.value.colorTexture == texture
      && r.value.byteStaging == Readback.ReadbackExtent(width, height, Readback.RgbaBytes)
      && r.value.floatStaging == floatStaging
  {
    if !complete then Failure(FramebufferIncomplete)
    else
      var ops := InitFramebufferOps(fbo, texture) + [BindFramebuffer(0)];
      Run3(gl, ops);
      Readback.ByteStagingIsReadbackExtent(width, height);
      Success(Renderer(width, height, fbo, texture, Readback.ByteStagingBytes(width, height),
                       floatStaging, Run(gl, ops)))
  }

  /**
    GLRenderer::init as written: mRGBD is calloc(4, w·h), room for w·h
    floats, a quarter of what a w×h RGBA float readback writes.
  */
  function Init(gl: GLState, width: nat, height: nat, fbo: nat, texture: nat, complete: bool)
    : (r: Result<Renderer, RenderError>)
    ensures r.Failure? <==> !complete
    ensures r.Success? ==>
      && r.value.gl.framebuffer == 0 && r.value.gl.texture == texture
      && r.value.byteStaging == Readback.ReadbackExtent(width, height, Readback.RgbaBytes)
      && r.value.floatStaging == Readback.FloatBytes * (width * height)
      && (width > 0 && height > 0 ==> r.value.floatStaging < Readback.FloatReadbackBytes(width, height))
  {
    var r := InitWith(gl, width, height, fbo, texture, complete, Readback.FloatStagingBytesAsWritten(width, height));
    if width > 0 && height > 0 then Readback.FloatStagingAsWrittenOverrun(width, height); r else r
  }

  /** GLRenderer::init with mRGBD sized for four floats per pixel: both buffers match their readbacks. */
  function InitCorrected(gl: GLState, width: nat, height: nat, fbo: nat, texture: nat, complete: bool)
    : (r: Result<Renderer, RenderError>)
    ensures r.Failure? <==> !complete
    ensures r.Success? ==>
      && r.value.gl.framebuffer == 0 && r.value.gl.texture == texture
      && r.value.byteStaging == Readback.ReadbackExtent(width, height, Readback.RgbaBytes)
      && r.value.floatStaging == Readback.FloatReadbackBytes(width, height)
  {
    Readback.FloatStagingIsReadbackExtent(width, height);
    InitWith(gl, width, height, fbo, texture, complete, Readback.FloatStagingBytes(width, height))
  }

  /** The FBO is bound while its attachment is made, and unbound before init returns. */
  lemma InitBindsThenUnbinds(gl: GLState, width: nat, height: nat, fbo: nat, texture: nat)
    ensures InitFramebufferOps(fbo, texture)[0] == BindFramebuffer(fbo)
    ensures Run(gl, InitFramebufferOps(fbo, texture)).framebuffer == fbo
    ensures Init(gl, width, height, fbo, texture, true).Success?
    ensures Init(gl, width, height, fbo, texture, true).value.gl
         == Run(gl, InitFramebufferOps(fbo, texture) + [BindFramebuffer(0)])
  {
    var ops := InitFramebufferOps(fbo, texture);
    assert ops == [ops[0]] + [ops[1]];
    RunCons(gl, ops[0], [ops[1]]);
    RunCons(Apply(gl, ops[0]), ops[1], []);
    assert [ops[1]] == [ops[1]] + [];
  }

  // ---------------------------------------------------------------------------
  // setupScene
  // ---------------------------------------------------------------------------

  /** setupScene's calls, given the re-queried framebuffer size. */
  function SetupSceneOps(ready: SceneModel.ReadyScene, width: nat, height: nat): seq<Op>
  {
    [ClearColor(Rgba(0.0, 0.0, 0.0, 0.0)), EnableDepthTest]
      + SceneModel.SetupOps(ready.objects, ready.varMap)
      + [SetViewport(Rect(0, 0, width, height))]
  }

  /**
    GLRenderer::setupScene: the size is replaced by the framebuffer's, the GL
    calls run, and the staging buffers keep the size init gave them.
  */
  function SetupScene(r: Renderer, ready: SceneModel.ReadyScene, fbWidth: nat, fbHeight: nat): (r': Renderer)
    ensures r'.width == fbWidth && r'.height == fbHeight
    ensures r'.byteStaging == r.byteStaging && r'.floatStaging == r.floatStaging
    ensures r'.fbo == r.fbo && r'.colorTexture == r.colorTexture
  {
    r.(width := fbWidth, height := fbHeight, gl := Run(r.gl, SetupSceneOps(ready, fbWidth, fbHeight)))
  }

  /**
    After setupScene the clear colour is transparent black, depth testing is
    on, every object is uploaded and wired, the viewport covers the
    re-queried size, and the framebuffer and program are as before.
  */
  lemma SetupSceneEffect(r: Renderer, ready: SceneModel.ReadyScene, fbWidth: nat, fbHeight: nat)
    requires SceneModel.FreshNames(ready.objects)
    ensures var r' := SetupScene(r, ready, fbWidth, fbHeight);
      && r'.gl.clearColor == Rgba(0.0, 0.0, 0.0, 0.0)
      && r'.gl.depthTest
      && r'.gl.viewport == Rect(0, 0, r'.width, r'.height)
      && (forall i :: 0 <= i < |ready.objects| ==>
            SceneModel.ObjectReady(r'.gl, ready.objects[i], Renderables.Lookup(ready.varMap, "position")))
      && (|ready.objects| > 0 ==> r'.gl.vao == 0 && r'.gl.arrayBuffer == 0)
      && r'.gl.framebuffer == r.gl.framebuffer && r'.gl.program == r.gl.program
      && r'.gl.log == r.gl.log
  {
    var head := [ClearColor(Rgba(0.0, 0.0, 0.0, 0.0)), EnableDepthTest];
    var mid := SceneModel.SetupOps(ready.objects, ready.varMap);
    var tail := [SetViewport(Rect(0, 0, fbWidth, fbHeight))];
    RunAppend(r.gl, head + mid, tail);
    RunAppend(r.gl, head, mid);
    RunCons(r.gl, head[0], [head[1]]);
    RunCons(Apply(r.gl, head[0]), head[1], []);
    assert [head[1]] == [head[1]] + [];
    var t0 := Run(r.gl, head);
    SceneModel.SetupEffect(t0, ready.objects, ready.varMap);
    RunCons(Run(t0, mid), tail[0], []);
    assert tail == [tail[0]] + [];
  }

  // ---------------------------------------------------------------------------
  // render(camera, outfilename)
  // ---------------------------------------------------------------------------

  /** One pass: clear, draw the scene, read the pixels back with the given format and type. */
  function PassOps(r: Renderer, ready: SceneModel.ReadyScene, format: PixelFormat): seq<Op>
  {
    [Clear] + SceneModel.RenderOps(ready) + [ReadPixels(r.width, r.height, format)]
  }

  /** A pass into the FBO read back with the given format, then the byte pass into the default framebuffer. */
  function TwoPassOps(r: Renderer, ready: SceneModel.ReadyScene, fboFormat: PixelFormat): seq<Op>
  {
    [BindFramebuffer(r.fbo)] + PassOps(r, ready, fboFormat)
      + [BindFramebuffer(0)] + PassOps(r, ready, RgbaUnsignedByte)
  }

  /** render(camera, outfilename) as written: the FBO pass asks for format GL_RGBA32F. */
  function RenderToFileOps(r: Renderer, ready: SceneModel.ReadyScene): seq<Op>
  {
    TwoPassOps(r, ready, Rgba32fAsFormat)
  }

  /** render(camera, outfilename) with the FBO pass read back as GL_RGBA / GL_FLOAT. */
  function RenderToFileCorrectedOps(r: Renderer, ready: SceneModel.ReadyScene): seq<Op>
  {
    TwoPassOps(r, ready, RgbaFloat)
  }

  /** What a readback leaves in the log: one event, or none when GL rejects the format. */
  function ReadEvents(framebuffer: nat, width: nat, height: nat, format: PixelFormat): seq<Event>
  {
    if format.Rgba32fAsFormat? then [] else [PixelsRead(framebuffer, width, height, format)]
  }

  /** What a pass leaves in the log: the clear, one draw per object, the readback if GL accepts it. */
  function PassEvents(r: Renderer, ready: SceneModel.ReadyScene, framebuffer: nat, format: PixelFormat,
                      frame: map<int, UniformValue>): seq<Event>
  {
    [Cleared(framebuffer)]
      + SceneModel.FrameDraws(ready.objects, ready.program, framebuffer, ready.uniforms.model, frame)
      + ReadEvents(framebuffer, r.width, r.height, format)
  }

  /** A pass in whatever framebuffer is bound. */
  lemma PassEffect(t: GLState, r: Renderer, ready: SceneModel.ReadyScene, format: PixelFormat)
    requires ready.program != 0
    requires forall i :: 0 <= i < |ready.objects| ==> ready.objects[i].vao != 0
    ensures var u := Run(t, PassOps(r, ready, format));
      && u.log == t.log + PassEvents(r, ready, t.framebuffer, format,
                                     SceneModel.FrameUniforms(UniformsOf(t, ready.program), ready))
      && u.framebuffer == t.framebuffer && u.program == ready.program
      && UniformsOf(u, ready.program) == SceneModel.FrameLeftovers(UniformsOf(t, ready.program), ready)
  {
    var t1 := ClearAndDraw(t, ready);
    ClearThenRun(t, SceneModel.RenderOps(ready), ReadPixels(r.width, r.height, format));
    ReadEffect(t1, r.width, r.height, format);
  }

  /** The clear and the scene's draws of a pass, before its readback. */
  lemma ClearAndDraw(t: GLState, ready: SceneModel.ReadyScene) returns (t1: GLState)
    requires ready.program != 0
    requires forall i :: 0 <= i < |ready.objects| ==> ready.objects[i].vao != 0
    ensures t1 == Run(Apply(t, Clear), SceneModel.RenderOps(ready))
    ensures t1.log == t.log + [Cleared(t.framebuffer)]
      + SceneModel.FrameDraws(ready.objects, ready.program, t.framebuffer, ready.uniforms.model,
                              SceneModel.FrameUniforms(UniformsOf(t, ready.program), ready))
    ensures t1.framebuffer == t.framebuffer && t1.program == ready.program
    ensures UniformsOf(t1, ready.program) == SceneModel.FrameLeftovers(UniformsOf(t, ready.program), ready)
  {
    var t0 := Apply(t, Clear);
    assert UniformsOf(t0, ready.program) == UniformsOf(t, ready.program);
    SceneModel.RenderEffect(t0, ready);
    t1 := Run(t0, SceneModel.RenderOps(ready));
  }

  /** A readback appends its event, if GL accepts the format, and changes nothing else. */
  lemma ReadEffect(t: GLState, width: nat, height: nat, format: PixelFormat)
    ensures var u := Apply(t, ReadPixels(width, height, format));
      u == t.(log := t.log + ReadEvents(t.framebuffer, width, height, format))
  {
    if format.Rgba32fAsFormat? {
      assert t.log + [] == t.log;
    }
  }

  /** A clear, a body, a readback: the body runs after the clear, the readback after the body. */
  lemma ClearThenRun(t: GLState, body: seq<Op>, read: Op)
    ensures Run(t, [Clear] + body + [read]) == Apply(Run(Apply(t, Clear), body), read)
  {
    RunAppend(t, [Clear] + body, [read]);
    RunAppend(t, [Clear], body);
    RunCons(t, Clear, []);
    assert [Clear] == [Clear] + [];
    RunCons(Run(Apply(t, Clear), body), read, []);
    assert [read] == [read] + [];
  }

  /**
    A second frame draws exactly what the first did: re-uploading view,
    projection and ambient over the first frame's leftovers restores the
    frame's uniforms wherever a draw looks.
  */
  lemma SecondFrameSameDraws(u: map<int, UniformValue>, ready: SceneModel.ReadyScene, framebuffer: nat)
    ensures var m := ready.uniforms.model;
      SceneModel.FrameDraws(ready.objects, ready.program, framebuffer, m,
                            SceneModel.FrameUniforms(SceneModel.FrameLeftovers(u, ready), ready))
      == SceneModel.FrameDraws(ready.objects, ready.program, framebuffer, m, SceneModel.FrameUniforms(u, ready))
  {
    var m := ready.uniforms.model;
    var frame := SceneModel.FrameUniforms(u, ready);
    var again := SceneModel.FrameUniforms(SceneModel.FrameLeftovers(u, ready), ready);
    forall i | 0 <= i < |ready.objects|
      ensures SceneModel.ObjectDraw(ready.objects[i], ready.program, framebuffer, m, again)
           == SceneModel.ObjectDraw(ready.objects[i], ready.program, framebuffer, m, frame)
    {
      SceneModel.FrameReupload(u, ready, ModelOf(ready.objects[i].loaded.transform));
    }
  }

  /**
    Both passes of render(camera, outfilename): the FBO pass and then the
    default-framebuffer pass, each seeing the same uniforms, with framebuffer
    0 bound at the end.
  */
  lemma TwoPassEffect(r: Renderer, ready: SceneModel.ReadyScene, fboFormat: PixelFormat)
    requires ready.program != 0
    requires forall i :: 0 <= i < |ready.objects| ==> ready.objects[i].vao != 0
    ensures var u := Run(r.gl, TwoPassOps(r, ready, fboFormat));
      var frame := SceneModel.FrameUniforms(UniformsOf(r.gl, ready.program), ready);
      && u.framebuffer == 0
      && u.log == r.gl.log + PassEvents(r, ready, r.fbo, fboFormat, frame)
                           + PassEvents(r, ready, 0, RgbaUnsignedByte, frame)
  {
    var p1 := [BindFramebuffer(r.fbo)] + PassOps(r, ready, fboFormat);
    var p2 := [BindFramebuffer(0)] + PassOps(r, ready, RgbaUnsignedByte);
    assert TwoPassOps(r, ready, fboFormat) == p1 + p2;
    RunAppend(r.gl, p1, p2);
    RunCons(r.gl, BindFramebuffer(r.fbo), PassOps(r, ready, fboFormat));
    var t0 := Apply(r.gl, BindFramebuffer(r.fbo));
    PassEffect(t0, r, ready, fboFormat);
    var t1 := Run(r.gl, p1);
    RunCons(t1, BindFramebuffer(0), PassOps(r, ready, RgbaUnsignedByte));
    var t2 := Apply(t1, BindFramebuffer(0));
    PassEffect(t2, r, ready, RgbaUnsignedByte);
    assert UniformsOf(t2, ready.program) == SceneModel.FrameLeftovers(UniformsOf(r.gl, ready.program), ready);
    SecondFrameSameDraws(UniformsOf(r.gl, ready.program), ready, 0);
  }

  /**
    render(camera, outfilename) as written draws the scene into the FBO and
    then into the default framebuffer with the same uniforms, and leaves
    framebuffer 0 bound. GL rejects the FBO pass's readback, so the only
    pixels read are the bytes of the default framebuffer.
  */
  lemma RenderToFileEffect(r: Renderer, ready: SceneModel.ReadyScene)
    requires ready.program != 0
    requires forall i :: 0 <= i < |ready.objects| ==> ready.objects[i].vao != 0
    ensures var u := Run(r.gl, RenderToFileOps(r, ready));
      var frame := SceneModel.FrameUniforms(UniformsOf(r.gl, ready.program), ready);
      var m := ready.uniforms.model;
      && u.framebuffer == 0
      && u.log == r.gl.log
           + [Cleared(r.fbo)] + SceneModel.FrameDraws(ready.objects, ready.program, r.fbo, m, frame)
           + [Cleared(0)] + SceneModel.FrameDraws(ready.objects, ready.program, 0, m, frame)
           + [PixelsRead(0, r.width, r.height, RgbaUnsignedByte)]
  {
    TwoPassEffect(r, ready, Rgba32fAsFormat);
  }

  /**
    With the format corrected, the FBO pass is read back as floats before
    the default framebuffer is drawn and read back as bytes.
  */
  lemma RenderToFileCorrectedEffect(r: Renderer, ready: SceneModel.ReadyScene)
    requires ready.program != 0
    requires forall i :: 0 <= i < |ready.objects| ==> ready.objects[i].vao != 0
    ensures var u := Run(r.gl, RenderToFileCorrectedOps(r, ready));
      var frame := SceneModel.FrameUniforms(UniformsOf(r.gl, ready.program), ready);
      var m := ready.uniforms.model;
      && u.framebuffer == 0
      && u.log == r.gl.log
           + [Cleared(r.fbo)] + SceneModel.FrameDraws(ready.objects, ready.program, r.fbo, m, frame)
           + [PixelsRead(r.fbo, r.width, r.height, RgbaFloat)]
           + [Cleared(0)] + SceneModel.FrameDraws(ready.objects, ready.program, 0, m, frame)
           + [PixelsRead(0, r.width, r.height, RgbaUnsignedByte)]
  {
    TwoPassEffect(r, ready, RgbaFloat);
  }

  /**
    Against the buffers init allocates as written, the byte readback fits
    exactly when w'·h' ≤ w·h, but the float readback only when
    4·w'·h' ≤ w·h: at the size init was given it never fits a non-empty image.
  */
  lemma ReadbacksFitIff(width: nat, height: nat, width': nat, height': nat)
    ensures (Readback.ReadbackExtent(width', height', Readback.RgbaBytes) <= Readback.ByteStagingBytes(width, height))
        <==> width' * height' <= width * height
    ensures (Readback.FloatReadbackBytes(width', height') <= Readback.FloatStagingBytesAsWritten(width, height))
        <==> 4 * (width' * height') <= width * height
  {
    Readback.ReadbackFitsIff(width, height, width', height');
    Readback.FloatStagingIsReadbackExtent(width', height');
  }

  /** With mRGBD sized for four floats per pixel, the float readback fits exactly when w'·h' ≤ w·h. */
  lemma ReadbacksFitIffCorrected(width: nat, height: nat, width': nat, height': nat)
    ensures (Readback.FloatReadbackBytes(width', height') <= Readback.FloatStagingBytes(width, height))
        <==> width' * height' <= width * height
  {
    Readback.FloatStagingIsReadbackExtent(width', height');
  }

  /**
    After setupScene re-queries the size, the byte readback fits the buffer
    init sized exactly when the new size has no more pixels; the float one,
    as allocated, only when it has at most a quarter of them.
  */
  lemma SetupSceneReadbacksFit(gl: GLState, width: nat, height: nat, fbo: nat, texture: nat,
                               ready: SceneModel.ReadyScene, fbWidth: nat, fbHeight: nat)
    ensures var r := SetupScene(Init(gl, width, height, fbo, texture, true).value, ready, fbWidth, fbHeight);
      && ((Readback.ReadbackExtent(r.width, r.height, Readback.RgbaBytes) <= r.byteStaging)
          <==> fbWidth * fbHeight <= width * height)
      && ((Readback.FloatReadbackBytes(r.width, r.height) <= r.floatStaging)
          <==> 4 * (fbWidth * fbHeight) <= width * height)
  {
    ReadbacksFitIff(width, height, fbWidth, fbHeight);
    Readback.ByteStagingIsReadbackExtent(width, height);
  }

  /** With the corrected init, both readbacks fit exactly when the new size has no more pixels. */
  lemma SetupSceneReadbacksFitCorrected(gl: GLState, width: nat, height: nat, fbo: nat, texture: nat,
                                        ready: SceneModel.ReadyScene, fbWidth: nat, fbHeight: nat)
    ensures var r := SetupScene(InitCorrected(gl, width, height, fbo, texture, true).value, ready, fbWidth, fbHeight);
      && ((Readback.ReadbackExtent(r.width, r.height, Readback.RgbaBytes) <= r.byteStaging)
          <==> fbWidth * fbHeight <= width * height)
      && ((Readback.FloatReadbackBytes(r.width, r.height) <= r.floatStaging)
          <==> fbWidth * fbHeight <= width * height)
  {
    ReadbacksFitIff(width, height, fbWidth, fbHeight);
    ReadbacksFitIffCorrected(width, height, fbWidth, fbHeight);
    Readback.ByteStagingIsReadbackExtent(width, height);
    Readback.FloatStagingIsReadbackExtent(width, height);
  }

  // ---------------------------------------------------------------------------
  // The PNG
  // ---------------------------------------------------------------------------

  /** What stbi_write_png receives: the file name, the size and the rows top to bottom. */
  datatype PngImage<B> = PngImage(fileName: string, width: nat, height: nat, rows: seq<seq<B>>)

  /**
    The PNG written from the byte staging buffer: name `outfilename.png`,
    rows read from the last stored row upwards. Only the first 4·w·h bytes
    of the buffer are read.
  */
  function WritePng<B>(outfilename: string, width: nat, height: nat, staging: seq<B>): (img: PngImage<B>)
    requires Readback.ByteStagingBytes(width, height) <= |staging|
    ensures img.fileName == Readback.PngFileName(outfilename)
    ensures img.width == width && img.height == height
    ensures |img.rows| == height
    ensures forall r :: 0 <= r < height ==> |img.rows[r]| == Readback.RowBytes(width)
  {
    var rows := Readback.PngRows(staging[..Readback.ByteStagingBytes(width, height)], width, height);
    assert forall r :: 0 <= r < height ==> |rows[r]| == Readback.RowBytes(width) by {
      forall r | 0 <= r < height
        ensures |rows[r]| == Readback.RowBytes(width)
      {
        Readback.PngRowInBounds(width, height, r);
      }
    }
    PngImage(Readback.PngFileName(outfilename), width, height, rows)
  }

  /** Pixel (x, y) of the readback, counted from the bottom, is pixel (x, h-1-y) of the PNG. */
  lemma WritePngFlips<B>(outfilename: string, width: nat, height: nat, staging: seq<B>, x: nat, y: nat, c: nat)
    requires Readback.ByteStagingBytes(width, height) <= |staging|
    requires x < width && y < height && c < Readback.RgbaBytes
    ensures 0 <= Readback.RgbaBytes * (width * y + x) + c < Readback.ByteStagingBytes(width, height)
    ensures WritePng(outfilename, width, height, staging).rows[Readback.FlipRow(height, y)][Readback.RgbaBytes * x + c]
         == staging[Readback.RgbaBytes * (width * y + x) + c]
  {
    var buf := staging[..Readback.ByteStagingBytes(width, height)];
    Readback.PixelOffset(width, height, x, y, c);
    Readback.PngPixelIsFlippedGlPixel(buf, width, height, x, y, c);
  }

  /** Stacking the PNG's rows bottom-up gives back the bytes that were read. */
  lemma WritePngRestacks<B>(outfilename: string, width: nat, height: nat, staging: seq<B>)
    requires Readback.ByteStagingBytes(width, height) <= |staging|
    ensures Readback.Concat(Readback.Reverse(WritePng(outfilename, width, height, staging).rows))
         == staging[..Readback.ByteStagingBytes(width, height)]
  {
    Readback.PngRowsRestackToBuffer(staging[..Readback.ByteStagingBytes(width, height)], width, height);
  }

  // ---------------------------------------------------------------------------
  // The one-pass offscreen render
  // ---------------------------------------------------------------------------

  /**
    GLRenderer::render() of src/main.cc: clear, draw with that file's own
    Scene::render, read the bytes back into a freshly allocated buffer.
  */
  function OffscreenOps(r: Renderer, ready: SceneModel.ReadyScene): seq<Op>
  {
    [Clear] + SceneModel.MainRenderOps(ready) + [ReadPixels(r.width, r.height, RgbaUnsignedByte)]
  }

  /** The fixed output name of the offscreen render. */
  const OffscreenFileName: string := "offscreen.png"

  /**
    The offscreen render draws the scene once into whatever framebuffer is
    bound and leaves it bound: a clear, one three-vertex draw per object seeing the
    identity model, the view and the projection, then the byte readback,
    whose fresh calloc(4, w·h) buffer is exactly its extent.
  */
  lemma OffscreenEffect(r: Renderer, ready: SceneModel.ReadyScene)
    requires ready.program != 0
    requires forall i :: 0 <= i < |ready.objects| ==> ready.objects[i].vao != 0
    ensures var u := Run(r.gl, OffscreenOps(r, ready));
      && u.framebuffer == r.gl.framebuffer
      && u.log == r.gl.log + [Cleared(r.gl.framebuffer)]
           + SceneModel.MainFrameDraws(ready.objects, ready.program, r.gl.framebuffer,
                                       SceneModel.MainFrameUniforms(UniformsOf(r.gl, ready.program), ready))
           + [PixelsRead(r.gl.framebuffer, r.width, r.height, RgbaUnsignedByte)]
    ensures Readback.ReadbackExtent(r.width, r.height, Readback.RgbaBytes) == Readback.ByteStagingBytes(r.width, r.height)
  {
    var body := SceneModel.MainRenderOps(ready);
    ClearThenRun(r.gl, body, ReadPixels(r.width, r.height, RgbaUnsignedByte));
    var t0 := Apply(r.gl, Clear);
    assert UniformsOf(t0, ready.program) == UniformsOf(r.gl, ready.program);
    SceneModel.MainRenderEffect(t0, ready);
    Readback.ByteStagingIsReadbackExtent(r.width, r.height);
  }

  /** The offscreen PNG: the fixed name, the rows flipped as in render(camera, outfilename). */
  function WriteOffscreenPng<B>(width: nat, height: nat, buffer: seq<B>): (img: PngImage<B>)
    requires |buffer| == Readback.ByteStagingBytes(width, height)
    ensures img.fileName == OffscreenFileName
    ensures img.rows == Readback.Reverse(Readback.GlRows(buffer, width, height))
  {
    Readback.PngRowsReverseGlRows(buffer, width, height);
    PngImage(OffscreenFileName, width, height, Readback.PngRows(buffer, width, height))
  }
}
