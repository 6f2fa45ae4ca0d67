/**
  The OpenGL context state the renderer touches, as an immutable record, and
  every GL call the renderer makes as an operation on it. A routine is a
  trace of operations; Run threads the state through it.

  Only the state that the bind discipline, the uploads and the draws depend
  on is kept. Draws, clears and readbacks append an event to a log that
  records the bindings in force at that moment.
*/
module GlState {
  import opened Basics
  import opened SceneData

  /**
    The format/type pairs the renderer hands glReadPixels. Rgba32fAsFormat
    is GL_RGBA32F given as the format: a sized internal format, not a pixel
    format, which glReadPixels rejects with GL_INVALID_ENUM.
  */
  datatype PixelFormat = RgbaUnsignedByte | RgbaFloat | Rgba32fAsFormat

  /** A uniform value, named by what it is computed from (matrices are not evaluated). */
  datatype UniformValue =
    | ViewOf(camera: Camera)
    | ProjectionOf(camera: Camera)
    | AmbientOf(ambient: Vec3<real>)
    | ModelOf(transform: Transform)
    | IdentityMatrix

  /** Where a vertex attribute reads from: the ARRAY_BUFFER bound when its pointer was set. */
  datatype AttribSource = AttribSource(buffer: nat, size: nat, strideBytes: nat, offsetBytes: nat)

  datatype Rgba = Rgba(r: real, g: real, b: real, a: real)

  datatype Rect = Rect(x: int, y: int, width: int, height: int)

  /** What a draw, clear or readback saw when it ran. */
  datatype Event =
    | Drawn(vao: nat, program: nat, framebuffer: nat, first: nat, count: nat,
            uniforms: map<int, UniformValue>)
    | Cleared(framebuffer: nat)
    | PixelsRead(framebuffer: nat, width: nat, height: nat, format: PixelFormat)

  datatype GLState = GLState(
    vao: nat,                                   // GL_VERTEX_ARRAY_BINDING
    arrayBuffer: nat,                           // GL_ARRAY_BUFFER_BINDING
    framebuffer: nat,                           // GL_FRAMEBUFFER_BINDING
    program: nat,                               // GL_CURRENT_PROGRAM
    texture: nat,                               // GL_TEXTURE_BINDING_2D
    depthTest: bool,
    clearColor: Rgba,
    viewport: Rect,
    buffers: map<nat, seq<real>>,               // buffer name -> uploaded floats
    attribs: map<(nat, nat), AttribSource>,     // (vao, location) -> pointer
    enabled: set<(nat, nat)>,                   // enabled (vao, location) pairs
    uniforms: map<nat, map<int, UniformValue>>, // program -> location -> value
    log: seq<Event>)

  /** One GL call. */
  datatype Op =
    | BindVertexArray(vaoName: nat)
    | BindArrayBuffer(bufferName: nat)
    | BufferData(data: seq<real>)
    | EnableAttrib(location: nat)
    | SetAttribPointer(location: nat, size: nat, strideBytes: nat, offsetBytes: nat)
    | BindFramebuffer(fboName: nat)
    | BindTexture(textureName: nat)
    | UseProgram(programName: nat)
    | SetUniform(uniformLocation: int, value: UniformValue)
    | ClearColor(color: Rgba)
    | EnableDepthTest
    | SetViewport(rect: Rect)
    | Clear
    | DrawTriangles(first: nat, count: nat)
    | ReadPixels(width: nat, height: nat, format: PixelFormat)

  /** The uniform values of program p. */
  function UniformsOf(s: GLState, p: nat): map<int, UniformValue>
  {
    if p in s.uniforms then s.uniforms[p] else map[]
  }

  /** A uniform write as GL performs it: location -1 is silently ignored. */
  function WriteUniform(u: map<int, UniformValue>, loc: int, v: UniformValue): map<int, UniformValue>
  {
    if loc == -1 then u else u[loc := v]
  }

  /**
    The effect of one call. Calls that GL rejects in a core-profile context
    change nothing: uploading, enabling or pointing an attribute with no
    buffer or no vertex array bound, setting a uniform with no program in use,
    drawing with no vertex array bound, and reading pixels in a format GL
    does not accept. A uniform location of -1 is silently ignored.
  */
  function Apply(s: GLState, op: Op): GLState
  {
    match op
    case BindVertexArray(v) => s.(vao := v)
    case BindArrayBuffer(b) => s.(arrayBuffer := b)
    case BufferData(data) =>
      if s.arrayBuffer == 0 then s else s.(buffers := s.buffers[s.arrayBuffer := data])
    case EnableAttrib(loc) =>
      if s.vao == 0 then s else s.(enabled := s.enabled + {(s.vao, loc)})
    case SetAttribPointer(loc, size, stride, offset) =>
      if s.vao == 0 || s.arrayBuffer == 0 then s
      else s.(attribs := s.attribs[(s.vao, loc) := AttribSource(s.arrayBuffer, size, stride, offset)])
    case BindFramebuffer(f) => s.(framebuffer := f)
    case BindTexture(t) => s.(texture := t)
    case UseProgram(p) => s.(program := p)
    case SetUniform(loc, v) =>
      if s.program == 0 || loc == -1 then s
      else s.(uniforms := s.uniforms[s.program := UniformsOf(s, s.program)[loc := v]])
    case ClearColor(c) => s.(clearColor := c)
    case EnableDepthTest => s.(depthTest := true)
    case SetViewport(r) => s.(viewport := r)
    case Clear => s.(log := s.log + [Cleared(s.framebuffer)])
    case DrawTriangles(first, count) =>
      if s.vao == 0 then s
      else s.(log := s.log + [Drawn(s.vao, s.program, s.framebuffer, first, count, UniformsOf(s, s.program))])
    case ReadPixels(w, h, fmt) =>
      if fmt.Rgba32fAsFormat? then s else s.(log := s.log + [PixelsRead(s.framebuffer, w, h, fmt)])
  }

  /**
    With a program in use, setting a uniform writes it into that program's
    uniforms unless the location is -1, and touches no binding and no log.
  */
  lemma SetUniformWrites(s: GLState, loc: int, v: UniformValue)
    requires s.program != 0
    ensures var t := Apply(s, SetUniform(loc, v));
      && UniformsOf(t, s.program) == WriteUniform(UniformsOf(s, s.program), loc, v)
      && (loc == -1 ==> t == s)
      && (loc != -1 ==> UniformsOf(t, s.program)[loc] == v)
      && t.program == s.program && t.framebuffer == s.framebuffer && t.vao == s.vao && t.log == s.log
  {
  }

  /** The state after a trace of calls. */
  function Run(s: GLState, ops: seq<Op>): GLState
    decreases |ops|
  {
    if |ops| == 0 then s else Run(Apply(s, ops[0]), ops[1..])
  }

  /** Running two traces back to back is running their concatenation. */
  lemma {:induction false} RunAppend(s: GLState, a: seq<Op>, b: seq<Op>)
    ensures Run(s, a + b) == Run(Run(s, a), b)
    decreases |a|
  {
    if |a| == 0 {
      assert a + b == b;
    } else {
      assert (a + b)[0] == a[0];
      assert (a + b)[1..] == a[1..] + b;
      RunAppend(Apply(s, a[0]), a[1..], b);
    }
  }

  /** Peels the first call off a trace. */
  lemma RunCons(s: GLState, op: Op, rest: seq<Op>)
    ensures Run(s, [op] + rest) == Run(Apply(s, op), rest)
  {
    assert ([op] + rest)[1..] == rest;
  }

  /** Three calls in a row. */
  lemma Run3(s: GLState, ops: seq<Op>)
    requires |ops| == 3
    ensures Run(s, ops) == Apply(Apply(Apply(s, ops[0]), ops[1]), ops[2])
  {
    assert ops == [ops[0]] + ([ops[1]] + ([ops[2]] + []));
    RunCons(s, ops[0], [ops[1]] + ([ops[2]] + []));
    RunCons(Apply(s, ops[0]), ops[1], [ops[2]] + []);
    RunCons(Apply(Apply(s, ops[0]), ops[1]), ops[2], []);
  }

  /** Seven calls in a row. */
  lemma Run7(s: GLState, ops: seq<Op>)
    requires |ops| == 7
    ensures Run(s, ops) == Apply(Apply(Apply(Apply(Apply(Apply(Apply(
      s, ops[0]), ops[1]), ops[2]), ops[3]), ops[4]), ops[5]), ops[6])
  {
    assert ops == ops[..3] + ops[3..6] + ops[6..];
    RunAppend(s, ops[..3] + ops[3..6], ops[6..]);
    RunAppend(s, ops[..3], ops[3..6]);
    Run3(s, ops[..3]);
    Run3(Run(s, ops[..3]), ops[3..6]);
    RunCons(Run(s, ops[..6]), ops[6], []);
    assert ops[6..] == [ops[6]] + [];
  }

  /** Nine calls in a row. */
  lemma Run9(s: GLState, ops: seq<Op>)
    requires |ops| == 9
    ensures Run(s, ops) == Apply(Apply(Apply(Apply(Apply(Apply(Apply(Apply(Apply(
      s, ops[0]), ops[1]), ops[2]), ops[3]), ops[4]), ops[5]), ops[6]), ops[7]), ops[8])
  {
    assert ops == ops[..3] + ops[3..6] + ops[6..];
    RunAppend(s, ops[..3] + ops[3..6], ops[6..]);
    RunAppend(s, ops[..3], ops[3..6]);
    Run3(s, ops[..3]);
    Run3(Run(s, ops[..3]), ops[3..6]);
    Run3(Run(s, ops[..6]), ops[6..]);
  }

  /** A trace with no framebuffer bind leaves the bound framebuffer alone. */
  predicate NoFramebufferBind(ops: seq<Op>)
  {
    forall i :: 0 <= i < |ops| ==> !ops[i].BindFramebuffer?
  }

  /** A trace that binds no framebuffer leaves GL_FRAMEBUFFER_BINDING unchanged. */
  lemma {:induction false} FramebufferKept(s: GLState, ops: seq<Op>)
    requires NoFramebufferBind(ops)
    ensures Run(s, ops).framebuffer == s.framebuffer
    decreases |ops|
  {
    if |ops| > 0 {
      assert !ops[0].BindFramebuffer?;
      assert NoFramebufferBind(ops[1..]) by {
        forall i | 0 <= i < |ops[1..]|
          ensures !ops[1..][i].BindFramebuffer?
        {
          assert ops[1..][i] == ops[i + 1];
        }
      }
      FramebufferKept(Apply(s, ops[0]), ops[1..]);
    }
  }

  /** The bound framebuffer after a trace is the last one it binds. */
  lemma FramebufferAfterBind(s: GLState, ops: seq<Op>, f: nat, rest: seq<Op>)
    requires NoFramebufferBind(rest)
    ensures Run(s, ops + [BindFramebuffer(f)] + rest).framebuffer == f
  {
    RunAppend(s, ops + [BindFramebuffer(f)], rest);
    RunAppend(s, ops, [BindFramebuffer(f)]);
    FramebufferKept(Run(s, ops + [BindFramebuffer(f)]), rest);
  }
}
