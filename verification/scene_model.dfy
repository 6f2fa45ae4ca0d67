/**
  The scene: what loadScene reads from the scene file, the attribute map
  setup hands to every object, and the order of GL calls setup and render
  issue. Shader compilation, the JSON parser and the OBJ parser are
  parameters: the scene file arrives already parsed, `parse` stands for the
  OBJ reader, and the program name and the locations GL reports are inputs.
*/
module SceneModel {
  import opened Basics
  import opened SceneData
  import opened GlState
  import ObjMesh
  import Renderables

  // ---------------------------------------------------------------------------
  // Loading
  // ---------------------------------------------------------------------------

  /** One entry of `objects.obj`: its `path` and its optional `translate` array. */
  datatype ObjectSpec = ObjectSpec(path: Option<string>, translate: Option<seq<real>>)

  /**
    The parsed scene file, reduced to the keys loadScene reads, plus the
    `materials` block it hands to a loader that ignores it.
  */
  datatype SceneSpec = SceneSpec(
    vertexShader: Option<string>,     // glsl.vertex
    fragmentShader: Option<string>,   // glsl.fragment
    camera: Camera,
    ambient: seq<real>,               // lights.ambient
    materials: seq<Material>,
    objects: seq<ObjectSpec>)         // objects.obj

  /** A loaded object: where its mesh came from, its placement, the mesh. */
  datatype SceneObject = SceneObject(meshPath: string, transform: Transform, mesh: ObjMesh.Mesh<real>)

  datatype Scene = Scene(
    vertexShaderPath: string,
    fragmentShaderPath: string,
    camera: Camera,
    ambient: Vec3<real>,
    materials: seq<Material>,
    objects: seq<SceneObject>)

  /** Json::Value::asString: a missing member reads as the empty string. */
  function AsString(v: Option<string>): string
  {
    if v.Some? then v.value else ""
  }

  /** `a[i].asFloat()`: a missing element reads as 0. */
  function Component(a: seq<real>, i: nat): real
  {
    if i < |a| then a[i] else 0.0
  }

  /**
    glm::vec3(a[0], a[1], a[2]) from a JSON array: component j is the
    array's element j when there is one and 0 otherwise; extra elements are
    ignored.
  */
  function JsonVec3(a: seq<real>): (v: Vec3<real>)
    ensures forall j :: 0 <= j < 3 ==> v.Coord(j) == (if j < |a| then a[j] else 0.0)
  {
    Vec3(Component(a, 0), Component(a, 1), Component(a, 2))
  }

  /** basedir + "/" + name. */
  function JoinPath(basedir: string, name: string): string
  {
    basedir + "/" + name
  }

  /** A joined path is the directory, one slash, and the name, with nothing lost or added. */
  lemma JoinPathParts(basedir: string, name: string)
    ensures var p := JoinPath(basedir, name);
      && |p| == |basedir| + 1 + |name|
      && p[..|basedir|] == basedir && p[|basedir|] == '/' && p[|basedir| + 1..] == name
  {
  }

  /** Where the mesh of an object entry is read from. */
  function MeshPath(basedir: string, o: ObjectSpec): string
  {
    JoinPath(basedir, AsString(o.path))
  }

  /** The placement of an object entry: zero translation unless given, identity rotation. */
  function ObjectTransform(o: ObjectSpec): Transform
  {
    Transform(if o.translate.Some? then JsonVec3(o.translate.value) else Vec3(0.0, 0.0, 0.0),
              Identity4())
  }

  /** Every object's OBJ file de-indexes without reading past its vertex pool. */
  predicate MeshesValid(spec: SceneSpec, basedir: string, parse: string -> ObjMesh.ObjData<real>)
  {
    forall i :: 0 <= i < |spec.objects| ==> ObjMesh.ValidObj(parse(MeshPath(basedir, spec.objects[i])))
  }

  /** One entry of `objects.obj`, loaded: its mesh path, its placement and the de-indexed mesh. */
  function LoadObject(basedir: string, o: ObjectSpec, parse: string -> ObjMesh.ObjData<real>): SceneObject
    requires ObjMesh.ValidObj(parse(MeshPath(basedir, o)))
  {
    SceneObject(MeshPath(basedir, o), ObjectTransform(o), ObjMesh.FlattenObj(parse(MeshPath(basedir, o))))
  }

  /**
    A loaded entry: the mesh comes from basedir/path, translate is zero when
    the key is absent and the entry's components otherwise, and no key of
    the entry changes the rotation from the identity.
  */
  lemma LoadedObjectFields(basedir: string, o: ObjectSpec, parse: string -> ObjMesh.ObjData<real>)
    requires ObjMesh.ValidObj(parse(MeshPath(basedir, o)))
    ensures var obj := LoadObject(basedir, o, parse);
      && (o.path.Some? ==> obj.meshPath == basedir + "/" + o.path.value)
      && (o.path.None? ==> obj.meshPath == basedir + "/")
      && obj.mesh == ObjMesh.FlattenObj(parse(obj.meshPath))
      && obj.transform.rotate == Identity4()
      && (o.translate.None? ==> obj.transform.translate == Vec3(0.0, 0.0, 0.0))
      && (o.translate.Some? ==> obj.transform.translate == JsonVec3(o.translate.value))
  {
  }

  /** The loop body of loadScene: read the entry's OBJ file and build its TriangleMesh. */
  method LoadEntry(basedir: string, o: ObjectSpec, parse: string -> ObjMesh.ObjData<real>)
    returns (obj: SceneObject)
    requires ObjMesh.ValidObj(parse(MeshPath(basedir, o)))
    ensures obj == LoadObject(basedir, o, parse)
  {
    var path := MeshPath(basedir, o);
    var mesh := ObjMesh.LoadObj(parse(path));
    obj := SceneObject(path, ObjectTransform(o), mesh);
  }

  /**
    Scene::loadScene with loadLights and loadMaterials: shader paths relative
    to the scene file's directory, the camera block, the ambient light, no
    materials, and one TriangleMesh per object entry, in file order.
  */
  method LoadScene(spec: SceneSpec, basedir: string, parse: string -> ObjMesh.ObjData<real>)
    returns (scene: Scene)
    requires MeshesValid(spec, basedir, parse)
    ensures spec.vertexShader.Some? ==> scene.vertexShaderPath == basedir + "/" + spec.vertexShader.value
    ensures spec.vertexShader.None? ==> scene.vertexShaderPath == basedir + "/"
    ensures spec.fragmentShader.Some? ==> scene.fragmentShaderPath == basedir + "/" + spec.fragmentShader.value
    ensures spec.fragmentShader.None? ==> scene.fragmentShaderPath == basedir + "/"
    ensures scene.camera == spec.camera
    ensures scene.ambient == JsonVec3(spec.ambient)
    ensures scene.materials == []
    ensures |scene.objects| == |spec.objects|
    ensures forall i :: 0 <= i < |spec.objects| ==> scene.objects[i] == LoadObject(basedir, spec.objects[i], parse)
  {
    var objects := LoadEntries(basedir, spec.objects, parse);
    scene := Scene(JoinPath(basedir, AsString(spec.vertexShader)),
                   JoinPath(basedir, AsString(spec.fragmentShader)),
                   spec.camera, JsonVec3(spec.ambient), [], objects);
  }

  /** The loop over `objects.obj`: one loaded object per entry, in order. */
  method LoadEntries(basedir: string, entries: seq<ObjectSpec>, parse: string -> ObjMesh.ObjData<real>)
    returns (objects: seq<SceneObject>)
    requires forall i :: 0 <= i < |entries| ==> ObjMesh.ValidObj(parse(MeshPath(basedir, entries[i])))
    ensures |objects| == |entries|
    ensures forall i :: 0 <= i < |entries| ==> objects[i] == LoadObject(basedir, entries[i], parse)
  {
    objects := [];
    var i := 0;
    while i < |entries|
      invariant 0 <= i <= |entries|
      invariant |objects| == i
      invariant forall k :: 0 <= k < i ==> objects[k] == LoadObject(basedir, entries[k], parse)
    {
      var loaded := LoadEntry(basedir, entries[i], parse);
      objects := objects + [loaded];
      i := i + 1;
    }
  }

  // ---------------------------------------------------------------------------
  // The attribute map
  // ---------------------------------------------------------------------------

  /** GLint and GLuint: 32-bit signed and unsigned. */
  type GLint = x: int | -0x8000_0000 <= x < 0x8000_0000
  type GLuint = x: int | 0 <= x < 0x1_0000_0000

  /** The implicit GLint -> GLuint conversion: two's complement, modulo 2^32. */
  function ToGLuint(x: GLint): (u: GLuint)
    ensures u % 0x1_0000_0000 == x % 0x1_0000_0000
  {
    if x < 0 then x + 0x1_0000_0000 else x
  }

  /** GLuint -> GLint, reading the top bit as the sign. */
  function ToGLint(u: GLuint): (x: GLint)
    ensures x % 0x1_0000_0000 == u % 0x1_0000_0000
  {
    if u >= 0x8000_0000 then u - 0x1_0000_0000 else u
  }

  /** The conversion loses nothing: every GLint comes back from its GLuint. */
  lemma GLuintRoundTrip(x: GLint)
    ensures ToGLint(ToGLuint(x)) == x
    ensures 0 <= x ==> ToGLuint(x) == x
  {
  }

  /** An attribute the shader lacks (-1) becomes 4294967295 in the map. */
  lemma MissingAttributeWraps()
    ensures ToGLuint(-1) == 0xFFFF_FFFF
  {
  }

  /** What glGetAttribLocation reported for the four attribute names. */
  datatype AttribLocations = AttribLocations(position: GLint, normal: GLint, albedo: GLint, coeffs: GLint)

  /** What glGetUniformLocation reported for the four uniform names. */
  datatype UniformLocations = UniformLocations(model: GLint, view: GLint, projection: GLint, ambient: GLint)

  /**
    var_name_map as Scene::setup fills it. An object's setup reads it with
    operator[], so any name other than the four reads as 0.
  */
  function NameMap(a: AttribLocations): (m: Renderables.VarMap)
    ensures m.Keys == {"position", "normal", "albedo", "coeffs"}
    ensures forall k :: k !in {"position", "normal", "albedo", "coeffs"} ==> Renderables.Lookup(m, k) == 0
    ensures Renderables.Lookup(m, "position") % 0x1_0000_0000 == a.position % 0x1_0000_0000
    ensures Renderables.Lookup(m, "normal") % 0x1_0000_0000 == a.normal % 0x1_0000_0000
    ensures Renderables.Lookup(m, "albedo") % 0x1_0000_0000 == a.albedo % 0x1_0000_0000
    ensures Renderables.Lookup(m, "coeffs") % 0x1_0000_0000 == a.coeffs % 0x1_0000_0000
    ensures forall k :: k in m ==> m[k] < 0x1_0000_0000
  {
    map["position" := ToGLuint(a.position), "normal" := ToGLuint(a.normal),
        "albedo" := ToGLuint(a.albedo), "coeffs" := ToGLuint(a.coeffs)]
  }

  /** Each location GL reported is recovered from the map by the reverse conversion. */
  lemma NameMapRoundTrip(a: AttribLocations)
    ensures ToGLint(Renderables.Lookup(NameMap(a), "position")) == a.position
    ensures ToGLint(Renderables.Lookup(NameMap(a), "normal")) == a.normal
    ensures ToGLint(Renderables.Lookup(NameMap(a), "albedo")) == a.albedo
    ensures ToGLint(Renderables.Lookup(NameMap(a), "coeffs")) == a.coeffs
  {
    GLuintRoundTrip(a.position);
    GLuintRoundTrip(a.normal);
    GLuintRoundTrip(a.albedo);
    GLuintRoundTrip(a.coeffs);
  }

  // ---------------------------------------------------------------------------
  // Setup
  // ---------------------------------------------------------------------------

  /** A loaded object with the vertex array and buffer names its setup generated. */
  datatype GpuObject = GpuObject(loaded: SceneObject, vao: nat, vbo: nat)

  /** The scene after Scene::setup: the program, the locations, the map, the named objects. */
  datatype ReadyScene = ReadyScene(
    scene: Scene,
    program: nat,
    uniforms: UniformLocations,
    varMap: Renderables.VarMap,
    objects: seq<GpuObject>)

  /** Names handed out by glGenVertexArrays / glGenBuffers: never 0, never reused. */
  predicate FreshNames(objs: seq<GpuObject>)
  {
    && (forall i :: 0 <= i < |objs| ==> objs[i].vao != 0 && objs[i].vbo != 0)
    && (forall i, j :: 0 <= i < j < |objs| ==> objs[i].vao != objs[j].vao && objs[i].vbo != objs[j].vbo)
  }

  /** The objects' setup calls, one object after the other, all with the same map. */
  function SetupOps(objs: seq<GpuObject>, varMap: Renderables.VarMap): seq<Op>
  {
    if |objs| == 0 then []
    else
      var o := objs[|objs| - 1];
      SetupOps(objs[..|objs| - 1], varMap) + Renderables.MeshSetupOps(o.vao, o.vbo, o.loaded.mesh, varMap)
  }

  /** The vertex arrays a trace binds, in order, leaving out unbinds. */
  function BoundVaos(ops: seq<Op>): seq<nat>
  {
    if |ops| == 0 then []
    else
      var last := ops[|ops| - 1];
      BoundVaos(ops[..|ops| - 1]) + (if last.BindVertexArray? && last.vaoName != 0 then [last.vaoName] else [])
  }

  lemma {:induction false} BoundVaosAppend(a: seq<Op>, b: seq<Op>)
    ensures BoundVaos(a + b) == BoundVaos(a) + BoundVaos(b)
    decreases |b|
  {
    if |b| == 0 {
      assert a + b == a;
    } else {
      assert (a + b)[..|a + b| - 1] == a + b[..|b| - 1];
      BoundVaosAppend(a, b[..|b| - 1]);
    }
  }

  /** A trace that binds no vertex array (unbinding aside) contributes nothing. */
  lemma {:induction false} BoundVaosNone(ops: seq<Op>)
    requires forall i :: 0 <= i < |ops| ==> !ops[i].BindVertexArray? || ops[i].vaoName == 0
    ensures BoundVaos(ops) == []
  {
    if |ops| > 0 {
      BoundVaosNone(ops[..|ops| - 1]);
    }
  }

  /** TriangleMesh::setup binds its own vertex array once and otherwise only unbinds. */
  lemma MeshSetupBindsOnce(vao: nat, vbo: nat, m: ObjMesh.Mesh<real>, varMap: Renderables.VarMap)
    requires vao != 0
    ensures BoundVaos(Renderables.MeshSetupOps(vao, vbo, m, varMap)) == [vao]
  {
    var ops := Renderables.MeshSetupOps(vao, vbo, m, varMap);
    assert ops == [ops[0]] + ops[1..];
    BoundVaosAppend([ops[0]], ops[1..]);
    assert [ops[0]][..0] == [];
    BoundVaosNone(ops[1..]);
  }

  /** Scene::setup: every object's setup runs exactly once, in load order. */
  lemma {:induction false} SetupVisitsObjectsInOrder(objs: seq<GpuObject>, varMap: Renderables.VarMap)
    requires FreshNames(objs)
    ensures BoundVaos(SetupOps(objs, varMap)) == seq(|objs|, i requires 0 <= i < |objs| => objs[i].vao)
  {
    if |objs| > 0 {
      var o := objs[|objs| - 1];
      var prefix := objs[..|objs| - 1];
      assert FreshNames(prefix);
      SetupVisitsObjectsInOrder(prefix, varMap);
      BoundVaosAppend(SetupOps(prefix, varMap), Renderables.MeshSetupOps(o.vao, o.vbo, o.loaded.mesh, varMap));
      MeshSetupBindsOnce(o.vao, o.vbo, o.loaded.mesh, varMap);
    }
  }

  /** Whether object i of the list is set up in state t: its data uploaded, `position` pointed at it. */
  predicate ObjectReady(t: GLState, o: GpuObject, pos: nat)
  {
    && o.vbo in t.buffers && t.buffers[o.vbo] == o.loaded.mesh.buffer
    && (o.vao, pos) in t.enabled
    && (o.vao, pos) in t.attribs && t.attribs[(o.vao, pos)] == GlState.AttribSource(o.vbo, 3, 0, 0)
  }

  /**
    After Scene::setup every object's buffer holds its mesh and its vertex
    array reads `position` from it; the vertex array and ARRAY_BUFFER are
    left unbound, and the framebuffer, program, uniforms and log are as before.
  */
  lemma {:induction false} SetupEffect(s: GLState, objs: seq<GpuObject>, varMap: Renderables.VarMap)
    requires FreshNames(objs)
    ensures var t := Run(s, SetupOps(objs, varMap));
      && (forall i :: 0 <= i < |objs| ==> ObjectReady(t, objs[i], Renderables.Lookup(varMap, "position")))
      && (|objs| > 0 ==> t.vao == 0 && t.arrayBuffer == 0)
      && t.framebuffer == s.framebuffer && t.program == s.program && t.texture == s.texture
      && t.uniforms == s.uniforms && t.log == s.log
      && t.depthTest == s.depthTest && t.clearColor == s.clearColor && t.viewport == s.viewport
  {
    if |objs| > 0 {
      var o := objs[|objs| - 1];
      var prefix := objs[..|objs| - 1];
      var pos := Renderables.Lookup(varMap, "position");
      assert FreshNames(prefix);
      SetupEffect(s, prefix, varMap);
      var t0 := Run(s, SetupOps(prefix, varMap));
      RunAppend(s, SetupOps(prefix, varMap), Renderables.MeshSetupOps(o.vao, o.vbo, o.loaded.mesh, varMap));
      Renderables.MeshSetupEffect(t0, o.vao, o.vbo, o.loaded.mesh, varMap);
      var t := Run(s, SetupOps(objs, varMap));
      forall i | 0 <= i < |objs|
        ensures ObjectReady(t, objs[i], pos)
      {
        if i < |objs| - 1 {
          assert objs[i] == prefix[i];
          assert ObjectReady(t0, prefix[i], pos);
          assert objs[i].vbo != o.vbo && objs[i].vao != o.vao;
        }
      }
    }
  }

  /** Scene::setup with the names GL generated for the objects. */
  function Setup(scene: Scene, program: nat, uniforms: UniformLocations, attribs: AttribLocations,
                 vaos: seq<nat>, vbos: seq<nat>): (r: ReadyScene)
    requires |vaos| == |scene.objects| && |vbos| == |scene.objects|
    ensures |r.objects| == |scene.objects|
    ensures forall i :: 0 <= i < |r.objects| ==> r.objects[i].loaded == scene.objects[i]
    ensures r.varMap.Keys == {"position", "normal", "albedo", "coeffs"}
  {
    ReadyScene(scene, program, uniforms, NameMap(attribs),
      seq(|scene.objects|, i requires 0 <= i < |scene.objects| => GpuObject(scene.objects[i], vaos[i], vbos[i])))
  }

  // ---------------------------------------------------------------------------
  // Render
  // ---------------------------------------------------------------------------

  /** The uploads Scene::render makes once per frame, before any object. */
  function FrameOps(r: ReadyScene): seq<Op>
  {
    [ UseProgram(r.program),
      SetUniform(r.uniforms.view, ViewOf(r.scene.camera)),
      SetUniform(r.uniforms.projection, ProjectionOf(r.scene.camera)),
      SetUniform(r.uniforms.ambient, AmbientOf(r.scene.ambient)) ]
  }

  /** One object's turn: its model matrix, then its draw. */
  function ObjectPass(o: GpuObject, modelLoc: int): seq<Op>
  {
    [SetUniform(modelLoc, ModelOf(o.loaded.transform))] + Renderables.MeshRenderOps(o.vao, o.loaded.mesh)
  }

  /** The objects' turns, in load order. */
  function ObjectPasses(objs: seq<GpuObject>, modelLoc: int): seq<Op>
  {
    if |objs| == 0 then []
    else ObjectPasses(objs[..|objs| - 1], modelLoc) + ObjectPass(objs[|objs| - 1], modelLoc)
  }

  /** Scene::render. */
  function RenderOps(r: ReadyScene): seq<Op>
  {
    FrameOps(r) + ObjectPasses(r.objects, r.uniforms.model)
  }

  /** The uniforms a frame's draws share: view, projection and ambient on top of what the program held. */
  function FrameUniforms(u: map<int, UniformValue>, r: ReadyScene): map<int, UniformValue>
  {
    var u1 := WriteUniform(u, r.uniforms.view, ViewOf(r.scene.camera));
    var u2 := WriteUniform(u1, r.uniforms.projection, ProjectionOf(r.scene.camera));
    WriteUniform(u2, r.uniforms.ambient, AmbientOf(r.scene.ambient))
  }

  /** The program's uniforms after a frame: the frame's, with the last object's model matrix. */
  function FrameLeftovers(u: map<int, UniformValue>, r: ReadyScene): map<int, UniformValue>
  {
    if |r.objects| == 0 then FrameUniforms(u, r)
    else WriteUniform(FrameUniforms(u, r), r.uniforms.model, ModelOf(r.objects[|r.objects| - 1].loaded.transform))
  }

  /**
    Uploading a frame's uniforms again over what the frame left behind, then
    any model matrix, gives what the first upload and that model matrix gave.
  */
  lemma FrameReupload(u: map<int, UniformValue>, r: ReadyScene, y: UniformValue)
    ensures WriteUniform(FrameUniforms(FrameLeftovers(u, r), r), r.uniforms.model, y)
         == WriteUniform(FrameUniforms(u, r), r.uniforms.model, y)
  {
  }

  /** The draw object i of the list issues, given the uniforms the frame set up. */
  function ObjectDraw(o: GpuObject, program: nat, framebuffer: nat, modelLoc: int,
                      frame: map<int, UniformValue>): Event
  {
    Drawn(o.vao, program, framebuffer, 0, 3 * |o.loaded.mesh.indices|,
          WriteUniform(frame, modelLoc, ModelOf(o.loaded.transform)))
  }

  /** The draws of a frame, one per object, in load order. */
  function FrameDraws(objs: seq<GpuObject>, program: nat, framebuffer: nat, modelLoc: int,
                      frame: map<int, UniformValue>): (es: seq<Event>)
    ensures |es| == |objs|
  {
    seq(|objs|, i requires 0 <= i < |objs| => ObjectDraw(objs[i], program, framebuffer, modelLoc, frame))
  }

  /** One object's turn: its model matrix is set, then it is drawn with it. */
  lemma ObjectPassEffect(t: GLState, o: GpuObject, modelLoc: int)
    requires t.program != 0 && o.vao != 0
    ensures var u := Run(t, ObjectPass(o, modelLoc));
      && u.log == t.log + [ObjectDraw(o, t.program, t.framebuffer, modelLoc, UniformsOf(t, t.program))]
      && u.program == t.program && u.framebuffer == t.framebuffer && u.vao == 0
      && UniformsOf(u, u.program) == WriteUniform(UniformsOf(t, t.program), modelLoc, ModelOf(o.loaded.transform))
  {
    var setModel := SetUniform(modelLoc, ModelOf(o.loaded.transform));
    SetUniformWrites(t, modelLoc, ModelOf(o.loaded.transform));
    RunCons(t, setModel, Renderables.MeshRenderOps(o.vao, o.loaded.mesh));
    Renderables.DrawEffect(Apply(t, setModel), o.vao, 3 * |o.loaded.mesh.indices|);
  }

  /** A frame's draws for one more object end with that object's draw. */
  lemma FrameDrawsSnoc(objs: seq<GpuObject>, program: nat, framebuffer: nat, modelLoc: int,
                       frame: map<int, UniformValue>)
    requires |objs| > 0
    ensures FrameDraws(objs, program, framebuffer, modelLoc, frame)
         == FrameDraws(objs[..|objs| - 1], program, framebuffer, modelLoc, frame)
            + [ObjectDraw(objs[|objs| - 1], program, framebuffer, modelLoc, frame)]
  {
  }

  /**
    The object turns with the program bound: one draw per object, in order,
    each seeing the frame's uniforms with its own model matrix; the program
    and framebuffer stay, and the program's uniforms end with the last
    object's model matrix.
  */
  lemma {:induction false} PassesEffect(t: GLState, objs: seq<GpuObject>, modelLoc: int)
    requires t.program != 0
    requires forall i :: 0 <= i < |objs| ==> objs[i].vao != 0
    ensures var u := Run(t, ObjectPasses(objs, modelLoc));
      && u.log == t.log + FrameDraws(objs, t.program, t.framebuffer, modelLoc, UniformsOf(t, t.program))
      && u.program == t.program && u.framebuffer == t.framebuffer
      && u.vao == (if |objs| == 0 then t.vao else 0)
      && UniformsOf(u, u.program) == (if |objs| == 0 then UniformsOf(t, t.program)
           else WriteUniform(UniformsOf(t, t.program), modelLoc, ModelOf(objs[|objs| - 1].loaded.transform)))
  {
    if |objs| > 0 {
      var o := objs[|objs| - 1];
      var prefix := objs[..|objs| - 1];
      var u0 := UniformsOf(t, t.program);
      PassesEffect(t, prefix, modelLoc);
      var t0 := Run(t, ObjectPasses(prefix, modelLoc));
      RunAppend(t, ObjectPasses(prefix, modelLoc), ObjectPass(o, modelLoc));
      ObjectPassEffect(t0, o, modelLoc);
      var y := ModelOf(o.loaded.transform);
      assert WriteUniform(UniformsOf(t0, t.program), modelLoc, y) == WriteUniform(u0, modelLoc, y);
      FrameDrawsSnoc(objs, t.program, t.framebuffer, modelLoc, u0);
    }
  }

  /**
    Scene::render with a linked program: the program is left in use and every object is drawn once, in load order,
    seeing the camera's view and projection, the ambient light and its own
    model transform, in whatever framebuffer was bound. A uniform the shader
    lacks (location -1) is written nowhere.
  */
  lemma RenderEffect(s: GLState, r: ReadyScene)
    requires r.program != 0
    requires forall i :: 0 <= i < |r.objects| ==> r.objects[i].vao != 0
    ensures var u := Run(s, RenderOps(r));
      && u.log == s.log + FrameDraws(r.objects, r.program, s.framebuffer, r.uniforms.model,
                                    FrameUniforms(UniformsOf(s, r.program), r))
      && u.program == r.program && u.framebuffer == s.framebuffer
      && (|r.objects| > 0 ==> u.vao == 0)
      && UniformsOf(u, r.program) == FrameLeftovers(UniformsOf(s, r.program), r)
  {
    RunAppend(s, FrameOps(r), ObjectPasses(r.objects, r.uniforms.model));
    var t := FrameOpsEffect(s, r);
    PassesEffect(t, r.objects, r.uniforms.model);
  }

  /**
    The frame prologue makes the program current and writes the view,
    projection and ambient uniforms; it draws nothing and keeps the
    framebuffer.
  */
  lemma FrameOpsEffect(s: GLState, r: ReadyScene) returns (t: GLState)
    requires r.program != 0
    ensures t == Run(s, FrameOps(r))
    ensures t.program == r.program && t.framebuffer == s.framebuffer && t.log == s.log
    ensures UniformsOf(t, r.program) == FrameUniforms(UniformsOf(s, r.program), r)
  {
    var f := FrameOps(r);
    RunCons(s, f[0], f[1..]);
    Run3(Apply(s, f[0]), f[1..]);
    var s0 := Apply(s, f[0]);
    SetUniformWrites(s0, r.uniforms.view, ViewOf(r.scene.camera));
    var s1 := Apply(s0, f[1]);
    SetUniformWrites(s1, r.uniforms.projection, ProjectionOf(r.scene.camera));
    var s2 := Apply(s1, f[2]);
    SetUniformWrites(s2, r.uniforms.ambient, AmbientOf(r.scene.ambient));
    t := Apply(s2, f[3]);
  }

  /**
    Every model-matrix upload of a frame comes after the view, projection and
    ambient uploads, and after the first four calls only the model location
    is written.
  */
  lemma {:induction false} PassesSetOnlyModel(objs: seq<GpuObject>, modelLoc: int)
    ensures forall k :: 0 <= k < |ObjectPasses(objs, modelLoc)| && ObjectPasses(objs, modelLoc)[k].SetUniform? ==>
      ObjectPasses(objs, modelLoc)[k].uniformLocation == modelLoc
  {
    if |objs| > 0 {
      var prefix := objs[..|objs| - 1];
      PassesSetOnlyModel(prefix, modelLoc);
      var a: seq<Op> := ObjectPasses(prefix, modelLoc);
      var b: seq<Op> := ObjectPass(objs[|objs| - 1], modelLoc);
      forall k | 0 <= k < |a + b| && (a + b)[k].SetUniform?
        ensures (a + b)[k].uniformLocation == modelLoc
      {
        if k >= |a| {
          assert (a + b)[k] == b[k - |a|];
        }
      }
    }
  }

  /** Scene::render sets view, projection and ambient once, first; the objects only touch the model. */
  lemma RenderUploadOrder(r: ReadyScene)
    ensures |RenderOps(r)| >= 4
    ensures RenderOps(r)[0] == UseProgram(r.program)
    ensures RenderOps(r)[1..4] == [SetUniform(r.uniforms.view, ViewOf(r.scene.camera)),
                                    SetUniform(r.uniforms.projection, ProjectionOf(r.scene.camera)),
                                    SetUniform(r.uniforms.ambient, AmbientOf(r.scene.ambient))]
    ensures forall k :: 4 <= k < |RenderOps(r)| && RenderOps(r)[k].SetUniform? ==>
      RenderOps(r)[k].uniformLocation == r.uniforms.model
  {
    var ops := RenderOps(r);
    var p := ObjectPasses(r.objects, r.uniforms.model);
    PassesSetOnlyModel(r.objects, r.uniforms.model);
    forall k | 4 <= k < |ops| && ops[k].SetUniform?
      ensures ops[k].uniformLocation == r.uniforms.model
    {
      assert ops[k] == p[k - 4];
    }
  }

  // ---------------------------------------------------------------------------
  // The earlier Scene::render of src/main.cc, used by the offscreen render
  // ---------------------------------------------------------------------------

  /**
    Its once-per-frame uploads: the model matrix is set to the identity, then
    view and projection; no ambient light is uploaded.
  */
  function MainFrameOps(r: ReadyScene): seq<Op>
  {
    [ UseProgram(r.program),
      SetUniform(r.uniforms.model, IdentityMatrix),
      SetUniform(r.uniforms.view, ViewOf(r.scene.camera)),
      SetUniform(r.uniforms.projection, ProjectionOf(r.scene.camera)) ]
  }

  /**
    Its object loop: each object is only drawn, with no per-object upload,
    through TriangleMesh::render of the same file, which draws three vertices.
  */
  function DrawPasses(objs: seq<GpuObject>): seq<Op>
  {
    if |objs| == 0 then []
    else
      var o := objs[|objs| - 1];
      DrawPasses(objs[..|objs| - 1]) + Renderables.MeshRenderOpsAsWritten(o.vao, o.loaded.mesh)
  }

  /** Scene::render of src/main.cc. */
  function MainRenderOps(r: ReadyScene): seq<Op>
  {
    MainFrameOps(r) + DrawPasses(r.objects)
  }

  /** The uniforms every draw of that render sees. */
  function MainFrameUniforms(u: map<int, UniformValue>, r: ReadyScene): map<int, UniformValue>
  {
    var u1 := WriteUniform(u, r.uniforms.model, IdentityMatrix);
    var u2 := WriteUniform(u1, r.uniforms.view, ViewOf(r.scene.camera));
    WriteUniform(u2, r.uniforms.projection, ProjectionOf(r.scene.camera))
  }

  /**
    The draws of that render, one per object, in load order, all seeing the
    same uniforms and each covering only the first three vertices.
  */
  function MainFrameDraws(objs: seq<GpuObject>, program: nat, framebuffer: nat,
                          frame: map<int, UniformValue>): (es: seq<Event>)
    ensures |es| == |objs|
  {
    seq(|objs|, i requires 0 <= i < |objs| =>
      Drawn(objs[i].vao, program, framebuffer, 0, 3, frame))
  }

  /**
    In that render every object is drawn with the identity model matrix,
    whatever its placement, and the ambient location keeps whatever it held:
    any location other than model, view and projection is left alone.
  */
  lemma MainFrameUniformsAt(u: map<int, UniformValue>, r: ReadyScene)
    ensures var m := r.uniforms.model;
      m != -1 && m != r.uniforms.view && m != r.uniforms.projection ==>
        m in MainFrameUniforms(u, r) && MainFrameUniforms(u, r)[m] == IdentityMatrix
    ensures forall k :: k != r.uniforms.model && k != r.uniforms.view && k != r.uniforms.projection ==>
      (k in MainFrameUniforms(u, r) <==> k in u) && (k in u ==> MainFrameUniforms(u, r)[k] == u[k])
  {
  }

  /** The object loop of that render: one three-vertex draw per object, in order, uniforms untouched. */
  lemma {:induction false} DrawPassesEffect(t: GLState, objs: seq<GpuObject>)
    requires forall i :: 0 <= i < |objs| ==> objs[i].vao != 0
    ensures var u := Run(t, DrawPasses(objs));
      && u.log == t.log + MainFrameDraws(objs, t.program, t.framebuffer, UniformsOf(t, t.program))
      && u.program == t.program && u.framebuffer == t.framebuffer && u.uniforms == t.uniforms
      && u.vao == (if |objs| == 0 then t.vao else 0)
  {
    if |objs| > 0 {
      var o := objs[|objs| - 1];
      var prefix := objs[..|objs| - 1];
      DrawPassesEffect(t, prefix);
      var t0 := Run(t, DrawPasses(prefix));
      RunAppend(t, DrawPasses(prefix), Renderables.MeshRenderOpsAsWritten(o.vao, o.loaded.mesh));
      Renderables.DrawEffect(t0, o.vao, 3);
      var frame := UniformsOf(t, t.program);
      assert MainFrameDraws(objs, t.program, t.framebuffer, frame)
          == MainFrameDraws(prefix, t.program, t.framebuffer, frame)
             + [Drawn(o.vao, t.program, t.framebuffer, 0, 3, frame)];
    }
  }

  /** The once-per-frame uploads of that render: program, identity model, view, projection. */
  lemma MainFrameOpsEffect(s: GLState, r: ReadyScene) returns (t: GLState)
    requires r.program != 0
    ensures t == Run(s, MainFrameOps(r))
    ensures t.program == r.program && t.framebuffer == s.framebuffer && t.log == s.log
    ensures UniformsOf(t, r.program) == MainFrameUniforms(UniformsOf(s, r.program), r)
  {
    var f := MainFrameOps(r);
    RunCons(s, f[0], f[1..]);
    Run3(Apply(s, f[0]), f[1..]);
    var s0 := Apply(s, f[0]);
    SetUniformWrites(s0, r.uniforms.model, IdentityMatrix);
    var s1 := Apply(s0, f[1]);
    SetUniformWrites(s1, r.uniforms.view, ViewOf(r.scene.camera));
    var s2 := Apply(s1, f[2]);
    SetUniformWrites(s2, r.uniforms.projection, ProjectionOf(r.scene.camera));
    t := Apply(s2, f[3]);
  }

  /**
    Scene::render of src/main.cc: every object is drawn once, in load order,
    three vertices each, in the bound framebuffer, all seeing the same uniforms, which are the
    program's with the identity model, the view and the projection written.
  */
  lemma MainRenderEffect(s: GLState, r: ReadyScene)
    requires r.program != 0
    requires forall i :: 0 <= i < |r.objects| ==> r.objects[i].vao != 0
    ensures var u := Run(s, MainRenderOps(r));
      && u.log == s.log + MainFrameDraws(r.objects, r.program, s.framebuffer,
                                        MainFrameUniforms(UniformsOf(s, r.program), r))
      && u.program == r.program && u.framebuffer == s.framebuffer
      && UniformsOf(u, r.program) == MainFrameUniforms(UniformsOf(s, r.program), r)
  {
    RunAppend(s, MainFrameOps(r), DrawPasses(r.objects));
    var t := MainFrameOpsEffect(s, r);
    DrawPassesEffect(t, r.objects);
  }
}
