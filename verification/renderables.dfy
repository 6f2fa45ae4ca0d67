/**
  The two renderable objects of the program, TestTriangle and TriangleMesh,
  as the GL call traces their setup and render routines issue. Generated GL
  names (vertex array and buffer) are parameters: the driver hands them out
  and never hands out 0.
*/
module Renderables {
  import opened Basics
  import opened GlState
  import ObjMesh

  /** The name -> attribute location map passed to setup (GLSLVarMap). */
  type VarMap = map<string, nat>

  /** `var_map[name]`: std::map::operator[] reads a missing key as 0. */
  function Lookup(m: VarMap, name: string): nat
  {
    if name in m then m[name] else 0
  }

  // ---------------------------------------------------------------------------
  // TestTriangle
  // ---------------------------------------------------------------------------

  /** The interleaved x,y,z,r,g,b data TestTriangle uploads, one vertex per row. */
  function TestTriangleData(): (d: seq<real>)
    ensures |d| == 18
  {
    [ -0.6, -0.4, 0.0, 1.0, 0.0, 0.0,
       0.6, -0.4, 0.0, 0.0, 1.0, 0.0,
       0.0,  0.6, 0.0, 0.0, 0.0, 1.0 ]
  }

  /** sizeof one interleaved vertex: six floats. */
  const TestTriangleStride: nat := 24

  /** TestTriangle::setup. */
  function TestTriangleSetupOps(vao: nat, vbo: nat, varMap: VarMap): seq<Op>
  {
    var pos := Lookup(varMap, "position");
    var col := Lookup(varMap, "albedo");
    [ BindVertexArray(vao),
      BindArrayBuffer(vbo),
      BufferData(TestTriangleData()),
      EnableAttrib(pos),
      SetAttribPointer(pos, 3, TestTriangleStride, 0),
      EnableAttrib(col),
      SetAttribPointer(col, 3, TestTriangleStride, 12),
      BindArrayBuffer(0),
      BindVertexArray(0) ]
  }

  /** TestTriangle::render (and TriangleMesh::render as written): three vertices. */
  function DrawThreeOps(vao: nat): seq<Op>
  {
    [BindVertexArray(vao), DrawTriangles(0, 3), BindVertexArray(0)]
  }

  // ---------------------------------------------------------------------------
  // TriangleMesh
  // ---------------------------------------------------------------------------

  /** Bytes uploaded by TriangleMesh::setup: mBuffer.size() * sizeof(float). */
  function UploadBytes(m: ObjMesh.Mesh<real>): nat
  {
    |m.buffer| * 4
  }

  /** A loaded mesh uploads 36 bytes per face: nine floats of four bytes. */
  lemma LoadedMeshUploadBytes(obj: ObjMesh.ObjData<real>)
    requires ObjMesh.ValidObj(obj)
    ensures UploadBytes(ObjMesh.FlattenObj(obj)) == 36 * ObjMesh.FaceCount(obj.shapes)
  {
    ObjMesh.LoadedMeshLayout(obj);
  }

  /** TriangleMesh::setup: upload mBuffer and point `position` at it, tightly packed. */
  function MeshSetupOps(vao: nat, vbo: nat, m: ObjMesh.Mesh<real>, varMap: VarMap): seq<Op>
  {
    var pos := Lookup(varMap, "position");
    [ BindVertexArray(vao),
      BindArrayBuffer(vbo),
      BufferData(m.buffer),
      EnableAttrib(pos),
      SetAttribPointer(pos, 3, 0, 0),
      BindArrayBuffer(0),
      BindVertexArray(0) ]
  }

  /** TriangleMesh::render as written: always three vertices, whatever the face count. */
  function MeshRenderOpsAsWritten(vao: nat, m: ObjMesh.Mesh<real>): seq<Op>
  {
    DrawThreeOps(vao)
  }

  /** TriangleMesh::render drawing every flattened corner: three per face. */
  function MeshRenderOps(vao: nat, m: ObjMesh.Mesh<real>): seq<Op>
  {
    [BindVertexArray(vao), DrawTriangles(0, 3 * |m.indices|), BindVertexArray(0)]
  }

  // ---------------------------------------------------------------------------
  // Effects
  // ---------------------------------------------------------------------------

  /**
    TestTriangle::setup leaves ARRAY_BUFFER and the vertex array unbound,
    uploads the 18 floats into its buffer and points `position` and `albedo`
    at the interleaved data; nothing else changes.
  */
  lemma TestTriangleSetupEffect(s: GLState, vao: nat, vbo: nat, varMap: VarMap)
    requires vao != 0 && vbo != 0
    ensures var pos, col := Lookup(varMap, "position"), Lookup(varMap, "albedo");
      Run(s, TestTriangleSetupOps(vao, vbo, varMap)) == s.(
        vao := 0, arrayBuffer := 0,
        buffers := s.buffers[vbo := TestTriangleData()],
        enabled := s.enabled + {(vao, pos)} + {(vao, col)},
        attribs := s.attribs[(vao, pos) := AttribSource(vbo, 3, 24, 0)]
                            [(vao, col) := AttribSource(vbo, 3, 24, 12)])
  {
    Run9(s, TestTriangleSetupOps(vao, vbo, varMap));
  }

  /**
    TriangleMesh::setup leaves ARRAY_BUFFER and the vertex array unbound,
    stores mBuffer in its buffer and points `position` at it with three
    floats per vertex, tightly packed; nothing else changes.
  */
  lemma MeshSetupEffect(s: GLState, vao: nat, vbo: nat, m: ObjMesh.Mesh<real>, varMap: VarMap)
    requires vao != 0 && vbo != 0
    ensures var pos := Lookup(varMap, "position");
      Run(s, MeshSetupOps(vao, vbo, m, varMap)) == s.(
        vao := 0, arrayBuffer := 0,
        buffers := s.buffers[vbo := m.buffer],
        enabled := s.enabled + {(vao, pos)},
        attribs := s.attribs[(vao, pos) := AttribSource(vbo, 3, 0, 0)])
  {
    Run7(s, MeshSetupOps(vao, vbo, m, varMap));
  }

  /**
    A render trace binds its vertex array, issues one draw that sees the
    current program, framebuffer and uniforms, and unbinds the vertex array;
    nothing else changes.
  */
  lemma DrawEffect(s: GLState, vao: nat, count: nat)
    requires vao != 0
    ensures Run(s, [BindVertexArray(vao), DrawTriangles(0, count), BindVertexArray(0)]) == s.(
      vao := 0,
      log := s.log + [Drawn(vao, s.program, s.framebuffer, 0, count, UniformsOf(s, s.program))])
  {
    Run3(s, [BindVertexArray(vao), DrawTriangles(0, count), BindVertexArray(0)]);
  }

  // ---------------------------------------------------------------------------
  // What the vertex shader reads
  // ---------------------------------------------------------------------------

  /** Byte distance between consecutive vertices of an attribute; 0 means tightly packed. */
  function EffectiveStride(src: AttribSource): nat
  {
    if src.strideBytes == 0 then src.size * 4 else src.strideBytes
  }

  /** Index of float j of vertex v in the attribute's buffer. */
  function FetchIndex(src: AttribSource, v: nat, j: nat): nat
  {
    (src.offsetBytes + v * EffectiveStride(src)) / 4 + j
  }

  /**
    Component j of vertex v as attribute `loc` of vertex array `vao` reads it;
    None when the attribute has no pointer or the read falls outside the data.
  */
  function Fetch(s: GLState, vao: nat, loc: nat, v: nat, j: nat): Option<real>
  {
    if (vao, loc) !in s.attribs then None
    else
      var src := s.attribs[(vao, loc)];
      if src.buffer !in s.buffers || FetchIndex(src, v, j) >= |s.buffers[src.buffer]| then None
      else Some(s.buffers[src.buffer][FetchIndex(src, v, j)])
  }

  /**
    After TriangleMesh::setup, vertex v of the `position` attribute is the
    mesh's corner vertex v: the upload buffer is read back three floats per
    vertex in corner order.
  */
  lemma MeshPositionFetch(s: GLState, vao: nat, vbo: nat, m: ObjMesh.Mesh<real>, varMap: VarMap,
                          v: nat, j: nat)
    requires vao != 0 && vbo != 0
    requires m.buffer == ObjMesh.Flatten(m.vertices)
    requires v < |m.vertices| && j < 3
    ensures Fetch(Run(s, MeshSetupOps(vao, vbo, m, varMap)), vao, Lookup(varMap, "position"), v, j)
         == Some(m.vertices[v].Coord(j))
  {
    MeshSetupEffect(s, vao, vbo, m, varMap);
    assert (0 + v * 12) / 4 + j == 3 * v + j;
    ObjMesh.FlattenAt(m.vertices, v, j);
  }

  /**
    After TestTriangle::setup, with distinct `position` and `albedo`
    locations, vertex v reads its x,y,z and its r,g,b from the interleaved
    data.
  */
  lemma TestTriangleFetch(s: GLState, vao: nat, vbo: nat, varMap: VarMap, v: nat, j: nat)
    requires vao != 0 && vbo != 0
    requires Lookup(varMap, "position") != Lookup(varMap, "albedo")
    requires v < 3 && j < 3
    ensures var t := Run(s, TestTriangleSetupOps(vao, vbo, varMap));
      && Fetch(t, vao, Lookup(varMap, "position"), v, j) == Some(TestTriangleData()[6 * v + j])
      && Fetch(t, vao, Lookup(varMap, "albedo"), v, j) == Some(TestTriangleData()[6 * v + 3 + j])
  {
    TestTriangleSetupEffect(s, vao, vbo, varMap);
    var t := Run(s, TestTriangleSetupOps(vao, vbo, varMap));
    var pos, col := Lookup(varMap, "position"), Lookup(varMap, "albedo");
    assert t.buffers[vbo] == TestTriangleData();
    assert t.attribs[(vao, pos)] == AttribSource(vbo, 3, TestTriangleStride, 0);
    assert t.attribs[(vao, col)] == AttribSource(vbo, 3, TestTriangleStride, 12);
    InterleavedFetch(t, vao, pos, vbo, 0, v, j);
    InterleavedFetch(t, vao, col, vbo, 3, v, j);
  }

  /**
    An attribute pointing into the interleaved data with the 24-byte stride,
    `first` floats in, reads float j of vertex v at 6v + first + j.
  */
  lemma InterleavedFetch(t: GLState, vao: nat, loc: nat, vbo: nat, first: nat, v: nat, j: nat)
    requires first == 0 || first == 3
    requires vbo in t.buffers && t.buffers[vbo] == TestTriangleData()
    requires (vao, loc) in t.attribs
    requires t.attribs[(vao, loc)] == AttribSource(vbo, 3, TestTriangleStride, 4 * first)
    requires v < 3 && j < 3
    ensures Fetch(t, vao, loc, v, j) == Some(TestTriangleData()[6 * v + first + j])
  {
    assert 4 * first + v * 24 == 4 * (6 * v + first);
    assert FetchIndex(t.attribs[(vao, loc)], v, j) == 6 * v + first + j;
  }

  // ---------------------------------------------------------------------------
  // How much of the mesh a render draws
  // ---------------------------------------------------------------------------

  /** The vertex count of the one draw a render trace issues. */
  function DrawCount(ops: seq<Op>): nat
    requires |ops| == 3 && ops[1].DrawTriangles?
  {
    ops[1].count
  }

  /**
    As written, TriangleMesh::render draws three vertices whatever the mesh.
    For a mesh of two or more faces, vertex 3 (the first corner of the second
    face) is uploaded and fetchable after setup but lies outside the draw.
  */
  lemma MeshRenderAsWrittenDrawsOneFace(s: GLState, vao: nat, vbo: nat, m: ObjMesh.Mesh<real>, varMap: VarMap)
    requires vao != 0 && vbo != 0
    requires m.buffer == ObjMesh.Flatten(m.vertices)
    requires |m.vertices| == 3 * |m.indices| && |m.indices| >= 2
    ensures DrawCount(MeshRenderOpsAsWritten(vao, m)) == 3 < |m.vertices|
    ensures forall j: nat :: j < 3 ==>
      Fetch(Run(s, MeshSetupOps(vao, vbo, m, varMap)), vao, Lookup(varMap, "position"), 3, j)
        == Some(m.vertices[3].Coord(j))
  {
    forall j: nat | j < 3
      ensures Fetch(Run(s, MeshSetupOps(vao, vbo, m, varMap)), vao, Lookup(varMap, "position"), 3, j)
           == Some(m.vertices[3].Coord(j))
    {
      MeshPositionFetch(s, vao, vbo, m, varMap, 3, j);
    }
  }

  /**
    Drawing three vertices per face covers the mesh exactly: after setup,
    every vertex the draw reaches fetches its corner vertex, and the draw
    reaches every corner vertex.
  */
  lemma MeshRenderDrawsEveryFace(s: GLState, vao: nat, vbo: nat, m: ObjMesh.Mesh<real>, varMap: VarMap)
    requires vao != 0 && vbo != 0
    requires m.buffer == ObjMesh.Flatten(m.vertices)
    requires |m.vertices| == 3 * |m.indices|
    ensures DrawCount(MeshRenderOps(vao, m)) == |m.vertices|
    ensures forall v: nat, j: nat :: v < DrawCount(MeshRenderOps(vao, m)) && j < 3 ==>
      Fetch(Run(s, MeshSetupOps(vao, vbo, m, varMap)), vao, Lookup(varMap, "position"), v, j)
        == Some(m.vertices[v].Coord(j))
  {
    forall v: nat, j: nat | v < DrawCount(MeshRenderOps(vao, m)) && j < 3
      ensures Fetch(Run(s, MeshSetupOps(vao, vbo, m, varMap)), vao, Lookup(varMap, "position"), v, j)
           == Some(m.vertices[v].Coord(j))
    {
      MeshPositionFetch(s, vao, vbo, m, varMap, v, j);
    }
  }
}
