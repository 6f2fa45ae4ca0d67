/**
  De-indexing of a parsed OBJ file, as TriangleMesh::loadObj does it.

  The OBJ parser's output is reduced to what the loader reads: the flat
  coordinate list `attrib.vertices` and, for every shape, the `vertex_index`
  of each entry of `mesh.indices`. Coordinates are only copied, so their type
  is a parameter.
*/
module ObjMesh {
  import opened Basics

  /** The parser's output: flat x,y,z coordinates and per-shape index lists. */
  datatype ObjData<T> = ObjData(coords: seq<T>, shapes: seq<seq<int>>)

  /** One face: three vertex indices into the raw vertex pool (a glm::ivec3). */
  datatype Face = Face(a: int, b: int, c: int)
  {
    function Corner(k: int): int
      requires 0 <= k < 3
    {
      if k == 0 then a else if k == 1 then b else c
    }
  }

  /**
    A loaded mesh: the face list (mIndices), the per-corner vertex list
    (mVertices) and the float upload buffer (mBuffer).
  */
  datatype Mesh<T> = Mesh(indices: seq<Face>, vertices: seq<Vec3<T>>, buffer: seq<T>)

  /** Regroups flat coordinates into vertices; a trailing partial triple is ignored. */
  function RawPool<T>(coords: seq<T>): (raw: seq<Vec3<T>>)
  {
    seq(|coords| / 3, i requires 0 <= i < |coords| / 3 =>
      Vec3(coords[3 * i], coords[3 * i + 1], coords[3 * i + 2]))
  }

  /** Writes vertices out as consecutive x,y,z coordinates. */
  function Flatten<T>(vs: seq<Vec3<T>>): (cs: seq<T>)
    ensures |cs| == 3 * |vs|
  {
    if |vs| == 0 then [] else Flatten(vs[..|vs| - 1]) + vs[|vs| - 1].Coords()
  }

  /** The complete index triples of one shape, in order; a partial triple is dropped. */
  function ShapeFaces(idx: seq<int>): (fs: seq<Face>)
  {
    seq(|idx| / 3, f requires 0 <= f < |idx| / 3 =>
      Face(idx[3 * f], idx[3 * f + 1], idx[3 * f + 2]))
  }

  /** The faces of all shapes, shape by shape. */
  function AllFaces(shapes: seq<seq<int>>): (fs: seq<Face>)
  {
    if |shapes| == 0 then []
    else AllFaces(shapes[..|shapes| - 1]) + ShapeFaces(shapes[|shapes| - 1])
  }

  /** Number of complete triples summed over the shapes. */
  function FaceCount(shapes: seq<seq<int>>): nat
  {
    if |shapes| == 0 then 0
    else FaceCount(shapes[..|shapes| - 1]) + |shapes[|shapes| - 1]| / 3
  }

  /** Every corner of every face indexes a vertex of a pool of size n. */
  predicate FacesIn(fs: seq<Face>, n: int)
  {
    forall f, k :: 0 <= f < |fs| && 0 <= k < 3 ==> 0 <= fs[f].Corner(k) < n
  }

  /**
    The loader indexes the raw pool with every vertex_index of a complete
    triple and never checks it; that is what the model requires.
  */
  predicate ValidObj<T>(obj: ObjData<T>)
  {
    forall s, j :: 0 <= s < |obj.shapes| && 0 <= j < 3 * (|obj.shapes[s]| / 3) ==>
      0 <= obj.shapes[s][j] < |obj.coords| / 3
  }

  /** The three pool vertices of one face, corner by corner. */
  function FaceCorners<T>(raw: seq<Vec3<T>>, face: Face): (vs: seq<Vec3<T>>)
    requires 0 <= face.a < |raw| && 0 <= face.b < |raw| && 0 <= face.c < |raw|
  {
    [raw[face.a], raw[face.b], raw[face.c]]
  }

  /** The per-corner vertex list of a face list. */
  function CornerVertices<T>(raw: seq<Vec3<T>>, fs: seq<Face>): (vs: seq<Vec3<T>>)
    requires FacesIn(fs, |raw|)
    ensures |vs| == 3 * |fs|
  {
    if |fs| == 0 then []
    else
      assert 0 <= fs[|fs| - 1].Corner(0) < |raw| && 0 <= fs[|fs| - 1].Corner(1) < |raw|
        && 0 <= fs[|fs| - 1].Corner(2) < |raw|;
      CornerVertices(raw, fs[..|fs| - 1]) + FaceCorners(raw, fs[|fs| - 1])
  }

  /** The reference meaning of loadObj: pool, faces, corners, then the flat buffer. */
  function FlattenObj<T>(obj: ObjData<T>): (m: Mesh<T>)
    requires ValidObj(obj)
  {
    ValidFaces(obj);
    var vs := CornerVertices(RawPool(obj.coords), AllFaces(obj.shapes));
    Mesh(AllFaces(obj.shapes), vs, Flatten(vs))
  }

  // ---------------------------------------------------------------------------
  // Lemmas about the pieces
  // ---------------------------------------------------------------------------

  /** Coordinate j of vertex i sits at position 3i+j of the flattening. */
  lemma {:induction false} FlattenAt<T>(vs: seq<Vec3<T>>, i: int, j: int)
    requires 0 <= i < |vs| && 0 <= j < 3
    ensures Flatten(vs)[3 * i + j] == vs[i].Coord(j)
  {
    var n := |vs|;
    if i < n - 1 {
      FlattenAt(vs[..n - 1], i, j);
      assert 3 * i + j < 3 * (n - 1);
    } else {
      assert Flatten(vs)[3 * i + j] == vs[n - 1].Coords()[j];
    }
  }

  /** Appending one vertex appends its three coordinates. */
  lemma FlattenSnoc<T>(vs: seq<Vec3<T>>, v: Vec3<T>)
    ensures Flatten(vs + [v]) == Flatten(vs) + v.Coords()
  {
    assert (vs + [v])[..|vs|] == vs;
  }

  /** Regrouping a flattened vertex list gives the list back. */
  lemma FlattenThenRegroup<T>(vs: seq<Vec3<T>>)
    ensures RawPool(Flatten(vs)) == vs
  {
    var cs := Flatten(vs);
    assert |RawPool(cs)| == |vs|;
    forall i | 0 <= i < |vs|
      ensures RawPool(cs)[i] == vs[i]
    {
      FlattenAt(vs, i, 0);
      FlattenAt(vs, i, 1);
      FlattenAt(vs, i, 2);
    }
  }

  /** Regrouping then flattening drops exactly the leftover coordinates. */
  lemma RegroupThenFlatten<T>(cs: seq<T>)
    ensures Flatten(RawPool(cs)) == cs[..3 * (|cs| / 3)]
  {
    var raw := RawPool(cs);
    var fl := Flatten(raw);
    assert |fl| == 3 * (|cs| / 3);
    forall p | 0 <= p < |fl|
      ensures fl[p] == cs[p]
    {
      var i, j := p / 3, p % 3;
      assert p == 3 * i + j;
      FlattenAt(raw, i, j);
    }
  }

  /** The pool has one vertex per complete coordinate triple. */
  lemma RawPoolAt<T>(coords: seq<T>, i: int)
    requires 0 <= i < |coords| / 3
    ensures |RawPool(coords)| == |coords| / 3
    ensures RawPool(coords)[i] == Vec3(coords[3 * i], coords[3 * i + 1], coords[3 * i + 2])
  {
  }

  /** A shape contributes its complete triples only: the trailing partial one is dropped. */
  lemma ShapeFacesDropsPartial(idx: seq<int>)
    ensures |ShapeFaces(idx)| == |idx| / 3
    ensures ShapeFaces(idx) == ShapeFaces(idx[..3 * (|idx| / 3)])
    ensures forall f :: 0 <= f < |idx| / 3 ==>
      ShapeFaces(idx)[f] == Face(idx[3 * f], idx[3 * f + 1], idx[3 * f + 2])
  {
  }

  /** Faces of a concatenation of shape lists are the concatenation of their faces. */
  lemma {:induction false} AllFacesAppend(s1: seq<seq<int>>, s2: seq<seq<int>>)
    ensures AllFaces(s1 + s2) == AllFaces(s1) + AllFaces(s2)
  {
    if |s2| == 0 {
      assert s1 + s2 == s1;
    } else {
      var n := |s2|;
      var all := s1 + s2;
      var init := s2[..n - 1];
      assert all[..|all| - 1] == s1 + init;
      assert all[|all| - 1] == s2[n - 1];
      AllFacesAppend(s1, init);
      calc {
        AllFaces(all);
        AllFaces(s1 + init) + ShapeFaces(s2[n - 1]);
        AllFaces(s1) + AllFaces(init) + ShapeFaces(s2[n - 1]);
        AllFaces(s1) + (AllFaces(init) + ShapeFaces(s2[n - 1]));
        AllFaces(s1) + AllFaces(s2);
      }
    }
  }

  /** There are exactly FaceCount(shapes) faces. */
  lemma {:induction false} AllFacesCount(shapes: seq<seq<int>>)
    ensures |AllFaces(shapes)| == FaceCount(shapes)
  {
    if |shapes| > 0 {
      AllFacesCount(shapes[..|shapes| - 1]);
    }
  }

  /** Valid index data puts every face corner inside the pool. */
  lemma {:induction false} ValidFacesPrefix<T>(obj: ObjData<T>, n: int)
    requires ValidObj(obj)
    requires 0 <= n <= |obj.shapes|
    ensures FacesIn(AllFaces(obj.shapes[..n]), |obj.coords| / 3)
  {
    if n > 0 {
      ValidFacesPrefix(obj, n - 1);
      var pre := obj.shapes[..n];
      assert pre[..n - 1] == obj.shapes[..n - 1];
      var idx := obj.shapes[n - 1];
      var fs := ShapeFaces(idx);
      forall f, k | 0 <= f < |fs| && 0 <= k < 3
        ensures 0 <= fs[f].Corner(k) < |obj.coords| / 3
      {
        assert fs[f].Corner(k) == idx[3 * f + k];
      }
    }
  }

  lemma ValidFaces<T>(obj: ObjData<T>)
    requires ValidObj(obj)
    ensures FacesIn(AllFaces(obj.shapes), |RawPool(obj.coords)|)
  {
    ValidFacesPrefix(obj, |obj.shapes|);
    assert obj.shapes[..|obj.shapes|] == obj.shapes;
  }

  /** Corner k of face f is the pool vertex the face names. */
  lemma {:induction false} CornerVerticesAt<T>(raw: seq<Vec3<T>>, fs: seq<Face>, f: int, k: int)
    requires FacesIn(fs, |raw|)
    requires 0 <= f < |fs| && 0 <= k < 3
    ensures CornerVertices(raw, fs)[3 * f + k] == raw[fs[f].Corner(k)]
  {
    var n := |fs|;
    var pre := fs[..n - 1];
    if f < n - 1 {
      assert pre[f] == fs[f];
      CornerVerticesAt(raw, pre, f, k);
      assert 3 * f + k < 3 * (n - 1);
    } else {
      var last := fs[n - 1];
      assert 0 <= last.Corner(0) < |raw| && 0 <= last.Corner(1) < |raw| && 0 <= last.Corner(2) < |raw|;
      assert CornerVertices(raw, fs)[3 * f + k] == FaceCorners(raw, last)[k];
    }
  }

  /** Adding one face adds its three corners. */
  lemma CornerVerticesSnoc<T>(raw: seq<Vec3<T>>, fs: seq<Face>, face: Face)
    requires FacesIn(fs + [face], |raw|)
    ensures FacesIn(fs, |raw|)
    ensures 0 <= face.a < |raw| && 0 <= face.b < |raw| && 0 <= face.c < |raw|
    ensures CornerVertices(raw, fs + [face]) == CornerVertices(raw, fs) + FaceCorners(raw, face)
  {
    assert (fs + [face])[..|fs|] == fs;
    assert (fs + [face])[|fs|] == face;
    assert face.a == (fs + [face])[|fs|].Corner(0);
    assert face.b == (fs + [face])[|fs|].Corner(1);
    assert face.c == (fs + [face])[|fs|].Corner(2);
    forall f, k | 0 <= f < |fs| && 0 <= k < 3
      ensures 0 <= fs[f].Corner(k) < |raw|
    {
      assert fs[f] == (fs + [face])[f];
    }
  }

  // ---------------------------------------------------------------------------
  // The properties of a loaded mesh
  // ---------------------------------------------------------------------------

  /**
    The shape of a loaded mesh: one index triple per complete face, three
    vertices and nine floats per face, the vertices are the pool entries the
    faces name, and the buffer is corner-major then coordinate.
  */
  lemma LoadedMeshLayout<T>(obj: ObjData<T>)
    requires ValidObj(obj)
    ensures var m := FlattenObj(obj);
      && |m.indices| == FaceCount(obj.shapes)
      && |m.vertices| == 3 * |m.indices|
      && |m.buffer| == 9 * |m.indices|
      && FacesIn(m.indices, |obj.coords| / 3)
      && (forall f, k :: 0 <= f < |m.indices| && 0 <= k < 3 ==>
            m.vertices[3 * f + k] == RawPool(obj.coords)[m.indices[f].Corner(k)])
      && RawPool(m.buffer) == m.vertices
  {
    var m := FlattenObj(obj);
    AllFacesCount(obj.shapes);
    ValidFaces(obj);
    forall f, k | 0 <= f < |m.indices| && 0 <= k < 3
      ensures m.vertices[3 * f + k] == RawPool(obj.coords)[m.indices[f].Corner(k)]
    {
      CornerVerticesAt(RawPool(obj.coords), m.indices, f, k);
    }
    FlattenThenRegroup(m.vertices);
  }

  /** Float j of corner k of face f is coordinate j of the pool vertex that corner names. */
  lemma LoadedBufferAt<T>(obj: ObjData<T>, f: int, k: int, j: int)
    requires ValidObj(obj)
    requires 0 <= f < |FlattenObj(obj).indices| && 0 <= k < 3 && 0 <= j < 3
    ensures var m := FlattenObj(obj);
      0 <= m.indices[f].Corner(k) < |RawPool(obj.coords)| &&
      m.buffer[9 * f + 3 * k + j] == RawPool(obj.coords)[m.indices[f].Corner(k)].Coord(j)
  {
    var m := FlattenObj(obj);
    ValidFaces(obj);
    CornerVerticesAt(RawPool(obj.coords), m.indices, f, k);
    FlattenAt(m.vertices, 3 * f + k, j);
    assert 3 * (3 * f + k) + j == 9 * f + 3 * k + j;
  }

  /** Faces come shape by shape: loading two shape lists back to back concatenates their faces. */
  lemma FacesInShapeOrder<T>(coords: seq<T>, s1: seq<seq<int>>, s2: seq<seq<int>>)
    requires ValidObj(ObjData(coords, s1 + s2))
    ensures ValidObj(ObjData(coords, s1)) && ValidObj(ObjData(coords, s2))
    ensures FlattenObj(ObjData(coords, s1 + s2)).indices
         == FlattenObj(ObjData(coords, s1)).indices + FlattenObj(ObjData(coords, s2)).indices
  {
    var all := s1 + s2;
    forall s, j | 0 <= s < |s1| && 0 <= j < 3 * (|s1[s]| / 3)
      ensures 0 <= s1[s][j] < |coords| / 3
    {
      assert s1[s] == all[s];
    }
    forall s, j | 0 <= s < |s2| && 0 <= j < 3 * (|s2[s]| / 3)
      ensures 0 <= s2[s][j] < |coords| / 3
    {
      assert s2[s] == all[|s1| + s];
    }
    AllFacesAppend(s1, s2);
  }

  // ---------------------------------------------------------------------------
  // The loader as the source runs it: loops that push onto three vectors
  // ---------------------------------------------------------------------------

  /**
    One step of the face loop: the face's three pool vertices, and the facts
    that appending them, and their nine floats, keeps the lists in step.
  */
  function PushFace<T>(raw: seq<Vec3<T>>, indices: seq<Face>, face: Face): (corners: seq<Vec3<T>>)
    requires FacesIn(indices, |raw|)
    requires 0 <= face.a < |raw| && 0 <= face.b < |raw| && 0 <= face.c < |raw|
    ensures FacesIn(indices + [face], |raw|)
    ensures corners == [raw[face.a], raw[face.b], raw[face.c]]
    ensures CornerVertices(raw, indices + [face]) == CornerVertices(raw, indices) + corners
    ensures Flatten(CornerVertices(raw, indices + [face]))
         == Flatten(CornerVertices(raw, indices))
            + corners[0].Coords() + corners[1].Coords() + corners[2].Coords()
  {
    FacesInSnoc(indices, |raw|, face);
    CornerVerticesSnoc(raw, indices, face);
    var c := FaceCorners(raw, face);
    FlattenThree(CornerVertices(raw, indices), c);
    c
  }

  /** Appending a face whose corners are in range keeps every corner in range. */
  lemma FacesInSnoc(fs: seq<Face>, n: int, face: Face)
    requires FacesIn(fs, n)
    requires 0 <= face.a < n && 0 <= face.b < n && 0 <= face.c < n
    ensures FacesIn(fs + [face], n)
  {
    assert face.a == face.Corner(0) && face.b == face.Corner(1) && face.c == face.Corner(2);
    var all := fs + [face];
    forall g, k | 0 <= g < |all| && 0 <= k < 3
      ensures 0 <= all[g].Corner(k) < n
    {
      if g < |fs| {
        assert all[g] == fs[g];
      }
    }
  }

  /** Flattening three more vertices appends their nine coordinates. */
  lemma FlattenThree<T>(vs: seq<Vec3<T>>, c: seq<Vec3<T>>)
    requires |c| == 3
    ensures Flatten(vs + c) == Flatten(vs) + c[0].Coords() + c[1].Coords() + c[2].Coords()
  {
    FlattenSnoc(vs, c[0]);
    FlattenSnoc(vs + [c[0]], c[1]);
    FlattenSnoc(vs + [c[0]] + [c[1]], c[2]);
    assert vs + c == vs + [c[0]] + [c[1]] + [c[2]];
  }

  /** The first loop of loadObj: one pool vertex per complete coordinate triple. */
  method BuildPool<T>(coords: seq<T>) returns (raw: seq<Vec3<T>>)
    ensures raw == RawPool(coords)
  {
    raw := [];
    var i := 0;
    while i < |coords| / 3
      invariant 0 <= i <= |coords| / 3
      invariant raw == RawPool(coords)[..i]
    {
      raw := raw + [Vec3(coords[3 * i], coords[3 * i + 1], coords[3 * i + 2])];
      i := i + 1;
    }
  }

  /**
    The face loop of loadObj for one shape: for every complete triple push the
    face, its three pool vertices and their nine floats.
  */
  method PushShape<T>(raw: seq<Vec3<T>>, indices0: seq<Face>, vertices0: seq<Vec3<T>>,
                      buffer0: seq<T>, idx: seq<int>)
      returns (indices: seq<Face>, vertices: seq<Vec3<T>>, buffer: seq<T>)
    requires FacesIn(indices0, |raw|)
    requires vertices0 == CornerVertices(raw, indices0)
    requires buffer0 == Flatten(vertices0)
    requires forall j :: 0 <= j < 3 * (|idx| / 3) ==> 0 <= idx[j] < |raw|
    ensures indices == indices0 + ShapeFaces(idx)
    ensures FacesIn(indices, |raw|)
    ensures vertices == CornerVertices(raw, indices)
    ensures buffer == Flatten(CornerVertices(raw, indices))
  {
    indices, vertices, buffer := indices0, vertices0, buffer0;
    var f := 0;
    while f < |idx| / 3
      invariant 0 <= f <= |idx| / 3
      invariant indices == indices0 + ShapeFaces(idx)[..f]
      invariant FacesIn(indices, |raw|)
      invariant vertices == CornerVertices(raw, indices)
      invariant buffer == Flatten(CornerVertices(raw, indices))
    {
      var face := Face(idx[3 * f], idx[3 * f + 1], idx[3 * f + 2]);
      assert ShapeFaces(idx)[..f + 1] == ShapeFaces(idx)[..f] + [face];
      var corners := PushFace(raw, indices, face);
      indices := indices + [face];
      vertices := vertices + corners;
      buffer := buffer + corners[0].Coords() + corners[1].Coords() + corners[2].Coords();
      f := f + 1;
    }
    assert ShapeFaces(idx)[..f] == ShapeFaces(idx);
  }

  /** Every index of a complete triple of shape s names a pool vertex. */
  lemma ShapeInPool<T>(obj: ObjData<T>, s: int)
    requires ValidObj(obj) && 0 <= s < |obj.shapes|
    ensures forall j :: 0 <= j < 3 * (|obj.shapes[s]| / 3) ==> 0 <= obj.shapes[s][j] < |RawPool(obj.coords)|
  {
  }

  /**
    TriangleMesh::loadObj: build the raw pool, then for every complete triple
    of every shape push the face, its three vertices and their nine floats.
  */
  method LoadObj<T>(obj: ObjData<T>) returns (m: Mesh<T>)
    requires ValidObj(obj)
    ensures m == FlattenObj(obj)
    ensures |m.vertices| == 3 * |m.indices| && |m.buffer| == 9 * |m.indices|
  {
    var raw := BuildPool(obj.coords);
    var indices: seq<Face> := [];
    var vertices: seq<Vec3<T>> := [];
    var buffer: seq<T> := [];
    var s := 0;
    while s < |obj.shapes|
      invariant 0 <= s <= |obj.shapes|
      invariant indices == AllFaces(obj.shapes[..s])
      invariant FacesIn(indices, |raw|)
      invariant vertices == CornerVertices(raw, indices)
      invariant buffer == Flatten(CornerVertices(raw, indices))
    {
      assert obj.shapes[..s + 1][..s] == obj.shapes[..s];
      ShapeInPool(obj, s);
      indices, vertices, buffer := PushShape(raw, indices, vertices, buffer, obj.shapes[s]);
      s := s + 1;
    }
    assert obj.shapes[..s] == obj.shapes;
    m := Mesh(indices, vertices, buffer);
  }
}
