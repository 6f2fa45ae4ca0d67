# render_server core, modelled in Dafny

render_server loads a scene file that lists OBJ meshes, a camera and an
ambient light. It uploads the meshes to OpenGL, renders them, reads the
pixels back and writes a PNG. This project models the parts of that
pipeline that are plain sequential logic once the GL driver, the window
system and the file parsers are taken out:

- **OBJ de-indexing** (`ObjMesh`, `obj_mesh.dfy`). `TriangleMesh::loadObj`
  regroups the parser's flat coordinates into a vertex pool. Every complete
  index triple of every shape then becomes one face, three corner vertices
  and nine floats of the upload buffer. `FlattenObj` is the reference
  meaning. `LoadObj` is the loop the source runs, and it is proved equal to
  `FlattenObj`.
- **Readback and the Y flip** (`Readback`, `readback.dfy`). This covers the
  staging-buffer sizes, the extent `glReadPixels` writes with
  `GL_PACK_ALIGNMENT` 4, and the PNG writer's start pointer
  `4w(h-1)` and stride `-4w`. Row r of the PNG is stored row h-1-r, and the
  output file name is `outfilename + ".png"`.
- **GL state as a state machine** (`GlState`, `gl_state.dfy`). The state is
  an immutable record of the bindings (vertex array, `ARRAY_BUFFER`,
  framebuffer, program, 2D texture), the uploaded buffers, the attribute
  pointers and the per-program uniforms. It also holds a log of draws, clears
  and readbacks, each with the bindings in force at that moment. Each GL call
  is an `Op`, and a routine is a trace that `Run` folds over the state. Calls
  that a core-profile context rejects with a GL error leave the state
  unchanged: uploading with no buffer bound, pointing an attribute with no
  vertex array bound, setting a uniform with no program in use, drawing with
  no vertex array, and reading pixels with `GL_RGBA32F` given as the format.
  A uniform write to location -1 raises no error; GL silently ignores it,
  and so does the model (`GlState.WriteUniform`).
- **Renderables** (`Renderables`, `renderables.dfy`). These are the setup and
  render traces of `TestTriangle` and `TriangleMesh`. The lemmas give their
  exact effect on the state and show what the vertex shader fetches
  afterwards.
- **Scene** (`SceneModel`, `scene_model.dfy`). This covers:
  - `loadScene`, `loadLights` and `loadMaterials`;
  - the attribute name→location map with its GLint→GLuint conversion;
  - `Scene::setup` calling every object's setup once, in order;
  - `Scene::render`: program and per-frame uniforms first, then for each
    object its model matrix followed by its draw;
  - the `Scene::render` of `src/main.cc`, which writes an identity model
    matrix, the view and the projection once and then draws every object.
- **Renderer** (`RendererModel`, `renderer_model.dfy`). This covers:
  - the framebuffer and staging buffers of `GLRenderer::init`;
  - the fixed order of `setupScene`;
  - the two passes of `render(camera, outfilename)`;
  - the one-pass offscreen render;
  - the image handed to the PNG writer.

Inputs that the model takes as parameters are the parsed scene file, the
OBJ parser's output (`parse`), the names `glGen*` hands out, the locations
`glGetAttribLocation`/`glGetUniformLocation` report, the framebuffer
completeness verdict, the size `glfwGetFramebufferSize` reports, and the
bytes in the staging buffer.

Generated GL names are assumed to be nonzero and pairwise distinct, as the
driver guarantees. The program is assumed to be a linked program (nonzero
name). No assumption is made about the uniform locations: a uniform the
shader lacks has location -1, and its uploads go nowhere.

## Model

| member | source | states |
|---|---|---|
| ObjMesh.FlattenObj | src/main.cc:263-306 | the reference meaning of loadObj: pool, then the faces of every shape, their corner vertices and the flat buffer (properties in the rows below) |
| ObjMesh.LoadObj | src/main.cc:280-300 | the nested push loops of loadObj produce exactly FlattenObj's mesh, with three vertices and nine floats per face |
| ObjMesh.BuildPool | src/main.cc:280-283 | the pool loop builds one vertex per complete coordinate triple, vertex i being (v[3i], v[3i+1], v[3i+2]) |
| ObjMesh.PushShape | src/main.cc:287-299 | the face loop of one shape appends that shape's complete triples, their pool vertices and their nine floats, and keeps the three lists in step |
| ObjMesh.RegroupThenFlatten | src/main.cc:280-283 | writing the pool back out gives the coordinates with exactly the trailing partial triple dropped |
| ObjMesh.FlattenThenRegroup | src/main.cc:294-298 | regrouping the flat buffer three by three recovers the vertex list it was written from |
| ObjMesh.FlattenAt | src/main.cc:294-298 | coordinate j of vertex i sits at float 3i+j of the buffer |
| ObjMesh.AllFacesAppend | src/main.cc:285-290 | the faces of two shape lists loaded back to back are the first list's faces followed by the second's |
| ObjMesh.AllFacesCount | src/main.cc:285-287 | the number of faces is the sum over the shapes of ⌊|indices|/3⌋ |
| ObjMesh.FacesInShapeOrder | src/main.cc:285-290 | faces are appended in shape order, then face order |
| ObjMesh.ValidFaces | src/main.cc:291-297 | when every vertex_index of a complete triple is inside the pool, every face corner indexes the pool |
| ObjMesh.CornerVerticesAt | src/main.cc:291-293 | corner vertex 3f+k is the pool vertex named by corner k of face f |
| ObjMesh.LoadedMeshLayout | src/main.cc:290-299 | after loading, there are FaceCount faces, 3 vertices and 9 floats per face, vertices[3f+k] = pool[faces[f][k]], and the buffer regroups into the vertices |
| ObjMesh.LoadedBufferAt | src/main.cc:294-298 | buffer[9f+3k+j] is coordinate j of the pool vertex named by corner k of face f |
| Readback.RgbaRowsUnpadded | src/renderer.cc:114 | with a pack alignment of 4, an RGBA8 row needs no padding, so its stride is 4w |
| Readback.ByteStagingIsReadbackExtent | src/renderer.cc:70 | calloc(4, w·h) is exactly the extent of a w×h RGBA8 readback |
| Readback.ReadbackFitsIff | src/renderer.cc:70 | a w'×h' RGBA8 readback fits the buffer sized for w×h if and only if w'·h' ≤ w·h |
| Readback.PngRowIsFlippedGlRow | src/renderer.cc:116-119 | the writer's row r, at 4w(h-1) - 4w·r, is stored row h-1-r |
| Readback.PngRowInBounds | src/renderer.cc:116-119 | every PNG row [off, off+4w) lies within [0, 4wh) |
| Readback.GlRowInBounds | src/renderer.cc:114 | every stored row lies within the staging buffer |
| Readback.FlipRowIsInvolution | src/renderer.cc:116-119 | the row flip maps [0,h) into itself and applying it twice is the identity |
| Readback.FlipRowIsBijection | src/renderer.cc:116-119 | the row flip is injective on [0,h) and its own inverse |
| Readback.PngRowsReverseGlRows | src/renderer.cc:116-119 | the PNG's rows are the stored rows in reverse order |
| Readback.PngPixelIsFlippedGlPixel | src/main.cc:558-562 | byte c of pixel (x, y), counted from the bottom, appears in PNG row h-1-y at byte 4x+c |
| Readback.ConcatGlRowsPrefix | src/renderer.cc:114 | the first n stored rows, concatenated, are the first 4wn bytes of the buffer |
| Readback.PngRowsRestackToBuffer | src/renderer.cc:114-119 | stacking the PNG's rows bottom-up gives back exactly the bytes that were read |
| Readback.PngFileName | src/renderer.cc:116 | the output name is the prefix followed by ".png" |
| Readback.PngFileNameRoundTrip | src/renderer.cc:116 | dropping the last four characters of the output name gives the prefix back |
| Readback.FloatStagingBytesAsWritten | src/renderer.cc:71 | mRGBD as allocated holds w·h floats |
| Readback.FloatStagingAsWrittenOverrun | src/renderer.cc:71 | as written, the RGBA float readback of a non-empty image is four times larger than mRGBD |
| Readback.FloatStagingIsReadbackExtent | src/renderer.cc:106 | a float buffer of 16·w·h bytes is exactly the readback's extent |
| GlState.FramebufferKept | src/renderer.cc:104-105 | a trace that binds no framebuffer leaves the framebuffer binding unchanged |
| GlState.FramebufferAfterBind | src/renderer.cc:110-114 | after a trace, the bound framebuffer is the last one the trace binds |
| GlState.SetUniformWrites | src/scene.cc:98-104 | with a program in use, a uniform upload writes that program's uniform unless the location is -1, when nothing changes |
| Renderables.TestTriangleSetupEffect | src/main.cc:191-219 | TestTriangle::setup uploads its 18 floats, enables and points `position` (offset 0) and `albedo` (offset 12) with stride 24, unbinds the buffer and the vertex array, and changes nothing else |
| Renderables.TestTriangleFetch | src/main.cc:194-216 | after that setup, vertex v reads its x,y,z from `position` and its r,g,b from `albedo` |
| Renderables.MeshSetupEffect | src/main.cc:308-331 | TriangleMesh::setup uploads mBuffer, enables and points `position` tightly packed, unbinds the buffer and the vertex array, and changes nothing else |
| Renderables.LoadedMeshUploadBytes | src/main.cc:313 | a loaded mesh uploads 36 bytes per face |
| Renderables.MeshPositionFetch | src/main.cc:322-325 | after setup, vertex v of `position` is corner vertex v of the mesh |
| Renderables.DrawEffect | src/main.cc:221-225 | a render binds its vertex array, logs one draw with the current program, framebuffer and uniforms, and leaves the vertex array unbound |
| Renderables.MeshRenderAsWrittenDrawsOneFace | src/main.cc:333-338 | as written, TriangleMesh::render draws 3 vertices; in a mesh of two or more faces, vertex 3 is uploaded and fetchable after setup but never drawn |
| Renderables.MeshRenderDrawsEveryFace | src/main.cc:333-338 | the corrected render draws exactly the mesh's 3·faces corner vertices, and after setup every vertex it draws fetches its corner vertex |
| SceneModel.JsonVec3 | src/scene.cc:46 | component j is element j of the JSON array when the array has one and 0 otherwise, whatever the array's length |
| SceneModel.JoinPathParts | src/scene.cc:25-26 | a joined path is basedir, then "/", then the name, with nothing lost or added |
| SceneModel.LoadedObjectFields | src/scene.cc:41-48 | an object entry loads with mesh path basedir/path (basedir/ when `path` is missing) and the mesh from that file; translate is zero when the key is absent and the entry's components otherwise; rotation is always the identity |
| SceneModel.LoadEntries | src/scene.cc:40-49 | the loop over `objects.obj` yields one object per entry, in the entries' order, each the one LoadObject builds |
| SceneModel.LoadEntry | src/scene.cc:40-49 | the loop body reads the entry's OBJ file through loadObj and yields exactly the object LoadObject builds (fields in LoadedObjectFields) |
| SceneModel.LoadScene | src/scene.cc:14-65 | the shader paths are basedir/glsl.vertex and basedir/glsl.fragment, or basedir/ when an entry is missing; it keeps the camera; ambient is lights.ambient; there are no materials, whatever the file lists; and there is one object per entry, in file order, each loaded as LoadedObjectFields states |
| SceneModel.ToGLuint | src/scene.cc:83-86 | the stored location is congruent to the reported one modulo 2^32 |
| SceneModel.GLuintRoundTrip | src/scene.cc:83-86 | the conversion loses nothing and keeps non-negative locations unchanged |
| SceneModel.MissingAttributeWraps | src/scene.cc:83-86 | a location of -1 is stored as 2^32-1 |
| SceneModel.NameMap | src/scene.cc:82-86 | the map's keys are exactly position, normal, albedo and coeffs, each holding its location modulo 2^32; an object's setup that reads any other name gets 0 |
| SceneModel.NameMapRoundTrip | src/scene.cc:75-86 | each reported location is recovered from the map |
| SceneModel.Setup | src/scene.cc:67-90 | setup keeps the objects in order and builds the four-key map |
| SceneModel.MeshSetupBindsOnce | src/main.cc:316-330 | TriangleMesh::setup binds its own vertex array exactly once and otherwise only unbinds |
| SceneModel.SetupVisitsObjectsInOrder | src/scene.cc:87-89 | every object's setup runs exactly once, in list order |
| SceneModel.SetupEffect | src/scene.cc:87-89 | after setup, every object's buffer holds its mesh and its vertex array reads `position` from it through the same map; the vertex array and buffer are unbound; framebuffer, program, uniforms and log are unchanged |
| SceneModel.ObjectPassEffect | src/scene.cc:103-105 | one object's turn writes its model matrix (nowhere when the model location is -1) and then logs its draw seeing the result, leaving the vertex array unbound |
| SceneModel.PassesEffect | src/scene.cc:102-106 | the object loop logs one draw per object, in order, each seeing the frame's uniforms with its own model matrix written unless the model location is -1 |
| SceneModel.RenderEffect | src/scene.cc:92-107 | render leaves the program in use and draws every object once, in order, with the camera's view and projection, the ambient light and its own model transform, each written unless its location is -1; the program keeps the frame's uniforms and the last object's model matrix |
| SceneModel.RenderUploadOrder | src/scene.cc:96-106 | the program and the view, projection and ambient uploads come first; after them only the model location is written |
| SceneModel.FrameReupload | src/scene.cc:98-104 | uploading the frame's uniforms again over what a frame left behind, then a model matrix, gives the same uniforms as the first time |
| SceneModel.MainRenderEffect | src/main.cc:410-421 | the src/main.cc render draws every object once, in order, three vertices each as its TriangleMesh::render does (src/main.cc:336), all seeing the program's uniforms with the identity model, the view and the projection written |
| SceneModel.MainFrameUniformsAt | src/main.cc:411-417 | there every object sees the identity model matrix, whatever its placement, and no location other than model, view and projection (the ambient one included) is written |
| SceneModel.DrawPassesEffect | src/main.cc:418-420 | that object loop logs one draw of vertices 0..2 per object, whatever its face count, in order, and uploads nothing |
| RendererModel.Init | src/renderer.cc:53-71 | an incomplete framebuffer is an error; otherwise framebuffer 0 is bound on return, the colour texture stays bound, mBuffer matches the RGBA8 readback extent, and mRGBD holds w·h floats, less than a non-empty RGBA float readback writes |
| RendererModel.InitCorrected | src/renderer.cc:53-71 | with mRGBD sized for four floats per pixel, both staging buffers match their readback extents |
| RendererModel.InitBindsThenUnbinds | src/renderer.cc:53-69 | the FBO is bound while the attachment is made, then framebuffer 0 |
| RendererModel.SetupScene | src/renderer.cc:74-81 | the size becomes the re-queried one while the staging buffers keep their size |
| RendererModel.SetupSceneEffect | src/renderer.cc:75-80 | after setupScene the clear colour is transparent black, depth testing is on, every object is set up, and the viewport is (0, 0, w', h') with the re-queried size |
| RendererModel.PassEffect | src/renderer.cc:104-106 | one pass logs a clear, one draw per object and the readback if GL accepts its format, all in the bound framebuffer |
| RendererModel.ReadEffect | src/renderer.cc:106 | a readback with `GL_RGBA32F` as its format is rejected and changes nothing; an accepted one only logs itself |
| RendererModel.SecondFrameSameDraws | src/renderer.cc:105-112 | rendering the scene again draws exactly what the first frame drew |
| RendererModel.RenderToFileEffect | src/renderer.cc:103-114 | render(camera, out) clears and draws the scene into the FBO and then into framebuffer 0 with the same uniforms, and leaves framebuffer 0 bound; the only pixels read are the bytes of framebuffer 0, because the FBO readback is rejected |
| RendererModel.RenderToFileCorrectedEffect | src/renderer.cc:103-114 | with the FBO readback given format GL_RGBA, the FBO is read back as floats before framebuffer 0 is drawn and read back as bytes |
| RendererModel.ReadbacksFitIff | src/renderer.cc:70-71 | as allocated, the byte readback fits if and only if w'·h' ≤ w·h, and the float readback if and only if 4·w'·h' ≤ w·h |
| RendererModel.ReadbacksFitIffCorrected | src/renderer.cc:71 | with mRGBD sized for four floats per pixel, the float readback fits if and only if w'·h' ≤ w·h |
| RendererModel.SetupSceneReadbacksFit | src/renderer.cc:75 | after setupScene re-queries the size, the byte readback fits the buffer init sized if and only if the new size has no more pixels, the float one as allocated if and only if it has at most a quarter of them |
| RendererModel.SetupSceneReadbacksFitCorrected | src/renderer.cc:75 | with the corrected init, both readbacks fit if and only if the new size has no more pixels |
| RendererModel.WritePng | src/renderer.cc:116-119 | the PNG is named out.png and has h rows of 4w bytes |
| RendererModel.WritePngFlips | src/renderer.cc:116-119 | pixel (x, y) of the readback is pixel (x, h-1-y) of the PNG |
| RendererModel.WritePngRestacks | src/renderer.cc:114-119 | the PNG's rows restacked bottom-up are exactly the bytes read back |
| RendererModel.OffscreenEffect | src/main.cc:539-555 | the offscreen render clears, draws the first three vertices of every object once with the src/main.cc render's uniforms and reads the bytes back, all in the bound framebuffer, which it leaves bound; its fresh calloc(4, w·h) buffer is exactly the readback's extent |
| RendererModel.WriteOffscreenPng | src/main.cc:559-562 | the offscreen PNG is named offscreen.png and shows the stored rows in reverse order |

## Left out

- Window and context creation (GLFW, glad), the error and key callbacks, and `glGetString`: these are foreign I/O.
- Shader source reading, compiling and linking (`LoadShaders`): the program name is an input.
- jsoncpp, tinyobj and stb: the scene file arrives parsed, `parse` stands for the OBJ reader, and the PNG writer is modelled by the image it receives.
- `get_basedir`: `utils.h` is not part of this model, so basedir is an input string.
- tinyobj's return value, warnings and errors: loadObj prints and ignores them. The model follows it and has no error path; a vertex_index outside the pool is excluded by `ObjMesh.ValidObj` because the source does not check it.
- Camera matrices, `lookAt`, `perspective`, the aspect ratio and the product identity·transformation: uniform values are named by what they are computed from (`ViewOf(camera)`, `ModelOf(transform)`), not evaluated. `get_transformation` lives in `object.h`, which is not part of this model.
- `Scene::getWidth`/`getHeight` (float→int truncation) and `src/main.cpp` (a superseded draft).
- The CLI, the interactive loop, `interactive_session`, `offline_view_generation_session` and the empty `updateCamera` stubs.
- The `mHeight(mHeight)` self-initialisation in the first GLRenderer constructor of `src/main.cc`: it is undefined behaviour.
- `GLRenderer::render(Scene*)` in `src/renderer.cc` calls a zero-argument `render()` that file does not define. What is modelled as the offscreen render is the zero-argument `GLRenderer::render()` of `src/main.cc` (`RendererModel.OffscreenEffect`) together with the `Scene::render` of that same file (`SceneModel.MainRenderEffect`). The `Scene::setup` and `Scene::loadScene` of `src/main.cc` (which fill only `position` and `albedo`) are not modelled separately: the offscreen render is stated for any scene set up as `src/scene.cc` does it.
- `mScene->render(camera)` in `src/renderer.cc` passes a camera that the zero-argument `Scene::render()` in `src/scene.cc` does not take. The model follows `src/scene.cc`: the scene renders with its own camera.
- 32-bit overflow of `mWidth * mHeight` in the `calloc` sizes: sizes are unbounded integers.
- GL errors for attribute locations at or beyond `GL_MAX_VERTEX_ATTRIBS` (such as the wrapped 2^32-1): the model records the call instead of raising `GL_INVALID_VALUE`.
- `std::map::operator[]` inserting a missing key: the model reads the 0 it yields (`SceneModel.NameMap`) but does not model the insertion, which no later read observes.
- `glTexImage2D`, `glFramebufferTexture` and `glDrawBuffers`: the texture storage and attachment are not part of the state. Only the texture binding is kept.
- `RendererModel.Init`: models a build with assertions enabled. Under `NDEBUG` the `assert(false)` is compiled out and init would carry on with an incomplete framebuffer.
- Pixel contents: the rendered values are not computed. The staging buffer's bytes are an input to the PNG functions.
- SceneModel.ObjectPassEffect: draws the corrected `3·|mIndices|` vertices, not the 3 of `src/main.cc:336`. The `TriangleMesh(path, translate, rotate)` constructor and `render(model_location)` that `src/scene.cc:48` and `:105` call are declared in `object.h`, which is not part of this model; they are taken to be the `src/main.cc` TriangleMesh with the corrected draw.
- SceneModel.PassesEffect: same corrected draw count as `SceneModel.ObjectPassEffect`, for the same reason.
- SceneModel.RenderEffect: same corrected draw count as `SceneModel.ObjectPassEffect`, for the same reason.
- RendererModel.PassEffect: same corrected draw count as `SceneModel.ObjectPassEffect`, for the same reason.
- RendererModel.RenderToFileEffect: same corrected draw count as `SceneModel.ObjectPassEffect`, for the same reason; the readback formats are as written.
- RendererModel.OffscreenEffect: the `USE_NATIVE_OSMESA` branch (`src/main.cc:551-553`) is left out: OSMesa is foreign and writes into its own buffer. The buffer that `src/main.cc:554` allocates on every call is never freed; memory is not part of the state, so the leak is not modelled.
- The program name is assumed nonzero in the render lemmas (`SceneModel.RenderEffect`, `RendererModel.PassEffect` and the rest): a failed link is not modelled, because `LoadShaders` is not part of this model.

## Findings

| source | as written | input that shows it | evidently intended | confidence | as-written member | corrected member |
|---|---|---|---|---|---|---|
| src/main.cc:336 | `glDrawArrays(GL_TRIANGLES, 0, 3)` draws three vertices whatever the mesh | a mesh of two faces: six corner vertices are uploaded, three are drawn | draw `3·|mIndices|` (= `|mVertices|`) vertices | not executed; high | Renderables.MeshRenderAsWrittenDrawsOneFace | Renderables.MeshRenderDrawsEveryFace |
| src/renderer.cc:106 | `glReadPixels(…, GL_RGBA32F, GL_FLOAT, mRGBD)` passes an internal format as the pixel format, which GL rejects with `GL_INVALID_ENUM`, so the FBO is never read back | any call of render(camera, out): the FBO pass logs no readback | format `GL_RGBA` with type `GL_FLOAT` | not executed; high | RendererModel.RenderToFileEffect | RendererModel.RenderToFileCorrectedEffect |
| src/renderer.cc:71 | `mRGBD = calloc(4, w·h)` holds w·h floats, but a float RGBA readback writes four floats per pixel; latent as written, since line 106's readback is rejected, and an overrun once its format is fixed | a 640×480 renderer: 1,228,800 bytes allocated, 4,915,200 written | allocate `4·4·w·h` bytes (`Readback.FloatStagingBytes`) | not executed; high | Readback.FloatStagingAsWrittenOverrun | RendererModel.InitCorrected |

Which definitions the rest of the model uses:
- `SceneModel.ObjectPass` (the `src/scene.cc` render, whose mesh type is declared outside this model) draws with the corrected `Renderables.MeshRenderOps`, as listed under "## Left out".
- `SceneModel.DrawPasses` (the `src/main.cc` render, and so the offscreen render) draws with the as-written `Renderables.MeshRenderOpsAsWritten`.
- `RendererModel.Init` and `RendererModel.RenderToFileOps` are as written; `RendererModel.InitCorrected` and `RendererModel.RenderToFileCorrectedOps` sit beside them, and `RendererModel.ReadbacksFitIffCorrected` and `RendererModel.SetupSceneReadbacksFitCorrected` state the fit with the corrected buffer.
