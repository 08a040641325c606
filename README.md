# raytracer_rs bookkeeping, modelled in Dafny

raytracer_rs is a small Rust path tracer. Its shading and intersection
code is `f32` arithmetic. Around it sits discrete bookkeeping, and this
project models that part and proves properties about it.

- **Scene** (`scene.dfy`, module `Scenes`): the scene is an ordered list of
  objects that grows by `push` and `extend`. Its nearest-hit query asks each
  object in turn, and each object is asked with an upper bound that shrinks to
  the last reported `t`.
- **Mesh** (`mesh.dfy`, module `Meshes`):
  - the hit is the minimum over the triangle hits, and the earliest triangle
    wins a tie;
  - translate, rotate and scale are in-place passes over the triangles;
  - `Mesh::load` reads a count line, then four lines per triangle.
- **Text** (`text.dfy`, module `Text`): the `trim` and `split_whitespace`
  that `Mesh::load` uses.
- **Image** (`image.dfy`, module `Images`):
  - the row-major RGBA pixel buffer, with `set_pixel`;
  - the ray counter;
  - the gamma pass;
  - the byte layout handed to the PNG encoder.
- **Camera** (`camera.dfy`, module `Cameras`): the nested render loop. It
  writes every pixel exactly once: sky blue on a miss, black on a hit.
- **Config** (`config.dfy`, module `Config`):
  - material lookup by name, across three lists in priority order;
  - flattening of the six object lists;
  - building each entry, with its error paths;
  - the all-or-nothing collection;
  - the assembly of the scene in `load_scene`.

Shared values live in `base.dfy` (module `Base`) and `hittables.dfy`
(module `Hittables`):

- `u8` and `u32` newtypes;
- a `Vec3` with `real` components;
- `Option`;
- `Outcome`, which is `Ok`, `Err(message)` or `Panic`. `Panic` stands for a
  Rust panic (an `unwrap` of a failed parse, an index out of range).

Each primitive's own intersection routine is a function-valued parameter
(an oracle), asked with the object, the ray and an interval. So is the
camera's primary ray for a pixel, and so are the parsers and the file
reader of `Mesh::load`. `u32` arithmetic is modelled as in a debug build:
an overflow panics, so each operation that could overflow carries a
precondition that it does not.

## Model

| member | source | states |
|---|---|---|
| Scenes.GettersReturnConstructorArguments | src/scene.rs:50-69 | `get_point`, `get_normal` and `get_t` return exactly the point, normal and `t` given to `new` |
| Scenes.Scene.constructor | src/scene.rs:21-25 | `Scene::new` makes a scene with no objects |
| Scenes.Scene.AddObject | src/scene.rs:27-29 | `add_object` appends exactly one object at the end; earlier objects stay in place |
| Scenes.Scene.AddObjects | src/scene.rs:31-33 | `add_objects` appends all given objects after the existing ones, in their order |
| Scenes.Scene.Hit | src/scene.rs:37-47 | the loop computes the shrinking-bound scan `Scan`: each object is asked with the `t` of the last reply (initially `t_max`), and each reply replaces the answer; a scene with no objects answers `None` |
| Scenes.BoundIsAnswerT | src/scene.rs:39-43 | the bound is `t_max` until something is found, and the answer's `t` afterwards |
| Scenes.ScanMissesIffAllDecline | src/scene.rs:40-46 | the answer is `None` exactly when every object declined the query it was given |
| Scenes.ScanKeepsLastReply | src/scene.rs:40-46 | a `Some` answer is the reply of some object, and every object after it declined: the last successful reply wins |
| Scenes.BoundNeverIncreases | src/scene.rs:39-43 | if objects report `t` inside the interval they were asked with, the bound passed to successive objects never increases and never exceeds `t_max` |
| Scenes.HitWithinInterval | src/scene.rs:39-45 | if objects report `t` inside the interval they were asked with, the answer's `t` lies in `[t_min, t_max]` and is ≤ every `t` reported during the scan |
| Scenes.SceneReportsNearestHit | src/scene.rs:37-47 | if, in addition, answers stay consistent as the bound shrinks: the answer is `None` iff no object has a hit on the whole interval; otherwise it is some object's whole-interval hit, and no object's hit is nearer |
| Meshes.RepliesEmptyIffNoHit | src/hittable/mesh.rs:72-81 | the `filter_map` list is empty exactly when no triangle reports a hit |
| Meshes.RepliesListEveryHit | src/hittable/mesh.rs:75-77 | every triangle's hit, with the same `(t_min, t_max)`, is in the `filter_map` list |
| Meshes.ReduceIsNearest | src/hittable/mesh.rs:78-80 | the `min_by` reduction has `t` ≤ the `t` of every listed hit |
| Meshes.EarliestNearestTriangle | src/hittable/mesh.rs:78-80 | a `Some` result is the hit of a triangle whose `t` is strictly below that of every earlier triangle's hit, so the earliest of tied triangles wins |
| Meshes.Mesh.Hit | src/hittable/mesh.rs:72-81 | every triangle is asked with the same interval; the answer is `None` iff no triangle hits; otherwise it is the earliest triangle's hit among those at the minimum, with `t` ≤ every triangle hit |
| Meshes.Transformed | src/hittable/mesh.rs:52-68 | an `iter_mut` pass: the same number of triangles, and triangle `i` is the rewrite of old triangle `i` |
| Meshes.Mesh.constructor | src/hittable/mesh.rs:17-21 | `Mesh::new` keeps the given triangles |
| Meshes.Mesh.ForEachTriangle | src/hittable/mesh.rs:53-55 | the in-place loop leaves `Transformed(old triangles)`: each triangle is rewritten once, and count and order are kept |
| Meshes.Mesh.Translate | src/hittable/mesh.rs:52-56 | every triangle is translated once, in place; the count is unchanged |
| Meshes.Mesh.Rotate | src/hittable/mesh.rs:58-62 | every triangle is rotated once, in place; the count is unchanged |
| Meshes.Mesh.Scale | src/hittable/mesh.rs:64-68 | every triangle is scaled once, in place; the count is unchanged |
| Meshes.Mesh.GetObjectCount | src/hittable/mesh.rs:83-85 | the count is the number of triangles the mesh holds |
| Meshes.LoadedObjectCount | src/hittable/mesh.rs:29-49 | a mesh made by a successful load reports exactly the count its file's first line gives |
| Meshes.ReadVertex | src/hittable/mesh.rs:35-41 | the straight-line vertex read computes `VertexOf`, whose meaning `VertexFromWords` and `TwoWordsPanic` state |
| Meshes.VertexFromWords | src/hittable/mesh.rs:37-41 | a line of three whitespace-separated words, followed by nothing or by whitespace and anything, gives the vertex of the three words parsed in order; any word that does not parse panics; later words are ignored |
| Meshes.VertexOfSplit | src/hittable/mesh.rs:37-41 | only the first three items of a vertex line matter: the vertex is those three parsed in order, or a panic when one does not parse |
| Meshes.TwoWordsPanic | src/hittable/mesh.rs:37-40 | a line with only two words panics: `words[2]` is out of range |
| Meshes.ReadTriangle | src/hittable/mesh.rs:31-47 | triangle `i` skips line `4i+1` and takes its vertices from lines `4i+2..4i+4`, with the given material |
| Meshes.ReadTriangles | src/hittable/mesh.rs:30-48 | the outer loop succeeds iff every one of the `count` triangles has its three vertices, and then yields them in file order; otherwise it panics |
| Meshes.Load | src/hittable/mesh.rs:23-50 | the reading loops compute `LoadLayout`: an unparsable trimmed count line gives `Err`; a counted vertex line that lacks a vertex gives a panic; otherwise exactly the laid-out triangles |
| Meshes.LoadCountDecides | src/hittable/mesh.rs:28-30 | `load` returns `Err` exactly when the count line does not parse; on success it yields exactly `count` triangles, all with the given material |
| Meshes.TruncatedFilePanics | src/hittable/mesh.rs:32-38 | a file that ends before the last vertex line of the counted triangles panics; it does not return `Err` |
| Meshes.SkippedLineIgnored | src/hittable/mesh.rs:31-32 | replacing line `4i+1` changes nothing: that line is read and discarded |
| Text.TrimStartDropsLeadingWhitespace | src/hittable/mesh.rs:29 | leading trim drops exactly the leading whitespace run |
| Text.TrimEndDropsTrailingWhitespace | src/hittable/mesh.rs:29 | trailing trim drops exactly the trailing whitespace run |
| Text.TrimKeepsInnerSlice | src/hittable/mesh.rs:29 | `trim` keeps a slice of the line that neither starts nor ends with whitespace, and drops only whitespace around it |
| Text.WordLengthIsMaximal | src/hittable/mesh.rs:37 | a word runs to the next whitespace character or the end of the line |
| Text.SplitWhitespaceYieldsWords | src/hittable/mesh.rs:37 | `split_whitespace` yields non-empty words without whitespace |
| Text.SplitWhitespaceKeepsText | src/hittable/mesh.rs:37 | joined, the words are the line's non-whitespace characters, in order |
| Text.SplitWhitespaceTakesWholeWord | src/hittable/mesh.rs:37 | a word followed by the end of the line or by whitespace is the next item, whole: items are maximal runs, not pieces of them |
| Text.SplitWordThenBlank | src/hittable/mesh.rs:37 | a word followed by a whitespace character is the next item, whatever comes after |
| Text.SplitThreeWords | src/hittable/mesh.rs:37 | three words separated by whitespace characters are the first three items, in order |
| Text.SplitWhitespaceSkipsWhitespace | src/hittable/mesh.rs:37 | a whitespace character before the rest of the line produces no item |
| Text.SplitWhitespaceOfBlank | src/hittable/mesh.rs:37 | a line of whitespace only, the empty line included, has no words |
| Images.PixelIndexInRange | src/image.rs:50-52 | for `x < width` and `y < height`, the index `y*width+x` lies inside a `width*height` buffer |
| Images.PixelIndexInjective | src/image.rs:50-52 | distinct pixels of the same row width have distinct indices |
| Images.FloorSqrt | src/image.rs:24-26 | the result `r` is the integer square root: `r*r ≤ n < (r+1)*(r+1)` |
| Images.FloorSqrtOfByte | src/image.rs:24-26 | the square root of a byte is at most 15 |
| Images.GammaPixel | src/image.rs:23-28 | after gamma, each colour channel is the truncated square root of the old one (so at most 15), and alpha is 255 |
| Images.RgbaLayout | src/image.rs:33-39 | the flattened buffer has length `4·|pixels|`, and byte `4k+c` is channel `c` of pixel `k` |
| Images.UnflattenRgba | src/image.rs:33-39 | cutting the flattened buffer into groups of four bytes gives back the pixels |
| Images.Image.constructor | src/image.rs:13-20 | `new` makes a `width*height` buffer of `[0,0,0,255]`, with ray count 0; the product must fit in a `u32` |
| Images.Image.CorrectGamma | src/image.rs:22-29 | every pixel is rewritten by `GammaPixel`; the length, the dimensions and the counter are kept |
| Images.Image.SaveAsPng | src/image.rs:31-39 | the encoder receives the flattened pixels (`buffer[4k+c] = pixels[k][c]`); the gamma pass is not applied and the image does not change |
| Images.Image.SetPixel | src/image.rs:50-52 | only index `y*width+x` changes; width, height and ray count are unchanged |
| Images.Image.IncrementRayCount | src/image.rs:54-56 | the counter goes up by one; nothing else changes |
| Images.Image.SetRayCount | src/image.rs:58-60 | the counter is overwritten; nothing else changes |
| Images.Image.JumpRayCount | src/image.rs:62-64 | the counter goes up by `n`; nothing else changes |
| Images.Image.GetRayCount | src/image.rs:66-68 | returns the counter and modifies nothing |
| Images.Image.SetPixels | src/image.rs:70-72 | the buffer is replaced without a length check: the image stays valid iff the new length is `width*height` |
| Cameras.Shade | src/camera.rs:57-63 | the colour is `[128,172,255,255]` iff the scene missed, and `[0,0,0,255]` iff it hit |
| Cameras.VisitsOfColumns | src/camera.rs:49-50 | the first `c` outer passes visit `c·height` pixels, all distinct, all in those columns, and every one of them |
| Cameras.RenderWritesEachPixelOnce | src/camera.rs:49-64 | the indices written by the loop are all distinct and inside the buffer; every `(i, j)` of the grid is written at `j*width+i` |
| Cameras.PaintStep | src/camera.rs:64 | writing pixel `(i, j)` keeps every pixel painted before it |
| Cameras.PaintColumn | src/camera.rs:50-66 | one pass of the outer loop paints column `i` top to bottom with the shade of each primary ray, counts one ray per pixel, and keeps every pixel painted earlier |
| Cameras.Render | src/camera.rs:45-69 | always `Ok` with a fresh image of `pixel_width × pixel_height` and ray count `pixel_width*pixel_height`; pixel `(i, j)` is the shade of the scene's answer on `[0, 1000]`; the visit log is the column-major order |
| Config.Flatten | src/config.rs:130-151 | the six loops produce spheres, planes, rectangles, cubes, triangles, meshes, each in its own order; the length is the sum of the six |
| Config.FlattenedGroupsByKind | src/config.rs:130-151 | taking the entries of one kind out of the flattened list gives back exactly that kind's list, in order |
| Config.FirstNamedIsFirst | src/config.rs:155-171 | the search is `None` iff no entry has the name; otherwise it returns the first entry with the name |
| Config.LookupNoneIff | src/config.rs:155-172 | `get` is `None` iff none of the diffuse, reflective or dielectric lists has the name |
| Config.LookupFindsDiffuse | src/config.rs:156-160 | the first diffuse entry with the name is the answer, whatever the other two lists hold |
| Config.LookupFindsReflective | src/config.rs:156-165 | with no diffuse entry of that name, the first reflective entry with the name is the answer, before any dielectric entry |
| Config.LookupFindsDielectric | src/config.rs:156-171 | with no diffuse or reflective entry of that name, the first dielectric entry with the name is the answer |
| Config.Get | src/config.rs:155-172 | the three early-return loops compute `Lookup` |
| Config.TransformOrder | src/config.rs:256-264 | each mesh triangle is translated, then rotated, then scaled, each only if present; count and order are kept |
| Config.ApplyTransforms | src/config.rs:256-264 | the in-place `translate`, `rotate` and `scale` calls, in the source's order, leave `TransformMesh` of the loaded triangles |
| Config.Build | src/config.rs:192-266 | a missing material gives `Err("Material not found")`, whatever the entry and whatever the mesh file holds; a found material makes non-mesh entries succeed, carrying the material built from the entry the lookup found; mesh entries alone become meshes |
| Config.BuiltWithFirstDiffuse | src/config.rs:192-248 | a non-mesh entry whose material name is first found in the diffuse list is built with that entry's colour and albedo, whatever the reflective and dielectric lists hold |
| Config.MeshBuildOutcome | src/config.rs:250-266 | with the material found, a mesh entry gives the file's error, or `Err` exactly when the count line does not parse, or the load's panic; on success `count` triangles with the found material, each translated, rotated and scaled in that order |
| Config.BuildMaterialDropsOnlyName | src/config.rs:269-294 | two material entries build the same material exactly when they are of the same kind with the same parameters: only the name is dropped |
| Config.MissingMaterialIgnoresFile | src/config.rs:252-255 | with the material missing, building a mesh gives the same error for every file reader: the file is never read |
| Config.BuildAllSucceeds | src/config.rs:116-122 | the collection succeeds iff every entry builds, and then holds the built objects in `flatten` order |
| Config.BuildAllStopsAtFirstFailure | src/config.rs:116-122 | the first entry that fails decides the outcome: its error, or its panic |
| Config.LoadScene | src/config.rs:112-127 | on success, a fresh scene holds exactly the built objects in `flatten` order; otherwise the first failure's error or panic is returned |

## Left out

- `f32` arithmetic is not modelled:
  - `Vec3` algebra, `reflect`/`refract` and `near_zero`;
  - the fast inverse square root;
  - `Ray` normalisation;
  - every intersection formula.

  Distances are `real`, so there is no NaN. That means the
  `partial_cmp(..).unwrap()` panic in `Mesh::hit` on a NaN `t` is not
  modelled.
- Primitive intersections (sphere, plane, rectangle, cube, triangle) are
  oracles. Only their reported `t` matters here.
  - `Scenes.HitWithinInterval` and `Scenes.BoundNeverIncreases` assume the
    closed-interval bound that every primitive keeps; sphere and plane keep
    the open one.
  - `Scenes.SceneReportsNearestHit` also assumes that answers stay
    consistent as the bound shrinks.
- Material `scatter` and the Schlick reflectance are not modelled: they are
  random and float-based. A material is its parameters.
- `Triangle::translate`, `rotate` and `scale`, and the `.unit()` in
  `Triangle::new`, are not defined in the repository. They are oracles, or
  are left out.
- There are two `HitRecord` types. The scene uses its own (point, normal,
  `t`). Meshes use the one with a material. `load_scene` adds config-built
  objects to a `Scene` even though the two `Hittable` traits differ. Here the
  scene is generic in its object type.
- Camera geometry is not modelled: `Camera::new`'s basis and corners, the
  step sizes in `render`, and the ray construction. The primary ray for
  pixel `(i, j)` is an oracle. `debug!` logging is left out.
- `Camera::build` is not modelled. It calls `Camera::new` with arguments
  that do not match its signature, and it divides floats. `Config.LoadScene`
  therefore returns only the scene. The camera entry is kept as data.
- I/O is not modelled:
  - `read_to_string` and TOML deserialisation: the model starts from the
    deserialised description;
  - `File::open`/`BufReader`: a mesh file is an oracle from path to lines,
    or to the I/O error;
  - the PNG encoder: `Images.Image.SaveAsPng` returns the buffer it would
    be given;
  - the `notify` watcher and `main`.
- `read_line` is modelled as yielding the next line, or `""` at the end of
  the file. It also keeps the line's newline; that newline is whitespace, so
  `trim` and `split_whitespace` remove it, and the model's lines omit it.
  I/O and invalid-UTF-8 errors of `read_line` are not modelled: the `?` on
  the first read and the `unwrap` on later reads.
- `str::parse::<usize>` and `str::parse::<f32>` are oracles that return a
  value or an error message.
- `Images.GammaChannel` is the integer square root.
  `(c as f32).sqrt() as u8` gives that same value for every byte: a
  correctly rounded square root is never rounded across an integer at this
  range. That argument is not formalised.
- Images.Image.constructor: requires that `width*height` fits in a `u32`,
  because the source multiplies in `u32` and a debug build panics on
  overflow. Release-build wrap-around is not modelled.
- Images.Image.SetPixel: requires that `y*width+x` fits in a `u32` and
  indexes the buffer. Both are source panics. Release-build wrap-around is
  not modelled.
- Images.Image.IncrementRayCount: requires that the counter does not
  overflow, for the same reason.
- Images.Image.JumpRayCount: requires that the sum does not overflow, for
  the same reason.
- Cameras.Render: requires that `pixel_width*pixel_height` fits in a `u32`,
  as `Image::new` does.
- Materials are shared through `Rc` in the source. Here they are plain
  values, and each build makes its own material, as the source does.
- `rayon` is imported but unused. There is no concurrency to model.
