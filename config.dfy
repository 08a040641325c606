/** src/config.rs: turning a deserialised scene description into a scene.
    Materials are looked up by name across three lists, the six object lists
    are flattened in a fixed order, every entry is built (failing with
    "Material not found" when its material is missing) and the first failure
    aborts the load. Reading and deserialising the file is left out: the
    model starts from the deserialised description. */
module Config {
  import opened Base
  import H = Hittables
  import Meshes
  import Scenes
  import Text

  // ---------------------------------------------------------------------
  // The deserialised description.

  datatype Diffuse = Diffuse(name: string, color: Vec3, albedo: real)
  datatype Reflective = Reflective(name: string, albedo: Vec3, fuzz: real)
  datatype Dielectric = Dielectric(name: string, index: real, color: Vec3)

  /** `Materials`: three named lists, searched in this order. */
  datatype Materials = Materials(diffuse: seq<Diffuse>, reflective: seq<Reflective>, dielectric: seq<Dielectric>)

  /** A material entry found by `Materials::get`, whichever list it is from. */
  datatype MaterialEntry =
    | DiffuseEntry(diffuse: Diffuse)
    | ReflectiveEntry(reflective: Reflective)
    | DielectricEntry(dielectric: Dielectric)
  {
    function Name(): string
    {
      match this
      case DiffuseEntry(d) => d.name
      case ReflectiveEntry(r) => r.name
      case DielectricEntry(d) => d.name
    }
  }

  datatype Sphere = Sphere(center: Vec3, radius: real, material: string)
  datatype Plane = Plane(point: Vec3, normal: Vec3, material: string)
  datatype Rectangle = Rectangle(point: Vec3, width: Vec3, height: Vec3, material: string)
  datatype Cube = Cube(center: Vec3, width: Vec3, height: Vec3, depth: Vec3, material: string)
  datatype Triangle = Triangle(vertices: (Vec3, Vec3, Vec3), material: string)
  datatype Mesh = Mesh(path: string, material: string, translation: Option<Vec3>, rotation: Option<Vec3>, scale: Option<Vec3>)

  /** `Objects`: one list per kind of object. */
  datatype Objects = Objects(
    spheres: seq<Sphere>,
    planes: seq<Plane>,
    rectangles: seq<Rectangle>,
    cubes: seq<Cube>,
    triangles: seq<Triangle>,
    meshes: seq<Mesh>)

  /** The camera entry. Building a camera from it is not part of this model. */
  datatype CameraEntry = CameraEntry(name: string, from: Vec3, to: Vec3, pixelSize: (u32, u32), samples: u32, maxDepth: u32)

  /** The whole description: camera, materials and objects. */
  datatype SceneEntry = SceneEntry(camera: CameraEntry, materials: Materials, objects: Objects)

  /** An object entry of any kind, as `flatten` hands them out. */
  datatype HittableEntry =
    | SphereEntry(sphere: Sphere)
    | PlaneEntry(plane: Plane)
    | RectangleEntry(rectangle: Rectangle)
    | CubeEntry(cube: Cube)
    | TriangleEntry(triangle: Triangle)
    | MeshEntry(mesh: Mesh)
  {
    /** The name of the material the entry asks for. */
    function MaterialName(): string
    {
      match this
      case SphereEntry(s) => s.material
      case PlaneEntry(p) => p.material
      case RectangleEntry(r) => r.material
      case CubeEntry(c) => c.material
      case TriangleEntry(t) => t.material
      case MeshEntry(m) => m.material
    }

    /** The position of the entry's kind in the order `flatten` uses. */
    function Kind(): nat
    {
      match this
      case SphereEntry(_) => 0
      case PlaneEntry(_) => 1
      case RectangleEntry(_) => 2
      case CubeEntry(_) => 3
      case TriangleEntry(_) => 4
      case MeshEntry(_) => 5
    }
  }

  // ---------------------------------------------------------------------
  // `Objects::flatten`.

  function Spheres(o: Objects): seq<HittableEntry>
  {
    seq(|o.spheres|, k requires 0 <= k < |o.spheres| => SphereEntry(o.spheres[k]))
  }

  function Planes(o: Objects): seq<HittableEntry>
  {
    seq(|o.planes|, k requires 0 <= k < |o.planes| => PlaneEntry(o.planes[k]))
  }

  function Rectangles(o: Objects): seq<HittableEntry>
  {
    seq(|o.rectangles|, k requires 0 <= k < |o.rectangles| => RectangleEntry(o.rectangles[k]))
  }

  function Cubes(o: Objects): seq<HittableEntry>
  {
    seq(|o.cubes|, k requires 0 <= k < |o.cubes| => CubeEntry(o.cubes[k]))
  }

  function Triangles(o: Objects): seq<HittableEntry>
  {
    seq(|o.triangles|, k requires 0 <= k < |o.triangles| => TriangleEntry(o.triangles[k]))
  }

  function MeshEntries(o: Objects): seq<HittableEntry>
  {
    seq(|o.meshes|, k requires 0 <= k < |o.meshes| => MeshEntry(o.meshes[k]))
  }

  /** The six lists one after the other: spheres, planes, rectangles, cubes,
      triangles, meshes, each in its own order. */
  function Flattened(o: Objects): seq<HittableEntry>
  {
    Spheres(o) + Planes(o) + Rectangles(o) + Cubes(o) + Triangles(o) + MeshEntries(o)
  }

  /** `Objects::flatten`: six loops, each pushing one list. */
  method Flatten(o: Objects) returns (r: seq<HittableEntry>)
    ensures r == Flattened(o)
    ensures |r| == |o.spheres| + |o.planes| + |o.rectangles| + |o.cubes| + |o.triangles| + |o.meshes|
  {
    r := [];
    for k := 0 to |o.spheres|
      invariant r == Spheres(o)[..k]
    {
      assert Spheres(o)[..k + 1] == Spheres(o)[..k] + [SphereEntry(o.spheres[k])];
      r := r + [SphereEntry(o.spheres[k])];
    }
    ghost var done := Spheres(o);
    assert Spheres(o)[..|o.spheres|] == done;
    for k := 0 to |o.planes|
      invariant r == done + Planes(o)[..k]
    {
      assert Planes(o)[..k + 1] == Planes(o)[..k] + [PlaneEntry(o.planes[k])];
      r := r + [PlaneEntry(o.planes[k])];
    }
    assert Planes(o)[..|o.planes|] == Planes(o);
    done := done + Planes(o);
    for k := 0 to |o.rectangles|
      invariant r == done + Rectangles(o)[..k]
    {
      assert Rectangles(o)[..k + 1] == Rectangles(o)[..k] + [RectangleEntry(o.rectangles[k])];
      r := r + [RectangleEntry(o.rectangles[k])];
    }
    assert Rectangles(o)[..|o.rectangles|] == Rectangles(o);
    done := done + Rectangles(o);
    for k := 0 to |o.cubes|
      invariant r == done + Cubes(o)[..k]
    {
      assert Cubes(o)[..k + 1] == Cubes(o)[..k] + [CubeEntry(o.cubes[k])];
      r := r + [CubeEntry(o.cubes[k])];
    }
    assert Cubes(o)[..|o.cubes|] == Cubes(o);
    done := done + Cubes(o);
    for k := 0 to |o.triangles|
      invariant r == done + Triangles(o)[..k]
    {
      assert Triangles(o)[..k + 1] == Triangles(o)[..k] + [TriangleEntry(o.triangles[k])];
      r := r + [TriangleEntry(o.triangles[k])];
    }
    assert Triangles(o)[..|o.triangles|] == Triangles(o);
    done := done + Triangles(o);
    for k := 0 to |o.meshes|
      invariant r == done + MeshEntries(o)[..k]
    {
      assert MeshEntries(o)[..k + 1] == MeshEntries(o)[..k] + [MeshEntry(o.meshes[k])];
      r := r + [MeshEntry(o.meshes[k])];
    }
    assert MeshEntries(o)[..|o.meshes|] == MeshEntries(o);
  }

  /** The entries of one kind, in order. */
  function OfKind(entries: seq<HittableEntry>, kind: nat): seq<HittableEntry>
    decreases |entries|
  {
    if entries == [] then []
    else (if entries[0].Kind() == kind then [entries[0]] else []) + OfKind(entries[1..], kind)
  }

  lemma {:induction false} OfKindAppend(a: seq<HittableEntry>, b: seq<HittableEntry>, kind: nat)
    ensures OfKind(a + b, kind) == OfKind(a, kind) + OfKind(b, kind)
    decreases |a|
  {
    if a != [] {
      assert (a + b)[1..] == a[1..] + b;
      OfKindAppend(a[1..], b, kind);
    } else {
      assert a + b == b;
    }
  }

  lemma {:induction false} OfKindUniform(entries: seq<HittableEntry>, of: nat, kind: nat)
    requires forall k | 0 <= k < |entries| :: entries[k].Kind() == of
    ensures OfKind(entries, kind) == if of == kind then entries else []
    decreases |entries|
  {
    if entries != [] {
      OfKindUniform(entries[1..], of, kind);
    }
  }

  /** Picking one kind out of the flattened list picks it out of each of
      the six lists. */
  lemma OfKindOfFlattened(o: Objects, kind: nat)
    ensures OfKind(Flattened(o), kind)
         == OfKind(Spheres(o), kind) + OfKind(Planes(o), kind) + OfKind(Rectangles(o), kind)
          + OfKind(Cubes(o), kind) + OfKind(Triangles(o), kind) + OfKind(MeshEntries(o), kind)
  {
    var s, p, r, c, t, m := Spheres(o), Planes(o), Rectangles(o), Cubes(o), Triangles(o), MeshEntries(o);
    OfKindAppend(s, p, kind);
    OfKindAppend(s + p, r, kind);
    OfKindAppend(s + p + r, c, kind);
    OfKindAppend(s + p + r + c, t, kind);
    OfKindAppend(s + p + r + c + t, m, kind);
  }

  /** Each of the six lists holds entries of its own kind only. */
  lemma OfKindOfLists(o: Objects, kind: nat)
    ensures OfKind(Spheres(o), kind) == if kind == 0 then Spheres(o) else []
    ensures OfKind(Planes(o), kind) == if kind == 1 then Planes(o) else []
    ensures OfKind(Rectangles(o), kind) == if kind == 2 then Rectangles(o) else []
    ensures OfKind(Cubes(o), kind) == if kind == 3 then Cubes(o) else []
    ensures OfKind(Triangles(o), kind) == if kind == 4 then Triangles(o) else []
    ensures OfKind(MeshEntries(o), kind) == if kind == 5 then MeshEntries(o) else []
  {
    OfKindUniform(Spheres(o), 0, kind);
    OfKindUniform(Planes(o), 1, kind);
    OfKindUniform(Rectangles(o), 2, kind);
    OfKindUniform(Cubes(o), 3, kind);
    OfKindUniform(Triangles(o), 4, kind);
    OfKindUniform(MeshEntries(o), 5, kind);
  }

  /** `flatten` keeps the kinds apart and each list in its own order: the
      entries of each kind, picked out of the flattened list, are exactly
      that kind's list. */
  lemma FlattenedGroupsByKind(o: Objects)
    ensures OfKind(Flattened(o), 0) == Spheres(o)
    ensures OfKind(Flattened(o), 1) == Planes(o)
    ensures OfKind(Flattened(o), 2) == Rectangles(o)
    ensures OfKind(Flattened(o), 3) == Cubes(o)
    ensures OfKind(Flattened(o), 4) == Triangles(o)
    ensures OfKind(Flattened(o), 5) == MeshEntries(o)
  {
    var s, p, r, c, t, m := Spheres(o), Planes(o), Rectangles(o), Cubes(o), Triangles(o), MeshEntries(o);
    OfKindOfFlattened(o, 0);
    OfKindOfLists(o, 0);
    assert OfKind(Flattened(o), 0) == s + [] + [] + [] + [] + [];
    OfKindOfFlattened(o, 1);
    OfKindOfLists(o, 1);
    assert OfKind(Flattened(o), 1) == [] + p + [] + [] + [] + [];
    OfKindOfFlattened(o, 2);
    OfKindOfLists(o, 2);
    assert OfKind(Flattened(o), 2) == [] + [] + r + [] + [] + [];
    OfKindOfFlattened(o, 3);
    OfKindOfLists(o, 3);
    assert OfKind(Flattened(o), 3) == [] + [] + [] + c + [] + [];
    OfKindOfFlattened(o, 4);
    OfKindOfLists(o, 4);
    assert OfKind(Flattened(o), 4) == [] + [] + [] + [] + t + [];
    OfKindOfFlattened(o, 5);
    OfKindOfLists(o, 5);
    assert OfKind(Flattened(o), 5) == [] + [] + [] + [] + [] + m;
  }

  // ---------------------------------------------------------------------
  // `Materials::get`.

  /** The three lists as one list, in search order. */
  function Entries(m: Materials): seq<MaterialEntry>
  {
    seq(|m.diffuse|, k requires 0 <= k < |m.diffuse| => DiffuseEntry(m.diffuse[k]))
    + seq(|m.reflective|, k requires 0 <= k < |m.reflective| => ReflectiveEntry(m.reflective[k]))
    + seq(|m.dielectric|, k requires 0 <= k < |m.dielectric| => DielectricEntry(m.dielectric[k]))
  }

  /** The first entry with the name. */
  function FirstNamed(entries: seq<MaterialEntry>, name: string): Option<MaterialEntry>
    decreases |entries|
  {
    if entries == [] then None
    else if entries[0].Name() == name then Some(entries[0])
    else FirstNamed(entries[1..], name)
  }

  /** What `Materials::get` answers: the first entry with the name, searching
      the diffuse, then the reflective, then the dielectric list. */
  function Lookup(m: Materials, name: string): Option<MaterialEntry>
  {
    FirstNamed(Entries(m), name)
  }

  lemma {:induction false} FirstNamedFinds(entries: seq<MaterialEntry>, name: string, k: nat)
    requires k < |entries| && entries[k].Name() == name
    requires forall j | 0 <= j < k :: entries[j].Name() != name
    ensures FirstNamed(entries, name) == Some(entries[k])
    decreases k
  {
    if k > 0 {
      FirstNamedFinds(entries[1..], name, k - 1);
    }
  }

  lemma {:induction false} FirstNamedMisses(entries: seq<MaterialEntry>, name: string)
    requires forall j | 0 <= j < |entries| :: entries[j].Name() != name
    ensures FirstNamed(entries, name) == None
    decreases |entries|
  {
    if entries != [] {
      FirstNamedMisses(entries[1..], name);
    }
  }

  /** The search answers `None` exactly when no entry has the name, and
      otherwise the entry with the name that comes first. */
  lemma {:induction false} FirstNamedIsFirst(entries: seq<MaterialEntry>, name: string)
    ensures FirstNamed(entries, name).None? <==> forall j | 0 <= j < |entries| :: entries[j].Name() != name
    ensures FirstNamed(entries, name).Some? ==>
              exists k | 0 <= k < |entries| ::
                && FirstNamed(entries, name) == Some(entries[k])
                && entries[k].Name() == name
                && forall j | 0 <= j < k :: entries[j].Name() != name
    decreases |entries|
  {
    if entries != [] {
      FirstNamedIsFirst(entries[1..], name);
      if entries[0].Name() != name && FirstNamed(entries, name).Some? {
        var k :| 0 <= k < |entries[1..]| && FirstNamed(entries[1..], name) == Some(entries[1..][k])
                 && entries[1..][k].Name() == name && forall j | 0 <= j < k :: entries[1..][j].Name() != name;
        assert entries[k + 1] == entries[1..][k];
        forall j | 0 <= j < k + 1
          ensures entries[j].Name() != name
        {
          if j > 0 {
            assert entries[j] == entries[1..][j - 1];
          }
        }
      }
    }
  }

  /** `get` answers `None` exactly when none of the three lists has an entry
      with the name. */
  lemma LookupNoneIff(m: Materials, name: string)
    ensures Lookup(m, name).None? <==>
              && (forall k | 0 <= k < |m.diffuse| :: m.diffuse[k].name != name)
              && (forall k | 0 <= k < |m.reflective| :: m.reflective[k].name != name)
              && (forall k | 0 <= k < |m.dielectric| :: m.dielectric[k].name != name)
  {
    var es := Entries(m);
    var d, r := |m.diffuse|, |m.reflective|;
    FirstNamedIsFirst(es, name);
    assert forall k | 0 <= k < |m.diffuse| :: es[k] == DiffuseEntry(m.diffuse[k]);
    assert forall k | 0 <= k < |m.reflective| :: es[d + k] == ReflectiveEntry(m.reflective[k]);
    assert forall k | 0 <= k < |m.dielectric| :: es[d + r + k] == DielectricEntry(m.dielectric[k]);
  }

  /** A diffuse entry with the name is found before anything else: the
      first such entry is the answer. */
  lemma LookupFindsDiffuse(m: Materials, name: string, k: nat)
    requires k < |m.diffuse| && m.diffuse[k].name == name
    requires forall j | 0 <= j < k :: m.diffuse[j].name != name
    ensures Lookup(m, name) == Some(DiffuseEntry(m.diffuse[k]))
  {
    var es := Entries(m);
    assert forall j | 0 <= j < |m.diffuse| :: es[j] == DiffuseEntry(m.diffuse[j]);
    FirstNamedFinds(es, name, k);
  }

  /** With no diffuse entry of that name, the first reflective entry with
      the name is the answer, before any dielectric one. */
  lemma LookupFindsReflective(m: Materials, name: string, k: nat)
    requires forall j | 0 <= j < |m.diffuse| :: m.diffuse[j].name != name
    requires k < |m.reflective| && m.reflective[k].name == name
    requires forall j | 0 <= j < k :: m.reflective[j].name != name
    ensures Lookup(m, name) == Some(ReflectiveEntry(m.reflective[k]))
  {
    var es := Entries(m);
    var d := |m.diffuse|;
    assert es[d + k] == ReflectiveEntry(m.reflective[k]);
    forall j | 0 <= j < d + k
      ensures es[j].Name() != name
    {
      if j < d {
        assert es[j] == DiffuseEntry(m.diffuse[j]);
      } else {
        assert es[j] == ReflectiveEntry(m.reflective[j - d]);
      }
    }
    FirstNamedFinds(es, name, d + k);
  }

  /** With no diffuse or reflective entry of that name, the first dielectric
      entry with the name is the answer. */
  lemma LookupFindsDielectric(m: Materials, name: string, k: nat)
    requires forall j | 0 <= j < |m.diffuse| :: m.diffuse[j].name != name
    requires forall j | 0 <= j < |m.reflective| :: m.reflective[j].name != name
    requires k < |m.dielectric| && m.dielectric[k].name == name
    requires forall j | 0 <= j < k :: m.dielectric[j].name != name
    ensures Lookup(m, name) == Some(DielectricEntry(m.dielectric[k]))
  {
    var es := Entries(m);
    var d, r := |m.diffuse|, |m.reflective|;
    assert es[d + r + k] == DielectricEntry(m.dielectric[k]);
    forall j | 0 <= j < d + r + k
      ensures es[j].Name() != name
    {
      if j < d {
        assert es[j] == DiffuseEntry(m.diffuse[j]);
      } else if j < d + r {
        assert es[j] == ReflectiveEntry(m.reflective[j - d]);
      } else {
        assert es[j] == DielectricEntry(m.dielectric[j - d - r]);
      }
    }
    FirstNamedFinds(es, name, d + r + k);
  }

  /** `Materials::get`: three loops, each returning the first entry with the
      name; `None` after all three. */
  method Get(m: Materials, name: string) returns (r: Option<MaterialEntry>)
    ensures r == Lookup(m, name)
  {
    ghost var es := Entries(m);
    ghost var d, rs := |m.diffuse|, |m.reflective|;
    for k := 0 to |m.diffuse|
      invariant forall j | 0 <= j < k :: es[j].Name() != name
    {
      assert es[k] == DiffuseEntry(m.diffuse[k]);
      if m.diffuse[k].name == name {
        FirstNamedFinds(es, name, k);
        return Some(DiffuseEntry(m.diffuse[k]));
      }
    }
    for k := 0 to |m.reflective|
      invariant forall j | 0 <= j < d + k :: es[j].Name() != name
    {
      assert es[d + k] == ReflectiveEntry(m.reflective[k]);
      if m.reflective[k].name == name {
        FirstNamedFinds(es, name, d + k);
        return Some(ReflectiveEntry(m.reflective[k]));
      }
    }
    for k := 0 to |m.dielectric|
      invariant forall j | 0 <= j < d + rs + k :: es[j].Name() != name
    {
      assert es[d + rs + k] == DielectricEntry(m.dielectric[k]);
      if m.dielectric[k].name == name {
        FirstNamedFinds(es, name, d + rs + k);
        return Some(DielectricEntry(m.dielectric[k]));
      }
    }
    FirstNamedMisses(es, name);
    return None;
  }

  // ---------------------------------------------------------------------
  // Building objects.

  /** `MaterialEntry::build`: the material with the entry's parameters. It
      never fails. */
  function BuildMaterial(e: MaterialEntry): H.Material
  {
    match e
    case DiffuseEntry(d) => H.Diffuse(d.color, d.albedo)
    case ReflectiveEntry(r) => H.Reflective(r.albedo, r.fuzz)
    case DielectricEntry(d) => H.Dielectric(d.index, d.color)
  }

  /** A built object, with its material. */
  datatype Object =
    | SphereObject(center: Vec3, radius: real, material: H.Material)
    | PlaneObject(normal: Vec3, point: Vec3, material: H.Material)
    | RectangleObject(center: Vec3, width: Vec3, height: Vec3, material: H.Material)
    | CubeObject(center: Vec3, width: Vec3, height: Vec3, depth: Vec3, material: H.Material)
    | TriangleObject(triangle: H.Triangle)
    | MeshObject(triangles: seq<H.Triangle>)

  /** The material an object was built with; a mesh has none of its own,
      its triangles carry it. */
  function MaterialOf(o: Object): Option<H.Material>
  {
    match o
    case SphereObject(_, _, m) => Some(m)
    case PlaneObject(_, _, m) => Some(m)
    case RectangleObject(_, _, _, m) => Some(m)
    case CubeObject(_, _, _, _, m) => Some(m)
    case TriangleObject(t) => Some(t.material)
    case MeshObject(_) => None
  }

  /** An entry with another name. */
  function Renamed(e: MaterialEntry, name: string): MaterialEntry
  {
    match e
    case DiffuseEntry(d) => DiffuseEntry(d.(name := name))
    case ReflectiveEntry(r) => ReflectiveEntry(r.(name := name))
    case DielectricEntry(d) => DielectricEntry(d.(name := name))
  }

  /** Building a material keeps its kind and every parameter and drops only
      the name: two entries build the same material exactly when they differ
      at most in their names. */
  lemma BuildMaterialDropsOnlyName(e1: MaterialEntry, e2: MaterialEntry)
    ensures BuildMaterial(e1) == BuildMaterial(e2) <==> Renamed(e1, "") == Renamed(e2, "")
  {
    match e1
    case DiffuseEntry(d) =>
      if e2.DiffuseEntry? && BuildMaterial(e1) == BuildMaterial(e2) {
        assert d.(name := "") == e2.diffuse.(name := "");
      }
    case ReflectiveEntry(r) =>
      if e2.ReflectiveEntry? && BuildMaterial(e1) == BuildMaterial(e2) {
        assert r.(name := "") == e2.reflective.(name := "");
      }
    case DielectricEntry(d) =>
      if e2.DielectricEntry? && BuildMaterial(e1) == BuildMaterial(e2) {
        assert d.(name := "") == e2.dielectric.(name := "");
      }
  }

  /** What building a mesh needs from outside: the file's lines (or the I/O
      error), the parsers `Mesh::load` uses and the triangle transforms. */
  datatype MeshEnv = MeshEnv(
    readLines: string -> Outcome<seq<string>>,
    parseCount: string -> Parsed<nat>,
    parseFloat: string -> Parsed<real>,
    translateTriangle: (H.Triangle, Vec3) -> H.Triangle,
    rotateTriangle: (H.Triangle, Vec3) -> H.Triangle,
    scaleTriangle: (H.Triangle, Vec3) -> H.Triangle)

  /** The error every `build` returns when the material is missing. */
  const MATERIAL_NOT_FOUND: string := "Material not found"

  /** One optional transform applied to every triangle. */
  function TransformIf(triangles: seq<H.Triangle>, amount: Option<Vec3>, op: (H.Triangle, Vec3) -> H.Triangle): seq<H.Triangle>
  {
    match amount
    case None => triangles
    case Some(v) => Meshes.Transformed(triangles, t => op(t, v))
  }

  /** The transforms of a mesh entry: translation, then rotation, then scale,
      each only when present. */
  function TransformMesh(triangles: seq<H.Triangle>, entry: Mesh, env: MeshEnv): seq<H.Triangle>
  {
    var moved := TransformIf(triangles, entry.translation, env.translateTriangle);
    var turned := TransformIf(moved, entry.rotation, env.rotateTriangle);
    TransformIf(turned, entry.scale, env.scaleTriangle)
  }

  /** One optional transform of one triangle. */
  function ApplyIf(t: H.Triangle, amount: Option<Vec3>, op: (H.Triangle, Vec3) -> H.Triangle): H.Triangle
  {
    match amount
    case None => t
    case Some(v) => op(t, v)
  }

  /** Every triangle of the mesh is translated first, rotated second and
      scaled last, and the count and order are kept. */
  lemma TransformOrder(triangles: seq<H.Triangle>, entry: Mesh, env: MeshEnv)
    ensures |TransformMesh(triangles, entry, env)| == |triangles|
    ensures forall i | 0 <= i < |triangles| ::
              TransformMesh(triangles, entry, env)[i]
                == ApplyIf(ApplyIf(ApplyIf(triangles[i], entry.translation, env.translateTriangle),
                                   entry.rotation, env.rotateTriangle),
                           entry.scale, env.scaleTriangle)
  {
  }

  /** The transforms of `Mesh` build applied in place to a loaded mesh,
      through the mesh's own methods, in the source's order. */
  method ApplyTransforms(mesh: Meshes.Mesh, entry: Mesh, env: MeshEnv)
    modifies mesh
    ensures mesh.triangles == TransformMesh(old(mesh.triangles), entry, env)
  {
    if entry.translation.Some? {
      mesh.Translate(entry.translation.value, env.translateTriangle);
    }
    assert mesh.triangles == TransformIf(old(mesh.triangles), entry.translation, env.translateTriangle);
    ghost var moved := mesh.triangles;
    if entry.rotation.Some? {
      mesh.Rotate(entry.rotation.value, env.rotateTriangle);
    }
    assert mesh.triangles == TransformIf(moved, entry.rotation, env.rotateTriangle);
    ghost var turned := mesh.triangles;
    if entry.scale.Some? {
      mesh.Scale(entry.scale.value, env.scaleTriangle);
    }
    assert mesh.triangles == TransformIf(turned, entry.scale, env.scaleTriangle);
  }

  /** `Mesh` build once its material is known: read the file, lay out the
      triangles as `Mesh::load` does, then apply the transforms. */
  function BuildMesh(entry: Mesh, material: H.Material, env: MeshEnv): Outcome<Object>
  {
    match env.readLines(entry.path)
    case Err(e) => Err(e)
    case Panic => Panic
    case Ok(lines) =>
      match Meshes.LoadLayout(lines, material, env.parseCount, env.parseFloat)
      case Err(e) => Err(e)
      case Panic => Panic
      case Ok(triangles) => Ok(MeshObject(TransformMesh(triangles, entry, env)))
  }

  /** `HittableEntry::build` for every kind: look the material up first, then
      build the object with it. A missing material fails with "Material not
      found" before anything else happens, so a mesh file is then never
      read; the other kinds cannot fail otherwise. */
  function Build(entry: HittableEntry, materials: Materials, env: MeshEnv): (r: Outcome<Object>)
    ensures Lookup(materials, entry.MaterialName()).None? ==> r == Err(MATERIAL_NOT_FOUND)
    ensures Lookup(materials, entry.MaterialName()).Some? && !entry.MeshEntry? ==> r.Ok?
    ensures r.Ok? ==> Lookup(materials, entry.MaterialName()).Some?
    ensures r.Ok? ==> (r.value.MeshObject? <==> entry.MeshEntry?)
    ensures r.Ok? && !entry.MeshEntry? ==> MaterialOf(r.value) == Some(BuildMaterial(Lookup(materials, entry.MaterialName()).value))
  {
    match Lookup(materials, entry.MaterialName())
    case None => Err(MATERIAL_NOT_FOUND)
    case Some(found) =>
      var material := BuildMaterial(found);
      match entry
      case SphereEntry(s) => Ok(SphereObject(s.center, s.radius, material))
      case PlaneEntry(p) => Ok(PlaneObject(p.normal, p.point, material))
      case RectangleEntry(q) => Ok(RectangleObject(q.point, q.width, q.height, material))
      case CubeEntry(c) => Ok(CubeObject(c.center, c.width, c.height, c.depth, material))
      case TriangleEntry(t) => Ok(TriangleObject(H.Triangle(t.vertices.0, t.vertices.1, t.vertices.2, material)))
      case MeshEntry(m) => BuildMesh(m, material, env)
  }

  /** Priority reaches the built object: a sphere, plane, rectangle, cube or
      triangle whose material name is first found in the diffuse list is
      built with that diffuse entry's colour and albedo, whatever the other
      lists hold. */
  lemma BuiltWithFirstDiffuse(entry: HittableEntry, materials: Materials, env: MeshEnv, k: nat)
    requires !entry.MeshEntry?
    requires k < |materials.diffuse| && materials.diffuse[k].name == entry.MaterialName()
    requires forall j | 0 <= j < k :: materials.diffuse[j].name != entry.MaterialName()
    ensures Build(entry, materials, env).Ok?
    ensures MaterialOf(Build(entry, materials, env).value)
         == Some(H.Diffuse(materials.diffuse[k].color, materials.diffuse[k].albedo))
  {
    LookupFindsDiffuse(materials, entry.MaterialName(), k);
  }

  /** A mesh entry whose material is missing fails the same way whatever the
      file holds: the file is not consulted. */
  lemma MissingMaterialIgnoresFile(entry: Mesh, materials: Materials, env: MeshEnv, other: MeshEnv)
    requires Lookup(materials, entry.material).None?
    ensures Build(MeshEntry(entry), materials, env) == Build(MeshEntry(entry), materials, other) == Err(MATERIAL_NOT_FOUND)
  {
  }

  /** With its material found, a mesh entry ends as `Mesh::load` on the
      file does: the file's error, the count line's error or the load's
      panic; on success, the file's `count` triangles with the found
      material, each translated, rotated and scaled as the entry says. */
  lemma MeshBuildOutcome(entry: Mesh, materials: Materials, env: MeshEnv)
    requires Lookup(materials, entry.material).Some?
    ensures var material := BuildMaterial(Lookup(materials, entry.material).value);
            var r := Build(MeshEntry(entry), materials, env);
            match env.readLines(entry.path)
            case Err(e) => r == Err(e)
            case Panic => r == Panic
            case Ok(lines) =>
              var loaded := Meshes.LoadLayout(lines, material, env.parseCount, env.parseFloat);
              var count := env.parseCount(Text.Trim(Meshes.LineAt(lines, 0)));
              && (r.Err? <==> count.Invalid?)
              && (count.Invalid? ==> r == Err(count.message))
              && (loaded.Panic? ==> r == Panic)
              && (loaded.Ok? ==> && r == Ok(MeshObject(TransformMesh(loaded.value, entry, env)))
                                 && |r.value.triangles| == count.value
                                 && forall i | 0 <= i < count.value ::
                                      && loaded.value[i].material == material
                                      && r.value.triangles[i]
                                           == ApplyIf(ApplyIf(ApplyIf(loaded.value[i], entry.translation, env.translateTriangle),
                                                              entry.rotation, env.rotateTriangle),
                                                      entry.scale, env.scaleTriangle))
  {
    var material := BuildMaterial(Lookup(materials, entry.material).value);
    match env.readLines(entry.path)
    case Err(_) =>
    case Panic =>
    case Ok(lines) =>
      assert Build(MeshEntry(entry), materials, env) == BuildMesh(entry, material, env);
      Meshes.LoadCountDecides(lines, material, env.parseCount, env.parseFloat);
      var loaded := Meshes.LoadLayout(lines, material, env.parseCount, env.parseFloat);
      if loaded.Ok? {
        TransformOrder(loaded.value, entry, env);
      }
  }

  /** `map(build).collect::<Result<Vec<_>, _>>()`: the entries are built in
      order and the first failure ends the whole collection. */
  function BuildAll(entries: seq<HittableEntry>, materials: Materials, env: MeshEnv): Outcome<seq<Object>>
    decreases |entries|
  {
    if entries == [] then Ok([])
    else
      match Build(entries[0], materials, env)
      case Err(e) => Err(e)
      case Panic => Panic
      case Ok(o) =>
        match BuildAll(entries[1..], materials, env)
        case Ok(rest) => Ok([o] + rest)
        case Err(e) => Err(e)
        case Panic => Panic
  }

  /** The collection succeeds exactly when every entry builds, and then
      holds the built objects in entry order. */
  lemma {:induction false} BuildAllSucceeds(entries: seq<HittableEntry>, materials: Materials, env: MeshEnv)
    ensures BuildAll(entries, materials, env).Ok? <==> forall k | 0 <= k < |entries| :: Build(entries[k], materials, env).Ok?
    ensures BuildAll(entries, materials, env).Ok? ==>
              && |BuildAll(entries, materials, env).value| == |entries|
              && forall k | 0 <= k < |entries| :: BuildAll(entries, materials, env).value[k] == Build(entries[k], materials, env).value
    decreases |entries|
  {
    if entries != [] {
      BuildAllSucceeds(entries[1..], materials, env);
      assert forall k | 1 <= k < |entries| :: entries[1..][k - 1] == entries[k];
    }
  }

  /** The first entry that fails decides the outcome: its error, or its
      panic, is the collection's, and no later entry matters. */
  lemma {:induction false} BuildAllStopsAtFirstFailure(entries: seq<HittableEntry>, materials: Materials, env: MeshEnv, k: nat)
    requires k < |entries| && !Build(entries[k], materials, env).Ok?
    requires forall j | 0 <= j < k :: Build(entries[j], materials, env).Ok?
    ensures Build(entries[k], materials, env).Err? ==> BuildAll(entries, materials, env) == Err(Build(entries[k], materials, env).error)
    ensures Build(entries[k], materials, env).Panic? ==> BuildAll(entries, materials, env) == Panic
    decreases k
  {
    if k > 0 {
      BuildAllStopsAtFirstFailure(entries[1..], materials, env, k - 1);
    }
  }

  /** `load_scene` from the deserialised description: flatten the objects,
      build them all, and on success add them to a fresh empty scene. The
      camera is not built here. */
  method LoadScene(description: SceneEntry, env: MeshEnv) returns (r: Outcome<Scenes.Scene<Object>>)
    ensures var built := BuildAll(Flattened(description.objects), description.materials, env);
            && (r.Ok? <==> built.Ok?)
            && (built.Err? ==> r == Err(built.error))
            && (built.Panic? ==> r.Panic?)
            && (r.Ok? ==> fresh(r.value) && r.value.objects == built.value)
  {
    var materials := description.materials;
    var entries := Flatten(description.objects);
    var built := BuildAll(entries, materials, env);
    match built
    case Err(e) =>
      return Err(e);
    case Panic =>
      return Panic;
    case Ok(objects) =>
      var scene := new Scenes.Scene<Object>();
      scene.AddObjects(objects);
      return Ok(scene);
  }
}
