/** src/hittable/mesh.rs: a mesh is a list of triangles. Its hit is the
    nearest triangle hit (first one on a tie), its transforms rewrite every
    triangle in place, and `load` reads a line-oriented text layout: a count
    line, then per triangle one ignored line and three vertex lines. */
module Meshes {
  import opened Base
  import opened Hittables
  import Text

  /** `filter_map`: the hits of the triangles that report one, in triangle
      order. Every triangle is asked with the same interval. */
  function Replies(triangles: seq<Triangle>, hitTriangle: TriangleHit, ray: Ray, tMin: real, tMax: real): seq<HitRecord>
    decreases |triangles|
  {
    if triangles == [] then []
    else
      var before := Replies(triangles[..|triangles| - 1], hitTriangle, ray, tMin, tMax);
      match hitTriangle(triangles[|triangles| - 1], ray, tMin, tMax)
      case Some(h) => before + [h]
      case None => before
  }

  /** `cmp::min_by` with the comparison of `t`: the accumulator is kept
      unless the next hit is strictly nearer. */
  function Nearer(acc: HitRecord, next: HitRecord): HitRecord
  {
    if next.t < acc.t then next else acc
  }

  /** `Iterator::reduce` of `Nearer` over a non-empty list, from the left. */
  function Reduce(hits: seq<HitRecord>): HitRecord
    requires hits != []
    decreases |hits|
  {
    if |hits| == 1 then hits[0] else Nearer(Reduce(hits[..|hits| - 1]), hits[|hits| - 1])
  }

  /** `Iterator::min_by` on `t`. */
  function MinByT(hits: seq<HitRecord>): Option<HitRecord>
  {
    if hits == [] then None else Some(Reduce(hits))
  }

  lemma RepliesOfPrefix(triangles: seq<Triangle>, hitTriangle: TriangleHit, ray: Ray, tMin: real, tMax: real)
    requires triangles != []
    ensures var n := |triangles| - 1;
            var before := Replies(triangles[..n], hitTriangle, ray, tMin, tMax);
            Replies(triangles, hitTriangle, ray, tMin, tMax)
              == match hitTriangle(triangles[n], ray, tMin, tMax)
                 case Some(h) => before + [h]
                 case None => before
  {
  }

  /** No hit is listed exactly when no triangle reports one. */
  lemma {:induction false} RepliesEmptyIffNoHit(triangles: seq<Triangle>, hitTriangle: TriangleHit, ray: Ray, tMin: real, tMax: real)
    ensures Replies(triangles, hitTriangle, ray, tMin, tMax) == []
        <==> forall i | 0 <= i < |triangles| :: hitTriangle(triangles[i], ray, tMin, tMax).None?
    decreases |triangles|
  {
    if triangles != [] {
      var n := |triangles| - 1;
      RepliesEmptyIffNoHit(triangles[..n], hitTriangle, ray, tMin, tMax);
      assert forall j | 0 <= j < n :: triangles[..n][j] == triangles[j];
    }
  }

  /** Every triangle's hit is listed. */
  lemma {:induction false} RepliesListEveryHit(triangles: seq<Triangle>, hitTriangle: TriangleHit, ray: Ray, tMin: real, tMax: real)
    ensures forall i | 0 <= i < |triangles| && hitTriangle(triangles[i], ray, tMin, tMax).Some? ::
              hitTriangle(triangles[i], ray, tMin, tMax).value in Replies(triangles, hitTriangle, ray, tMin, tMax)
    decreases |triangles|
  {
    if triangles != [] {
      var n := |triangles| - 1;
      RepliesListEveryHit(triangles[..n], hitTriangle, ray, tMin, tMax);
      assert forall j | 0 <= j < n :: triangles[..n][j] == triangles[j];
    }
  }

  /** The reduction is no farther than any hit of the list. */
  lemma {:induction false} ReduceIsNearest(hits: seq<HitRecord>)
    requires hits != []
    ensures forall h | h in hits :: Reduce(hits).t <= h.t
    decreases |hits|
  {
    if |hits| > 1 {
      var n := |hits| - 1;
      ReduceIsNearest(hits[..n]);
      assert hits == hits[..n] + [hits[n]];
    }
  }

  /** The mesh answer is the hit of some triangle that is strictly nearer
      than the hits of all triangles before it: the earliest triangle wins
      a tie, as with `Iterator::min_by`. */
  lemma {:induction false} EarliestNearestTriangle(triangles: seq<Triangle>, hitTriangle: TriangleHit, ray: Ray, tMin: real, tMax: real)
    ensures var r := MinByT(Replies(triangles, hitTriangle, ray, tMin, tMax));
            r.Some? ==> exists i | 0 <= i < |triangles| ::
                          && hitTriangle(triangles[i], ray, tMin, tMax) == r
                          && forall j | 0 <= j < i && hitTriangle(triangles[j], ray, tMin, tMax).Some? ::
                               r.value.t < hitTriangle(triangles[j], ray, tMin, tMax).value.t
    decreases |triangles|
  {
    if triangles != [] {
      var n := |triangles| - 1;
      var init := triangles[..n];
      assert forall j | 0 <= j < n :: init[j] == triangles[j];
      var before := Replies(init, hitTriangle, ray, tMin, tMax);
      var last := hitTriangle(triangles[n], ray, tMin, tMax);
      RepliesOfPrefix(triangles, hitTriangle, ray, tMin, tMax);
      EarliestNearestTriangle(init, hitTriangle, ray, tMin, tMax);
      var r := MinByT(Replies(triangles, hitTriangle, ray, tMin, tMax));
      if last.Some? {
        var hits := before + [last.value];
        assert hits[..|hits| - 1] == before;
        if before == [] {
          RepliesEmptyIffNoHit(init, hitTriangle, ray, tMin, tMax);
          assert r == last;
        } else if last.value.t < Reduce(before).t {
          assert r == last;
          ReduceIsNearest(before);
          RepliesListEveryHit(init, hitTriangle, ray, tMin, tMax);
          forall j | 0 <= j < n && hitTriangle(triangles[j], ray, tMin, tMax).Some?
            ensures r.value.t < hitTriangle(triangles[j], ray, tMin, tMax).value.t
          {
            assert hitTriangle(init[j], ray, tMin, tMax).value in before;
          }
        } else {
          assert r == MinByT(before);
        }
      }
    }
  }

  /** `map` over a list of triangles: the list an in-place `iter_mut` pass
      leaves, with every triangle rewritten once and the order kept. */
  function Transformed(triangles: seq<Triangle>, op: Triangle -> Triangle): (r: seq<Triangle>)
    ensures |r| == |triangles|
    ensures forall i | 0 <= i < |triangles| :: r[i] == op(triangles[i])
    decreases |triangles|
  {
    if triangles == [] then [] else [op(triangles[0])] + Transformed(triangles[1..], op)
  }

  /** `Mesh`: the triangles, updated in place by the transforms. */
  class Mesh {
    var triangles: seq<Triangle>

    /** `Mesh::new`. */
    constructor (triangles: seq<Triangle>)
      ensures this.triangles == triangles
    {
      this.triangles := triangles;
    }

    /** `Hittable for Mesh::hit`: the nearest triangle hit on `[tMin, tMax]`,
        the earliest triangle on a tie. */
    function Hit(ray: Ray, tMin: real, tMax: real, hitTriangle: TriangleHit): (r: Option<HitRecord>)
      reads this
      ensures r.None? <==> forall i | 0 <= i < |triangles| :: hitTriangle(triangles[i], ray, tMin, tMax).None?
      ensures r.Some? ==> exists i | 0 <= i < |triangles| ::
                            && hitTriangle(triangles[i], ray, tMin, tMax) == r
                            && forall j | 0 <= j < i && hitTriangle(triangles[j], ray, tMin, tMax).Some? ::
                                 r.value.t < hitTriangle(triangles[j], ray, tMin, tMax).value.t
      ensures forall j | 0 <= j < |triangles| && hitTriangle(triangles[j], ray, tMin, tMax).Some? ::
                r.Some? && r.value.t <= hitTriangle(triangles[j], ray, tMin, tMax).value.t
    {
      RepliesEmptyIffNoHit(triangles, hitTriangle, ray, tMin, tMax);
      RepliesListEveryHit(triangles, hitTriangle, ray, tMin, tMax);
      EarliestNearestTriangle(triangles, hitTriangle, ray, tMin, tMax);
      var hits := Replies(triangles, hitTriangle, ray, tMin, tMax);
      if hits != [] then ReduceIsNearest(hits); MinByT(hits) else MinByT(hits)
    }

    /** `get_object_count`: the number of triangles. */
    function GetObjectCount(): (n: nat)
      reads this
      ensures n == |triangles|
    {
      |triangles|
    }

    /** One `iter_mut().for_each` pass: rewrite each triangle in place, in order. */
    method ForEachTriangle(op: Triangle -> Triangle)
      modifies this
      ensures triangles == Transformed(old(triangles), op)
      ensures GetObjectCount() == old(GetObjectCount())
    {
      for i := 0 to |triangles|
        invariant |triangles| == |old(triangles)|
        invariant forall k | 0 <= k < i :: triangles[k] == op(old(triangles)[k])
        invariant forall k | i <= k < |triangles| :: triangles[k] == old(triangles)[k]
      {
        triangles := triangles[i := op(triangles[i])];
      }
    }

    /** `translate`: every triangle moved by `translation`, by the triangle's
        own `translate` (an oracle here). */
    method Translate(translation: Vec3, translateTriangle: (Triangle, Vec3) -> Triangle)
      modifies this
      ensures |triangles| == |old(triangles)|
      ensures forall i | 0 <= i < |triangles| :: triangles[i] == translateTriangle(old(triangles)[i], translation)
    {
      ForEachTriangle(t => translateTriangle(t, translation));
    }

    /** `rotate`: every triangle rotated by `rotation`. */
    method Rotate(rotation: Vec3, rotateTriangle: (Triangle, Vec3) -> Triangle)
      modifies this
      ensures |triangles| == |old(triangles)|
      ensures forall i | 0 <= i < |triangles| :: triangles[i] == rotateTriangle(old(triangles)[i], rotation)
    {
      ForEachTriangle(t => rotateTriangle(t, rotation));
    }

    /** `scale`: every triangle scaled by `scale`. */
    method Scale(scale: Vec3, scaleTriangle: (Triangle, Vec3) -> Triangle)
      modifies this
      ensures |triangles| == |old(triangles)|
      ensures forall i | 0 <= i < |triangles| :: triangles[i] == scaleTriangle(old(triangles)[i], scale)
    {
      ForEachTriangle(t => scaleTriangle(t, scale));
    }
  }

  // ---------------------------------------------------------------------
  // The text layout read by `Mesh::load`.

  /** What `read_line` leaves in the cleared buffer when it reads line `n`:
      that line, or nothing at the end of the file. */
  function LineAt(lines: seq<string>, n: nat): string
  {
    if n < |lines| then lines[n] else ""
  }

  /** The line holding vertex `v` of triangle `i`. */
  function VertexLine(i: nat, v: nat): nat
  {
    4 * i + 2 + v
  }

  /** A vertex line: the first three whitespace-separated words, each parsed
      as a float. `None` is a panic: fewer than three words index out of
      range, and a word that does not parse is unwrapped. */
  function VertexOf(line: string, parseFloat: string -> Parsed<real>): Option<Vec3>
  {
    var words := Text.SplitWhitespace(line);
    if |words| < 3 then None
    else
      match (parseFloat(words[0]), parseFloat(words[1]), parseFloat(words[2]))
      case (Parsed(x), Parsed(y), Parsed(z)) => Some(Vec3(x, y, z))
      case _ => None
  }

  /** Triangle `i` of the file: the vertices on lines `4i+2`, `4i+3` and
      `4i+4` with the given material, or `None` when one of them lacks a vertex. */
  function TriangleAt(lines: seq<string>, i: nat, material: Material, parseFloat: string -> Parsed<real>): Option<Triangle>
  {
    match (VertexOf(LineAt(lines, VertexLine(i, 0)), parseFloat),
           VertexOf(LineAt(lines, VertexLine(i, 1)), parseFloat),
           VertexOf(LineAt(lines, VertexLine(i, 2)), parseFloat))
    case (Some(a), Some(b), Some(c)) => Some(Triangle(a, b, c, material))
    case _ => None
  }

  /** The triangles of the file, by index. */
  function TrianglesOf(lines: seq<string>, material: Material, parseFloat: string -> Parsed<real>): nat -> Option<Triangle>
  {
    (i: nat) => TriangleAt(lines, i, material, parseFloat)
  }

  /** Every one of the first `count` triangles is laid out in full. */
  predicate AllSome(at: nat -> Option<Triangle>, count: nat)
  {
    forall i | 0 <= i < count :: at(i).Some?
  }

  /** The first `count` triangles, in order. */
  function Prefix(at: nat -> Option<Triangle>, count: nat): seq<Triangle>
    requires AllSome(at, count)
    decreases count
  {
    if count == 0 then [] else Prefix(at, count - 1) + [at(count - 1).value]
  }

  /** The prefix has `count` triangles, and its triangle `k` is triangle `k`. */
  lemma {:induction false} PrefixShape(at: nat -> Option<Triangle>, count: nat)
    requires AllSome(at, count)
    ensures |Prefix(at, count)| == count
    ensures forall k | 0 <= k < count :: Some(Prefix(at, count)[k]) == at(k)
    decreases count
  {
    if count > 0 {
      assert AllSome(at, count - 1);
      PrefixShape(at, count - 1);
    }
  }

  /** Two ways of reading triangles that agree on the first `count` agree on
      whether those all lay out, and on the prefix. */
  lemma {:induction false} PrefixAgrees(at: nat -> Option<Triangle>, at': nat -> Option<Triangle>, count: nat)
    requires forall k | 0 <= k < count :: at(k) == at'(k)
    ensures AllSome(at, count) <==> AllSome(at', count)
    ensures AllSome(at, count) ==> Prefix(at, count) == Prefix(at', count)
    decreases count
  {
    if count > 0 {
      PrefixAgrees(at, at', count - 1);
    }
  }

  /** What `Mesh::load` makes of a file, stated by the layout: an error when
      the trimmed first line is not a count, a panic when some vertex line of
      the counted triangles lacks a vertex, and otherwise exactly `count`
      triangles, triangle `i` from lines `4i+2`, `4i+3` and `4i+4`, each
      with the given material. Line `4i+1` is never looked at. */
  function LoadLayout(lines: seq<string>, material: Material, parseCount: string -> Parsed<nat>, parseFloat: string -> Parsed<real>): Outcome<seq<Triangle>>
  {
    match parseCount(Text.Trim(LineAt(lines, 0)))
    case Invalid(message) => Err(message)
    case Parsed(count) =>
      var at := TrianglesOf(lines, material, parseFloat);
      if !AllSome(at, count) then Panic else Ok(Prefix(at, count))
  }

  /** One vertex line of `Mesh::load`: split it, index the first three words
      and unwrap their parses; `None` where the source panics. */
  method ReadVertex(line: string, parseFloat: string -> Parsed<real>) returns (p: Option<Vec3>)
    ensures p == VertexOf(line, parseFloat)
  {
    var words := Text.SplitWhitespace(line);
    if |words| < 3 {
      return None;
    }
    var x := parseFloat(words[0]);
    var y := parseFloat(words[1]);
    var z := parseFloat(words[2]);
    if x.Invalid? || y.Invalid? || z.Invalid? {
      return None;
    }
    return Some(Vec3(x.value, y.value, z.value));
  }

  /** A vertex line of three words separated by whitespace, with anything
      after the third word that starts with whitespace: the vertex is the
      three words parsed, in order, and a word that does not parse panics.
      Further words are ignored. */
  lemma VertexFromWords(w0: string, c0: char, w1: string, c1: char, w2: string, rest: string, parseFloat: string -> Parsed<real>)
    requires Text.IsWord(w0) && Text.IsWord(w1) && Text.IsWord(w2)
    requires Text.IsWhitespace(c0) && Text.IsWhitespace(c1)
    requires rest == [] || Text.IsWhitespace(rest[0])
    ensures VertexOf(w0 + [c0] + w1 + [c1] + w2 + rest, parseFloat)
         == if parseFloat(w0).Parsed? && parseFloat(w1).Parsed? && parseFloat(w2).Parsed?
            then Some(Vec3(parseFloat(w0).value, parseFloat(w1).value, parseFloat(w2).value))
            else None
  {
    var line := w0 + [c0] + w1 + [c1] + w2 + rest;
    assert line == w0 + ([c0] + (w1 + ([c1] + (w2 + rest))));
    Text.SplitThreeWords(w0, c0, w1, c1, w2, rest);
    VertexOfSplit(line, [w0, w1, w2], Text.SplitWhitespace(rest), parseFloat);
  }

  /** Only the first three words of a vertex line matter. */
  lemma VertexOfSplit(line: string, first: seq<string>, more: seq<string>, parseFloat: string -> Parsed<real>)
    requires |first| == 3 && Text.SplitWhitespace(line) == first + more
    ensures VertexOf(line, parseFloat)
         == if parseFloat(first[0]).Parsed? && parseFloat(first[1]).Parsed? && parseFloat(first[2]).Parsed?
            then Some(Vec3(parseFloat(first[0]).value, parseFloat(first[1]).value, parseFloat(first[2]).value))
            else None
  {
    var words := Text.SplitWhitespace(line);
    assert words[0] == first[0] && words[1] == first[1] && words[2] == first[2];
  }

  /** A vertex line with at most two words, the rest blank, panics. */
  lemma TwoWordsPanic(w0: string, c0: char, w1: string, rest: string, parseFloat: string -> Parsed<real>)
    requires Text.IsWord(w0) && Text.IsWord(w1) && Text.IsWhitespace(c0)
    requires forall k | 0 <= k < |rest| :: Text.IsWhitespace(rest[k])
    ensures VertexOf(w0 + [c0] + w1 + rest, parseFloat).None?
  {
    var tail0 := [c0] + (w1 + rest);
    assert w0 + [c0] + w1 + rest == w0 + tail0;
    Text.SplitWhitespaceOfBlank(rest);
    Text.SplitWhitespaceTakesWholeWord(w1, rest);
    Text.SplitWhitespaceSkipsWhitespace(c0, w1 + rest);
    Text.SplitWhitespaceTakesWholeWord(w0, tail0);
  }

  /** The body of the outer loop of `Mesh::load` for triangle `i`: skip a
      line, read three vertices into `points` and build the triangle. */
  method ReadTriangle(lines: seq<string>, i: nat, material: Material, parseFloat: string -> Parsed<real>)
    returns (t: Option<Triangle>)
    ensures t == TriangleAt(lines, i, material, parseFloat)
  {
    var next := 4 * i + 1;
    var line := LineAt(lines, next);
    next := next + 1;
    var points: seq<Vec3> := [];
    for v := 0 to 3
      invariant next == VertexLine(i, v)
      invariant |points| == v
      invariant forall w | 0 <= w < v :: VertexOf(LineAt(lines, VertexLine(i, w)), parseFloat) == Some(points[w])
    {
      line := LineAt(lines, next);
      next := next + 1;
      var p := ReadVertex(line, parseFloat);
      if p.None? {
        return None;
      }
      points := points + [p.value];
    }
    return Some(Triangle(points[0], points[1], points[2], material));
  }

  /** The outer loop of `Mesh::load`: the first `count` triangles, read one
      after the other; `None`, a panic, as soon as one lacks a vertex. */
  method ReadTriangles(lines: seq<string>, count: nat, material: Material, parseFloat: string -> Parsed<real>)
    returns (r: Option<seq<Triangle>>)
    ensures r.Some? <==> AllSome(TrianglesOf(lines, material, parseFloat), count)
    ensures r.Some? ==> r.value == Prefix(TrianglesOf(lines, material, parseFloat), count)
  {
    ghost var at := TrianglesOf(lines, material, parseFloat);
    var triangles: seq<Triangle> := [];
    for i := 0 to count
      invariant AllSome(at, i)
      invariant triangles == Prefix(at, i)
    {
      var t := ReadTriangle(lines, i, material, parseFloat);
      assert at(i) == t;
      if t.None? {
        return None;
      }
      assert AllSome(at, i + 1);
      triangles := triangles + [t.value];
    }
    return Some(triangles);
  }

  /** `Mesh::load` over the lines of the file: read the count, then for each
      triangle skip a line and read three vertices. */
  method Load(lines: seq<string>, material: Material, parseCount: string -> Parsed<nat>, parseFloat: string -> Parsed<real>)
    returns (r: Outcome<seq<Triangle>>)
    ensures r == LoadLayout(lines, material, parseCount, parseFloat)
  {
    var line := LineAt(lines, 0);
    var count := parseCount(Text.Trim(line));
    if count.Invalid? {
      return Err(count.message);
    }
    var triangles := ReadTriangles(lines, count.value, material, parseFloat);
    if triangles.None? {
      return Panic;
    }
    return Ok(triangles.value);
  }

  /** The count line decides between error and success alone: `load`
      fails with an error exactly when the trimmed first line is not a
      count, and on success it yields exactly that many triangles, all
      with the given material. */
  lemma LoadCountDecides(lines: seq<string>, material: Material, parseCount: string -> Parsed<nat>, parseFloat: string -> Parsed<real>)
    ensures LoadLayout(lines, material, parseCount, parseFloat).Err?
        <==> parseCount(Text.Trim(LineAt(lines, 0))).Invalid?
    ensures var r := LoadLayout(lines, material, parseCount, parseFloat);
            r.Ok? ==> && parseCount(Text.Trim(LineAt(lines, 0))) == Parsed(|r.value|)
                      && forall i | 0 <= i < |r.value| :: r.value[i].material == material
  {
    match parseCount(Text.Trim(LineAt(lines, 0)))
    case Invalid(_) =>
    case Parsed(count) =>
      var at := TrianglesOf(lines, material, parseFloat);
      if AllSome(at, count) {
        PrefixShape(at, count);
        forall k | 0 <= k < count
          ensures Prefix(at, count)[k].material == material
        {
          assert Some(Prefix(at, count)[k]) == TriangleAt(lines, k, material, parseFloat);
        }
      }
  }

  /** A mesh made from a successful load reports as many objects as the
      file's count line says. */
  lemma LoadedObjectCount(mesh: Mesh, lines: seq<string>, material: Material, parseCount: string -> Parsed<nat>, parseFloat: string -> Parsed<real>)
    requires LoadLayout(lines, material, parseCount, parseFloat) == Ok(mesh.triangles)
    ensures parseCount(Text.Trim(LineAt(lines, 0))) == Parsed(mesh.GetObjectCount())
  {
    LoadCountDecides(lines, material, parseCount, parseFloat);
  }

  /** A file that ends before the last vertex line of the counted triangles
      makes `load` panic rather than fail with an error. */
  lemma TruncatedFilePanics(lines: seq<string>, material: Material, parseCount: string -> Parsed<nat>, parseFloat: string -> Parsed<real>)
    requires parseCount(Text.Trim(LineAt(lines, 0))).Parsed?
    requires var count := parseCount(Text.Trim(LineAt(lines, 0))).value;
             count > 0 && |lines| <= 4 * count
    ensures LoadLayout(lines, material, parseCount, parseFloat) == Panic
  {
    var count := parseCount(Text.Trim(LineAt(lines, 0))).value;
    assert LineAt(lines, VertexLine(count - 1, 2)) == "";
    assert Text.SplitWhitespace("") == [];
    assert VertexOf(LineAt(lines, VertexLine(count - 1, 2)), parseFloat).None?;
    assert TriangleAt(lines, count - 1, material, parseFloat).None?;
    assert TrianglesOf(lines, material, parseFloat)(count - 1).None?;
  }

  /** The line before each triangle's vertices is read and discarded:
      replacing it changes nothing. */
  lemma SkippedLineIgnored(lines: seq<string>, i: nat, other: string, material: Material, parseCount: string -> Parsed<nat>, parseFloat: string -> Parsed<real>)
    requires 4 * i + 1 < |lines|
    ensures LoadLayout(lines[4 * i + 1 := other], material, parseCount, parseFloat)
         == LoadLayout(lines, material, parseCount, parseFloat)
  {
    var lines' := lines[4 * i + 1 := other];
    assert LineAt(lines', 0) == LineAt(lines, 0);
    forall k: nat | true
      ensures TriangleAt(lines', k, material, parseFloat) == TriangleAt(lines, k, material, parseFloat)
    {
      assert LineAt(lines', VertexLine(k, 0)) == LineAt(lines, VertexLine(k, 0));
      assert LineAt(lines', VertexLine(k, 1)) == LineAt(lines, VertexLine(k, 1));
      assert LineAt(lines', VertexLine(k, 2)) == LineAt(lines, VertexLine(k, 2));
    }
    match parseCount(Text.Trim(LineAt(lines, 0)))
    case Invalid(_) =>
    case Parsed(count) =>
      PrefixAgrees(TrianglesOf(lines', material, parseFloat), TrianglesOf(lines, material, parseFloat), count);
  }
}
