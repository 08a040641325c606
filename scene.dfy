/** src/scene.rs: the scene as an ordered, growable list of objects, and its
    nearest-hit query, a scan whose upper bound shrinks to each reported `t`.
    An object's own intersection routine is an oracle `HitFn`, asked with the
    object, the ray and an interval. */
module Scenes {
  import opened Base

  /** The hit record of src/scene.rs: point, normal and distance `t`. */
  datatype HitRecord = HitRecord(point: Vec3, normal: Vec3, t: real) {
    function GetPoint(): Vec3 { point }
    function GetNormal(): Vec3 { normal }
    function GetT(): real { t }
  }

  lemma GettersReturnConstructorArguments(point: Vec3, normal: Vec3, t: real)
    ensures HitRecord(point, normal, t).GetPoint() == point
    ensures HitRecord(point, normal, t).GetNormal() == normal
    ensures HitRecord(point, normal, t).GetT() == t
  {
  }

  /** The `Hittable::hit` of the objects of a scene. */
  type HitFn<!O> = (O, Ray, real, real) -> Option<HitRecord>

  /** The two locals of `Scene::hit`: the current upper bound `closest_t`
      and the current answer `closest_hit`. */
  datatype ScanState = ScanState(bound: real, closest: Option<HitRecord>)

  /** One iteration: a reply replaces both the answer and the bound. */
  function Step(s: ScanState, reply: Option<HitRecord>): ScanState
  {
    if reply.Some? then ScanState(reply.value.t, reply) else s
  }

  /** The locals after visiting `objects` in order, from the bound `tMax`
      and no answer. */
  function Scan<O>(objects: seq<O>, hit: HitFn<O>, ray: Ray, tMin: real, tMax: real): ScanState
    decreases |objects|
  {
    if objects == [] then ScanState(tMax, None)
    else
      var before := Scan(objects[..|objects| - 1], hit, ray, tMin, tMax);
      Step(before, hit(objects[|objects| - 1], ray, tMin, before.bound))
  }

  /** What object `k` answers during the scan: it is asked with the bound
      left by the objects before it. */
  function Reply<O>(objects: seq<O>, hit: HitFn<O>, ray: Ray, tMin: real, tMax: real, k: nat): Option<HitRecord>
    requires k < |objects|
  {
    hit(objects[k], ray, tMin, Scan(objects[..k], hit, ray, tMin, tMax).bound)
  }

  /** Every reported `t` lies in the closed interval the object was asked
      with (the sphere and the plane even keep to the open one). */
  ghost predicate Respects<O(!new)>(hit: HitFn<O>, ray: Ray)
  {
    forall o, lo, hi | hit(o, ray, lo, hi).Some? :: lo <= hit(o, ray, lo, hi).value.t <= hi
  }

  /** An object's answer is consistent as the upper bound shrinks: a hit
      found under a smaller bound is the hit found under a larger one, and
      a hit that lies strictly below a smaller bound is still found there.
      Both the one-root formulas (plane, rectangle, cube, triangle) and the
      nearer-root-first sphere formula behave this way. */
  ghost predicate Nested<O(!new)>(hit: HitFn<O>, ray: Ray)
  {
    && (forall o, lo, hi, hi' | hi' <= hi && hit(o, ray, lo, hi').Some? ::
          hit(o, ray, lo, hi) == hit(o, ray, lo, hi'))
    && (forall o, lo, hi, hi' | hi' <= hi && hit(o, ray, lo, hi).Some? && hit(o, ray, lo, hi).value.t < hi' ::
          hit(o, ray, lo, hi') == hit(o, ray, lo, hi))
  }

  lemma ScanOfPrefix<O>(objects: seq<O>, hit: HitFn<O>, ray: Ray, tMin: real, tMax: real, k: nat)
    requires k < |objects|
    ensures Scan(objects[..k + 1], hit, ray, tMin, tMax)
         == Step(Scan(objects[..k], hit, ray, tMin, tMax), Reply(objects, hit, ray, tMin, tMax, k))
  {
    assert objects[..k + 1][..k] == objects[..k];
  }

  lemma ReplyOfPrefix<O>(objects: seq<O>, hit: HitFn<O>, ray: Ray, tMin: real, tMax: real, n: nat, k: nat)
    requires k < n <= |objects|
    ensures Reply(objects[..n], hit, ray, tMin, tMax, k) == Reply(objects, hit, ray, tMin, tMax, k)
  {
    assert objects[..n][..k] == objects[..k];
  }

  /** The bound is replaced only by a reported `t`: it is `tMax` while
      nothing has been found, and the answer's `t` afterwards. */
  lemma {:induction false} BoundIsAnswerT<O>(objects: seq<O>, hit: HitFn<O>, ray: Ray, tMin: real, tMax: real)
    ensures var s := Scan(objects, hit, ray, tMin, tMax);
            s.bound == if s.closest.Some? then s.closest.value.t else tMax
  {
    if objects != [] {
      BoundIsAnswerT(objects[..|objects| - 1], hit, ray, tMin, tMax);
    }
  }

  /** The scan answers `None` exactly when every object declined. */
  lemma {:induction false} ScanMissesIffAllDecline<O>(objects: seq<O>, hit: HitFn<O>, ray: Ray, tMin: real, tMax: real)
    ensures Scan(objects, hit, ray, tMin, tMax).closest.None?
        <==> forall k | 0 <= k < |objects| :: Reply(objects, hit, ray, tMin, tMax, k).None?
  {
    if objects != [] {
      var n := |objects| - 1;
      var prefix := objects[..n];
      ScanMissesIffAllDecline(prefix, hit, ray, tMin, tMax);
      assert objects[..n + 1] == objects;
      ScanOfPrefix(objects, hit, ray, tMin, tMax, n);
      forall k | 0 <= k < n
        ensures Reply(prefix, hit, ray, tMin, tMax, k) == Reply(objects, hit, ray, tMin, tMax, k)
      {
        ReplyOfPrefix(objects, hit, ray, tMin, tMax, n, k);
      }
    }
  }

  /** A scan that found something answers with the reply of the last object
      that accepted: every later object declined. */
  lemma {:induction false} ScanKeepsLastReply<O>(objects: seq<O>, hit: HitFn<O>, ray: Ray, tMin: real, tMax: real)
    requires Scan(objects, hit, ray, tMin, tMax).closest.Some?
    ensures exists k | 0 <= k < |objects| ::
              && Reply(objects, hit, ray, tMin, tMax, k) == Scan(objects, hit, ray, tMin, tMax).closest
              && forall j | k < j < |objects| :: Reply(objects, hit, ray, tMin, tMax, j).None?
  {
    var n := |objects| - 1;
    var prefix := objects[..n];
    var r := Scan(objects, hit, ray, tMin, tMax).closest;
    assert objects[..n + 1] == objects;
    ScanOfPrefix(objects, hit, ray, tMin, tMax, n);
    if Reply(objects, hit, ray, tMin, tMax, n).Some? {
      assert Reply(objects, hit, ray, tMin, tMax, n) == r;
    } else {
      ScanKeepsLastReply(prefix, hit, ray, tMin, tMax);
      var k :| 0 <= k < n
               && Reply(prefix, hit, ray, tMin, tMax, k) == r
               && forall j | k < j < n :: Reply(prefix, hit, ray, tMin, tMax, j).None?;
      ReplyOfPrefix(objects, hit, ray, tMin, tMax, n, k);
      forall j | k < j < |objects|
        ensures Reply(objects, hit, ray, tMin, tMax, j).None?
      {
        if j < n {
          ReplyOfPrefix(objects, hit, ray, tMin, tMax, n, j);
        }
      }
    }
  }

  /** With answers inside their intervals, one step never raises the bound. */
  lemma StepLowersBound<O(!new)>(objects: seq<O>, hit: HitFn<O>, ray: Ray, tMin: real, tMax: real, k: nat)
    requires Respects(hit, ray)
    requires k < |objects|
    ensures Scan(objects[..k + 1], hit, ray, tMin, tMax).bound <= Scan(objects[..k], hit, ray, tMin, tMax).bound
  {
    ScanOfPrefix(objects, hit, ray, tMin, tMax, k);
  }

  /** The bound passed to successive objects never increases: it starts at
      `tMax` and only moves down. */
  lemma {:induction false} BoundNeverIncreases<O(!new)>(objects: seq<O>, hit: HitFn<O>, ray: Ray, tMin: real, tMax: real, j: nat, k: nat)
    requires Respects(hit, ray)
    requires j <= k <= |objects|
    ensures Scan(objects[..k], hit, ray, tMin, tMax).bound <= Scan(objects[..j], hit, ray, tMin, tMax).bound <= tMax
    decreases k
  {
    if j < k {
      StepLowersBound(objects, hit, ray, tMin, tMax, k - 1);
      BoundNeverIncreases(objects, hit, ray, tMin, tMax, j, k - 1);
    } else if j == 0 {
      assert objects[..j] == [];
    } else {
      StepLowersBound(objects, hit, ray, tMin, tMax, j - 1);
      BoundNeverIncreases(objects, hit, ray, tMin, tMax, j - 1, j - 1);
    }
  }

  /** With answers inside their intervals, the scene's answer lies in
      `[tMin, tMax]` and is no farther than any hit reported during the scan. */
  lemma HitWithinInterval<O(!new)>(objects: seq<O>, hit: HitFn<O>, ray: Ray, tMin: real, tMax: real)
    requires Respects(hit, ray)
    ensures var r := Scan(objects, hit, ray, tMin, tMax).closest;
            r.Some? ==> tMin <= r.value.t <= tMax
    ensures var r := Scan(objects, hit, ray, tMin, tMax).closest;
            forall k | 0 <= k < |objects| && Reply(objects, hit, ray, tMin, tMax, k).Some? ::
              r.Some? && r.value.t <= Reply(objects, hit, ray, tMin, tMax, k).value.t
  {
    var n := |objects|;
    var s := Scan(objects, hit, ray, tMin, tMax);
    assert objects[..n] == objects;
    BoundIsAnswerT(objects, hit, ray, tMin, tMax);
    ScanMissesIffAllDecline(objects, hit, ray, tMin, tMax);
    if s.closest.Some? {
      ScanKeepsLastReply(objects, hit, ray, tMin, tMax);
    }
    BoundNeverIncreases(objects, hit, ray, tMin, tMax, 0, n);
    forall k | 0 <= k < n && Reply(objects, hit, ray, tMin, tMax, k).Some?
      ensures s.closest.Some? && s.closest.value.t <= Reply(objects, hit, ray, tMin, tMax, k).value.t
    {
      ScanOfPrefix(objects, hit, ray, tMin, tMax, k);
      BoundNeverIncreases(objects, hit, ray, tMin, tMax, k + 1, n);
    }
  }

  /** The scene reports the nearest hit: when every object answers
      consistently under a shrinking bound, the scan's answer is some
      object's own answer on the whole interval, it is `None` only when no
      object has a hit there, and no object's hit is nearer. So the result
      does not depend on the order of the objects, up to ties. */
  lemma {:induction false} SceneReportsNearestHit<O(!new)>(objects: seq<O>, hit: HitFn<O>, ray: Ray, tMin: real, tMax: real)
    requires Respects(hit, ray) && Nested(hit, ray)
    ensures var r := Scan(objects, hit, ray, tMin, tMax).closest;
            r.None? <==> forall k | 0 <= k < |objects| :: hit(objects[k], ray, tMin, tMax).None?
    ensures var r := Scan(objects, hit, ray, tMin, tMax).closest;
            r.Some? ==> exists k | 0 <= k < |objects| :: hit(objects[k], ray, tMin, tMax) == r
    ensures var r := Scan(objects, hit, ray, tMin, tMax).closest;
            forall k | 0 <= k < |objects| && hit(objects[k], ray, tMin, tMax).Some? ::
              r.Some? && r.value.t <= hit(objects[k], ray, tMin, tMax).value.t
  {
    if objects != [] {
      var n := |objects| - 1;
      var prefix := objects[..n];
      var o := objects[n];
      SceneReportsNearestHit(prefix, hit, ray, tMin, tMax);
      BoundIsAnswerT(prefix, hit, ray, tMin, tMax);
      var s := Scan(prefix, hit, ray, tMin, tMax);
      assert s.bound <= tMax by {
        if s.closest.Some? {
          var k :| 0 <= k < n && hit(prefix[k], ray, tMin, tMax) == s.closest;
        }
      }
      var reply := hit(o, ray, tMin, s.bound);
      var whole := hit(o, ray, tMin, tMax);
      assert Scan(objects, hit, ray, tMin, tMax) == Step(s, reply);
      assert forall k | 0 <= k < n :: prefix[k] == objects[k];
      if reply.Some? {
        assert whole == reply;
      }
    }
  }

  /** `Scene`: an owned, ordered list of objects. */
  class Scene<O> {
    var objects: seq<O>

    /** `Scene::new`: an empty scene. */
    constructor ()
      ensures objects == []
    {
      objects := [];
    }

    /** `add_object`: append one object after the existing ones. */
    method AddObject(item: O)
      modifies this
      ensures objects == old(objects) + [item]
      ensures |objects| == |old(objects)| + 1 && objects[..|old(objects)|] == old(objects)
    {
      objects := objects + [item];
    }

    /** `add_objects`: append all given objects, in their order. */
    method AddObjects(more: seq<O>)
      modifies this
      ensures objects == old(objects) + more
      ensures objects[..|old(objects)|] == old(objects) && objects[|old(objects)|..] == more
    {
      objects := objects + more;
    }

    /** `Hittable for Scene::hit`: ask every object in order, each with the
        bound left by the previous ones, and keep the last reply. */
    method Hit(ray: Ray, tMin: real, tMax: real, hit: HitFn<O>) returns (r: Option<HitRecord>)
      ensures r == Scan(objects, hit, ray, tMin, tMax).closest
      ensures objects == [] ==> r == None
    {
      var closestHit: Option<HitRecord> := None;
      var closestT := tMax;
      for i := 0 to |objects|
        invariant Scan(objects[..i], hit, ray, tMin, tMax) == ScanState(closestT, closestHit)
      {
        assert objects[..i + 1][..i] == objects[..i];
        var reply := hit(objects[i], ray, tMin, closestT);
        if reply.Some? {
          closestT := reply.value.t;
          closestHit := reply;
        }
      }
      assert objects[..|objects|] == objects;
      r := closestHit;
    }
  }
}
