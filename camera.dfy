/** src/camera.rs: `Camera::render` walks the pixel grid column by column,
    asks the scene for a hit along each pixel's primary ray and paints the
    pixel sky blue on a miss and black on a hit. The camera's float geometry
    (its basis, corners and step sizes) is the primary-ray oracle here. */
module Cameras {
  import opened Base
  import opened Scenes
  import opened Images

  /** `Camera`: the fields `Camera::new` computes and `render` reads. */
  datatype Camera = Camera(
    position: Vec3,
    upperLeftCorner: Vec3,
    lowerRightCorner: Vec3,
    u: Vec3,
    v: Vec3,
    w: Vec3,
    sampleCount: u32,
    pixelWidth: u32,
    pixelHeight: u32)

  /** The ray `render` builds for pixel `(i, j)` from the camera's geometry. */
  type PrimaryRay = (Camera, u32, u32) -> Ray

  /** The interval every primary ray is traced over. */
  const T_MIN: real := 0.0
  const T_MAX: real := 1000.0

  /** The colour of a pixel whose ray meets nothing. */
  const SKY: Pixel := [128, 172, 255, 255]

  /** The colour for the scene's answer: sky on a miss, opaque black on a hit. */
  function Shade(answer: Option<HitRecord>): (p: Pixel)
    ensures p == SKY <==> answer.None?
    ensures answer.Some? <==> p == OPAQUE_BLACK
  {
    match answer
    case None => SKY
    case Some(_) => OPAQUE_BLACK
  }

  /** What pixel `(i, j)` shows: the scene's answer for its primary ray on
      the interval `[T_MIN, T_MAX]`, shaded. */
  function PixelColor<O>(camera: Camera, objects: seq<O>, hit: HitFn<O>, primaryRay: PrimaryRay, i: u32, j: u32): Pixel
  {
    Shade(Scan(objects, hit, primaryRay(camera, i, j), T_MIN, T_MAX).closest)
  }

  /** The pixels of column `i`, top to bottom. */
  function Column(i: nat, height: nat): seq<(nat, nat)>
  {
    seq(height, j requires 0 <= j => (i, j))
  }

  /** The pixels `(i, j)` visited by the first `columns` passes of the outer
      loop of `render`, in the order they are written. */
  function Visits(height: nat, columns: nat): seq<(nat, nat)>
    decreases columns
  {
    if columns == 0 then [] else Visits(height, columns - 1) + Column(columns - 1, height)
  }

  /** The buffer indices the visits write. */
  function Indices(visits: seq<(nat, nat)>, width: nat): seq<nat>
  {
    seq(|visits|, a requires 0 <= a < |visits| => PixelIndex(visits[a].0, visits[a].1, width))
  }

  /** No element appears twice. */
  predicate Distinct<T(==)>(s: seq<T>)
  {
    forall a, b | 0 <= a < b < |s| :: s[a] != s[b]
  }

  /** The first `columns` passes visit each pixel of those columns once and
      no other pixel. */
  lemma {:induction false} VisitsOfColumns(height: nat, columns: nat)
    ensures |Visits(height, columns)| == columns * height
    ensures forall a | 0 <= a < |Visits(height, columns)| ::
              Visits(height, columns)[a].0 < columns && Visits(height, columns)[a].1 < height
    ensures Distinct(Visits(height, columns))
    ensures forall i, j | 0 <= i < columns && 0 <= j < height :: (i, j) in Visits(height, columns)
    decreases columns
  {
    if columns > 0 {
      var c := columns - 1;
      var before := Visits(height, c);
      var column := Column(c, height);
      VisitsOfColumns(height, c);
      assert c * height + height == columns * height;
      forall i, j | 0 <= i < columns && 0 <= j < height
        ensures (i, j) in before + column
      {
        if i == c {
          assert column[j] == (i, j);
        }
      }
    }
  }

  /** `render` writes every pixel of the image exactly once: the indices it
      writes are inside the buffer, all different, and every `(i, j)` of the
      grid is written at `j * width + i`. */
  lemma RenderWritesEachPixelOnce(width: nat, height: nat)
    ensures var written := Indices(Visits(height, width), width);
            && |written| == width * height
            && Distinct(written)
            && (forall k | k in written :: k < width * height)
            && (forall i, j | 0 <= i < width && 0 <= j < height :: PixelIndex(i, j, width) in written)
  {
    var visits := Visits(height, width);
    var written := Indices(visits, width);
    VisitsOfColumns(height, width);
    forall a, b | 0 <= a < b < |written|
      ensures written[a] != written[b]
    {
      if written[a] == written[b] {
        PixelIndexInjective(visits[a].0, visits[a].1, visits[b].0, visits[b].1, width);
      }
    }
    forall k | k in written
      ensures k < width * height
    {
      var a :| 0 <= a < |written| && written[a] == k;
      PixelIndexInRange(visits[a].0, visits[a].1, width, height);
    }
    forall i, j | 0 <= i < width && 0 <= j < height
      ensures PixelIndex(i, j, width) in written
    {
      var a :| 0 <= a < |visits| && visits[a] == (i, j);
      assert written[a] == PixelIndex(i, j, width);
    }
  }

  /** The pixels `render` has painted once it is at column `i`, row `j`:
      every earlier column, and the rows of column `i` above `j`, hold the
      shade of their primary ray. */
  ghost predicate PaintedBefore<O>(pixels: seq<Pixel>, camera: Camera, objects: seq<O>, hit: HitFn<O>, primaryRay: PrimaryRay, i: nat, j: nat)
  {
    forall x: u32, y: u32 | x < camera.pixelWidth && y < camera.pixelHeight && (x as nat < i || (x as nat == i && y as nat < j)) ::
      && PixelIndex(x as nat, y as nat, camera.pixelWidth as nat) < |pixels|
      && pixels[PixelIndex(x as nat, y as nat, camera.pixelWidth as nat)] == PixelColor(camera, objects, hit, primaryRay, x, y)
  }

  /** Pixel `(x, y)`, painted before `(i, j)` or `(i, j)` itself, holds its
      shade once `(i, j)` is painted. */
  lemma PaintKeeps<O>(pixels: seq<Pixel>, camera: Camera, objects: seq<O>, hit: HitFn<O>, primaryRay: PrimaryRay, i: u32, j: u32, x: u32, y: u32)
    requires i < camera.pixelWidth && j < camera.pixelHeight
    requires x < camera.pixelWidth && y < camera.pixelHeight
    requires x < i || (x == i && y <= j)
    requires |pixels| == camera.pixelWidth as int * camera.pixelHeight as int
    requires || (x == i && y == j)
             || (&& PixelIndex(x as nat, y as nat, camera.pixelWidth as nat) < |pixels|
                 && pixels[PixelIndex(x as nat, y as nat, camera.pixelWidth as nat)] == PixelColor(camera, objects, hit, primaryRay, x, y))
    ensures PixelIndex(i as nat, j as nat, camera.pixelWidth as nat) < |pixels|
    ensures PixelIndex(x as nat, y as nat, camera.pixelWidth as nat) < |pixels|
    ensures pixels[PixelIndex(i as nat, j as nat, camera.pixelWidth as nat) := PixelColor(camera, objects, hit, primaryRay, i, j)][PixelIndex(x as nat, y as nat, camera.pixelWidth as nat)]
              == PixelColor(camera, objects, hit, primaryRay, x, y)
  {
    var w, h := camera.pixelWidth as nat, camera.pixelHeight as nat;
    PixelIndexInRange(i as nat, j as nat, w, h);
    PixelIndexInRange(x as nat, y as nat, w, h);
    if PixelIndex(x as nat, y as nat, w) == PixelIndex(i as nat, j as nat, w) {
      PixelIndexInjective(x as nat, y as nat, i as nat, j as nat, w);
    }
  }

  /** Painting pixel `(i, j)` keeps every pixel painted before it. */
  lemma PaintStep<O>(pixels: seq<Pixel>, camera: Camera, objects: seq<O>, hit: HitFn<O>, primaryRay: PrimaryRay, i: u32, j: u32)
    requires i < camera.pixelWidth && j < camera.pixelHeight
    requires |pixels| == camera.pixelWidth as int * camera.pixelHeight as int
    requires PaintedBefore(pixels, camera, objects, hit, primaryRay, i as nat, j as nat)
    ensures PixelIndex(i as nat, j as nat, camera.pixelWidth as nat) < |pixels|
    ensures PaintedBefore(pixels[PixelIndex(i as nat, j as nat, camera.pixelWidth as nat) := PixelColor(camera, objects, hit, primaryRay, i, j)],
                          camera, objects, hit, primaryRay, i as nat, j as nat + 1)
  {
    PaintKeeps(pixels, camera, objects, hit, primaryRay, i, j, i, j);
    forall x: u32, y: u32 | x < camera.pixelWidth && y < camera.pixelHeight && (x as nat < i as nat || (x as nat == i as nat && y as nat < j as nat + 1))
      ensures PixelIndex(x as nat, y as nat, camera.pixelWidth as nat) < |pixels|
      ensures pixels[PixelIndex(i as nat, j as nat, camera.pixelWidth as nat) := PixelColor(camera, objects, hit, primaryRay, i, j)][PixelIndex(x as nat, y as nat, camera.pixelWidth as nat)]
                == PixelColor(camera, objects, hit, primaryRay, x, y)
    {
      PaintKeeps(pixels, camera, objects, hit, primaryRay, i, j, x, y);
    }
  }

  /** Once column `i` is finished, every row of it is painted. */
  lemma ColumnDone<O>(pixels: seq<Pixel>, camera: Camera, objects: seq<O>, hit: HitFn<O>, primaryRay: PrimaryRay, i: nat)
    requires PaintedBefore(pixels, camera, objects, hit, primaryRay, i, camera.pixelHeight as nat)
    ensures PaintedBefore(pixels, camera, objects, hit, primaryRay, i + 1, 0)
  {
  }

  /** After the last column, every pixel of the grid is painted. */
  lemma AllPainted<O>(pixels: seq<Pixel>, camera: Camera, objects: seq<O>, hit: HitFn<O>, primaryRay: PrimaryRay)
    requires PaintedBefore(pixels, camera, objects, hit, primaryRay, camera.pixelWidth as nat, 0)
    ensures forall i, j | 0 <= i < camera.pixelWidth && 0 <= j < camera.pixelHeight ::
              && PixelIndex(i as nat, j as nat, camera.pixelWidth as nat) < |pixels|
              && pixels[PixelIndex(i as nat, j as nat, camera.pixelWidth as nat)]
                   == PixelColor(camera, objects, hit, primaryRay, i, j)
  {
  }

  /** One pass of the outer loop of `render`: column `i` is painted top to
      bottom, one ray counted per pixel, and its pixels are logged in order. */
  method PaintColumn<O>(image: Image, camera: Camera, scene: Scene<O>, hit: HitFn<O>, primaryRay: PrimaryRay, i: u32, ghost before: seq<(nat, nat)>)
    returns (ghost visits: seq<(nat, nat)>)
    requires camera.pixelWidth as int * camera.pixelHeight as int < U32_LIMIT
    requires i < camera.pixelWidth
    requires image.width == camera.pixelWidth && image.height == camera.pixelHeight
    requires |image.pixels| == camera.pixelWidth as int * camera.pixelHeight as int
    requires |before| == i as int * camera.pixelHeight as int
    requires image.rays as int == |before|
    requires PaintedBefore(image.pixels, camera, scene.objects, hit, primaryRay, i as nat, 0)
    modifies image
    ensures image.width == old(image.width) && image.height == old(image.height)
    ensures |image.pixels| == |old(image.pixels)|
    ensures image.rays as int == |visits|
    ensures PaintedBefore(image.pixels, camera, scene.objects, hit, primaryRay, i as nat + 1, 0)
    ensures visits == before + Column(i as nat, camera.pixelHeight as nat)
  {
    var height := camera.pixelHeight;
    ghost var w, h := camera.pixelWidth as nat, height as nat;
    ghost var objects := scene.objects;
    MultiplyMonotone(i as nat + 1, w, h);
    visits := before;
    for j := 0 to height
      invariant image.width == camera.pixelWidth && image.height == height
      invariant |image.pixels| == w * h
      invariant image.rays as int == |visits|
      invariant PaintedBefore(image.pixels, camera, objects, hit, primaryRay, i as nat, j as nat)
      invariant visits == before + Column(i as nat, h)[..j]
    {
      var ray := primaryRay(camera, i, j);
      var answer := scene.Hit(ray, T_MIN, T_MAX, hit);
      var color := match answer
        case None => SKY
        case Some(_) => OPAQUE_BLACK;
      PaintStep(image.pixels, camera, objects, hit, primaryRay, i, j);
      image.SetPixel(i, j, color);
      image.IncrementRayCount();
      assert Column(i as nat, h)[..j + 1] == Column(i as nat, h)[..j] + [(i as nat, j as nat)];
      visits := visits + [(i as nat, j as nat)];
    }
    assert Column(i as nat, h)[..height] == Column(i as nat, h);
    ColumnDone(image.pixels, camera, objects, hit, primaryRay, i as nat);
  }

  /** `Camera::render`: a fresh `pixelWidth` by `pixelHeight` image, each
      pixel `(i, j)` written once at `j * pixelWidth + i` with the shade of
      the scene's answer for its primary ray, one ray counted per pixel.
      `visits` records the indices in the order they are written. The image
      size is `u32` arithmetic in `Image::new`, so it must not overflow. */
  method Render<O>(camera: Camera, scene: Scene<O>, hit: HitFn<O>, primaryRay: PrimaryRay)
    returns (r: Outcome<Image>, ghost visits: seq<(nat, nat)>)
    requires camera.pixelWidth as int * camera.pixelHeight as int < U32_LIMIT
    ensures r.Ok? && fresh(r.value)
    ensures r.value.width == camera.pixelWidth && r.value.height == camera.pixelHeight
    ensures r.value.Valid()
    ensures r.value.rays as int == camera.pixelWidth as int * camera.pixelHeight as int
    ensures forall i, j | 0 <= i < camera.pixelWidth && 0 <= j < camera.pixelHeight ::
              && PixelIndex(i as nat, j as nat, camera.pixelWidth as nat) < |r.value.pixels|
              && r.value.pixels[PixelIndex(i as nat, j as nat, camera.pixelWidth as nat)]
                   == PixelColor(camera, scene.objects, hit, primaryRay, i, j)
    ensures visits == Visits(camera.pixelHeight as nat, camera.pixelWidth as nat)
  {
    var width := camera.pixelWidth;
    var height := camera.pixelHeight;
    ghost var w, h := width as nat, height as nat;
    var image := new Image(width, height);
    visits := [];
    for i := 0 to width
      invariant fresh(image)
      invariant image.width == width && image.height == height
      invariant |image.pixels| == w * h
      invariant image.rays as int == |visits|
      invariant PaintedBefore(image.pixels, camera, scene.objects, hit, primaryRay, i as nat, 0)
      invariant visits == Visits(h, i as nat)
    {
      VisitsOfColumns(h, i as nat);
      visits := PaintColumn(image, camera, scene, hit, primaryRay, i, visits);
    }
    VisitsOfColumns(h, w);
    AllPainted(image.pixels, camera, scene.objects, hit, primaryRay);
    assert forall i, j | 0 <= i < camera.pixelWidth && 0 <= j < camera.pixelHeight ::
              && PixelIndex(i as nat, j as nat, camera.pixelWidth as nat) < |image.pixels|
              && image.pixels[PixelIndex(i as nat, j as nat, camera.pixelWidth as nat)]
                   == PixelColor(camera, scene.objects, hit, primaryRay, i, j);
    r := Ok(image);
  }
}
