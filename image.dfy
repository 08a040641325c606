/** src/image.rs: the RGBA pixel buffer the camera fills, its ray counter,
    the gamma pass and the byte layout handed to the PNG encoder. */
module Images {
  import opened Base

  /** `[u8; 4]`: red, green, blue and alpha. */
  type Pixel = p: seq<u8> | |p| == 4 witness [0, 0, 0, 255]

  /** The colour `Image::new` fills the buffer with. */
  const OPAQUE_BLACK: Pixel := [0, 0, 0, 255]

  /** Where pixel `(x, y)` lives in a row-major buffer `width` pixels wide. */
  function PixelIndex(x: nat, y: nat, width: nat): nat
  {
    y * width + x
  }

  /** Every pixel of a `width` by `height` image has an index inside the buffer. */
  lemma PixelIndexInRange(x: nat, y: nat, width: nat, height: nat)
    requires x < width && y < height
    ensures PixelIndex(x, y, width) < width * height
  {
    calc {
      PixelIndex(x, y, width);
      < y * width + width;
      == (y + 1) * width;
      <= { MultiplyMonotone(y + 1, height, width); } height * width;
    }
  }

  lemma MultiplyMonotone(a: nat, b: nat, c: nat)
    requires a <= b
    ensures a * c <= b * c
  {
  }

  /** Distinct pixels of the same row width never share an index. */
  lemma PixelIndexInjective(x1: nat, y1: nat, x2: nat, y2: nat, width: nat)
    requires x1 < width && x2 < width
    requires PixelIndex(x1, y1, width) == PixelIndex(x2, y2, width)
    ensures x1 == x2 && y1 == y2
  {
    if y1 < y2 {
      MultiplyMonotone(y1 + 1, y2, width);
      assert false;
    } else if y2 < y1 {
      MultiplyMonotone(y2 + 1, y1, width);
      assert false;
    }
  }

  /** The integer square root: the largest `r` with `r * r <= n`. */
  function FloorSqrt(n: nat): (r: nat)
    ensures r * r <= n < (r + 1) * (r + 1)
    decreases n
  {
    if n == 0 then 0
    else
      var s := FloorSqrt(n - 1);
      if (s + 1) * (s + 1) <= n then s + 1 else s
  }

  /** The square root of a byte is at most 15. */
  lemma {:induction false} FloorSqrtOfByte(n: nat)
    requires n < 0x100
    ensures FloorSqrt(n) <= 15
  {
    var r := FloorSqrt(n);
    if r >= 16 {
      assert false;
    }
  }

  /** One channel of `correct_gamma`: `(c as f32).sqrt() as u8`, the square
      root truncated toward zero. */
  function GammaChannel(c: u8): u8
  {
    FloorSqrtOfByte(c as nat);
    FloorSqrt(c as nat) as u8
  }

  /** A pixel after `correct_gamma`: each colour channel is the truncated
      square root of the old one and alpha is opaque. */
  function GammaPixel(p: Pixel): (q: Pixel)
    ensures forall c | 0 <= c < 3 ::
              && q[c] as int * q[c] as int <= p[c] as int < (q[c] as int + 1) * (q[c] as int + 1)
              && q[c] <= 15
    ensures q[3] == 255
  {
    FloorSqrtOfByte(p[0] as nat);
    FloorSqrtOfByte(p[1] as nat);
    FloorSqrtOfByte(p[2] as nat);
    [GammaChannel(p[0]), GammaChannel(p[1]), GammaChannel(p[2]), 255]
  }

  /** The bytes handed to the encoder: the pixels' channels one after the
      other, in buffer order. */
  function Rgba(pixels: seq<Pixel>): seq<u8>
    decreases |pixels|
  {
    if pixels == [] then [] else Rgba(pixels[..|pixels| - 1]) + pixels[|pixels| - 1]
  }

  /** Byte `4k + c` of the flattened buffer is channel `c` of pixel `k`. */
  lemma {:induction false} RgbaLayout(pixels: seq<Pixel>)
    ensures |Rgba(pixels)| == 4 * |pixels|
    ensures forall k, c | 0 <= k < |pixels| && 0 <= c < 4 :: Rgba(pixels)[4 * k + c] == pixels[k][c]
    decreases |pixels|
  {
    if pixels != [] {
      var n := |pixels| - 1;
      RgbaLayout(pixels[..n]);
      forall k, c | 0 <= k < |pixels| && 0 <= c < 4
        ensures Rgba(pixels)[4 * k + c] == pixels[k][c]
      {
        if k < n {
          assert pixels[..n][k] == pixels[k];
        }
      }
    }
  }

  /** Cutting a byte buffer back into pixels, four bytes each. */
  function Unflatten(bytes: seq<u8>): seq<Pixel>
    requires |bytes| % 4 == 0
    decreases |bytes|
  {
    if bytes == [] then [] else Unflatten(bytes[..|bytes| - 4]) + [bytes[|bytes| - 4..]]
  }

  /** The flattening loses nothing: the encoder's bytes cut into fours are
      the pixel buffer again. */
  lemma {:induction false} UnflattenRgba(pixels: seq<Pixel>)
    ensures |Rgba(pixels)| % 4 == 0
    ensures Unflatten(Rgba(pixels)) == pixels
    decreases |pixels|
  {
    RgbaLayout(pixels);
    if pixels != [] {
      var n := |pixels| - 1;
      var bytes := Rgba(pixels);
      UnflattenRgba(pixels[..n]);
      RgbaLayout(pixels[..n]);
      assert bytes[..|bytes| - 4] == Rgba(pixels[..n]);
      assert bytes[|bytes| - 4..] == pixels[n];
      assert pixels == pixels[..n] + [pixels[n]];
    }
  }

  /** `Image`: the dimensions, the row-major pixel buffer and the ray counter. */
  class Image {
    var width: u32
    var height: u32
    var pixels: seq<Pixel>
    var rays: u32

    /** The buffer holds one pixel per position of the image. `set_pixels`
        can break this; nothing else does. */
    ghost predicate Valid()
      reads this
    {
      |pixels| == width as int * height as int
    }

    /** `Image::new`: `width * height` opaque black pixels and no rays. The
        product is `u32` arithmetic, so it must not overflow. */
    constructor (width: u32, height: u32)
      requires width as int * height as int < U32_LIMIT
      ensures this.width == width && this.height == height
      ensures |pixels| == width as int * height as int
      ensures forall k | 0 <= k < |pixels| :: pixels[k] == OPAQUE_BLACK
      ensures rays == 0
      ensures Valid()
    {
      this.width := width;
      this.height := height;
      pixels := seq(width as int * height as int, _ => OPAQUE_BLACK);
      rays := 0;
    }

    /** `correct_gamma`: every pixel rewritten in place by `GammaPixel`. */
    method CorrectGamma()
      modifies this
      ensures |pixels| == |old(pixels)|
      ensures forall k | 0 <= k < |pixels| :: pixels[k] == GammaPixel(old(pixels)[k])
      ensures width == old(width) && height == old(height) && rays == old(rays)
    {
      for k := 0 to |pixels|
        invariant |pixels| == |old(pixels)|
        invariant forall j | 0 <= j < k :: pixels[j] == GammaPixel(old(pixels)[j])
        invariant forall j | k <= j < |pixels| :: pixels[j] == old(pixels)[j]
        invariant width == old(width) && height == old(height) && rays == old(rays)
      {
        var pixel := pixels[k];
        pixel := pixel[0 := GammaChannel(pixel[0])];
        pixel := pixel[1 := GammaChannel(pixel[1])];
        pixel := pixel[2 := GammaChannel(pixel[2])];
        pixel := pixel[3 := 255];
        pixels := pixels[k := pixel];
      }
    }

    /** The buffer `save_as_png` gives the encoder: the flattened pixels.
        The gamma pass is not applied, and the image is not changed. */
    method SaveAsPng() returns (buffer: seq<u8>)
      ensures buffer == Rgba(pixels)
      ensures |buffer| == 4 * |pixels|
      ensures forall k, c | 0 <= k < |pixels| && 0 <= c < 4 :: buffer[4 * k + c] == pixels[k][c]
    {
      buffer := [];
      for k := 0 to |pixels|
        invariant buffer == Rgba(pixels[..k])
      {
        var pixel := pixels[k];
        buffer := buffer + [pixel[0]];
        buffer := buffer + [pixel[1]];
        buffer := buffer + [pixel[2]];
        buffer := buffer + [pixel[3]];
        assert pixels[..k + 1][..k] == pixels[..k];
        assert pixel == [pixel[0], pixel[1], pixel[2], pixel[3]];
      }
      assert pixels[..|pixels|] == pixels;
      RgbaLayout(pixels);
    }

    /** `set_pixel`: the one pixel at `y * width + x` takes `color`. The index
        is `u32` arithmetic and indexes the buffer, so it must neither
        overflow nor run past the end; `x` is not checked against `width`. */
    method SetPixel(x: u32, y: u32, color: Pixel)
      requires y as int * width as int + x as int < U32_LIMIT
      requires PixelIndex(x as nat, y as nat, width as nat) < |pixels|
      modifies this
      ensures width == old(width) && height == old(height) && rays == old(rays)
      ensures pixels == old(pixels)[PixelIndex(x as nat, y as nat, width as nat) := color]
    {
      var index := y * width + x;
      pixels := pixels[index := color];
    }

    /** `increment_ray_count`: one more ray, which must fit in a `u32`. */
    method IncrementRayCount()
      requires rays as int + 1 < U32_LIMIT
      modifies this
      ensures rays as int == old(rays) as int + 1
      ensures pixels == old(pixels) && width == old(width) && height == old(height)
    {
      rays := rays + 1;
    }

    /** `set_ray_count`: the counter is overwritten. */
    method SetRayCount(rays: u32)
      modifies this
      ensures this.rays == rays
      ensures pixels == old(pixels) && width == old(width) && height == old(height)
    {
      this.rays := rays;
    }

    /** `jump_ray_count`: `rays` more rays, the sum fitting in a `u32`. */
    method JumpRayCount(rays: u32)
      requires this.rays as int + rays as int < U32_LIMIT
      modifies this
      ensures this.rays as int == old(this.rays) as int + rays as int
      ensures pixels == old(pixels) && width == old(width) && height == old(height)
    {
      this.rays := this.rays + rays;
    }

    /** `get_ray_count`: reads the counter and changes nothing. */
    method GetRayCount() returns (r: u32)
      ensures r == rays
    {
      return rays;
    }

    /** `set_pixels`: the buffer is replaced as given. Its length is not
        checked, so the image stays valid exactly when the caller passes
        `width * height` pixels. */
    method SetPixels(pixels: seq<Pixel>)
      modifies this
      ensures this.pixels == pixels
      ensures width == old(width) && height == old(height) && rays == old(rays)
      ensures Valid() <==> |pixels| == width as int * height as int
    {
      this.pixels := pixels;
    }
  }
}
