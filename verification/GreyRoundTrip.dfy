/** The two kernels one after the other, with the planes packed as the encoder leaves them. */
module GreyRoundTrip {
  import opened Arith
  import opened Bytes
  import opened YuvEncoder
  import opened YuvDecoder

  predicate Grey(p: Bgr) {
    p.b == p.g == p.r
  }

  /** The level that a grey level comes back as. */
  function Level(g: byte): byte {
    Clip((298 * ((g as int) - 16) + 128) / 256)
  }

  /** Brightness is never reversed, and kept apart exactly between 16 and 235. */
  lemma LevelOrder(g: byte, g': byte)
    ensures g <= g' ==> Level(g) <= Level(g')
    ensures Level(g) < Level(g') <==> g < g' && 16 < g' && g < 235
  {
  }

  lemma GreyPixel(p: Bgr)
    requires Grey(p)
    ensures p.Luma() == p.g && p.U() == 128 && p.V() == 128
    ensures Colour(p.Luma(), 128, 128) == Bgr(Level(p.g), Level(p.g), Level(p.g))
  {
  }

  /** The encoder's output as the decoder is given it. */
  ghost function PackedSource(yuv: seq<byte>, img: Image): Source
    requires img.Ok()
  {
    var p, q := |img.pixels|, |img.Corners()|;
    Source(Plane(yuv, 0, img.w), Plane(yuv, p, img.w / 2), Plane(yuv, p + q, img.w / 2), img.w, img.h)
  }

  lemma CoversPacked(data: seq<byte>, at: nat, rows: nat, cols: nat)
    requires at + rows * cols <= |data|
    ensures Plane(data, at, cols).Covers(rows, cols)
  {
  }

  lemma PackedOk(yuv: seq<byte>, img: Image)
    requires img.Ok() && |img.pixels| + 2 * |img.Corners()| <= |yuv|
    ensures PackedSource(yuv, img).Ok()
  {
    var p, q := |img.pixels|, |img.Corners()|;
    assert img.h * img.w == p && (img.h / 2) * (img.w / 2) == q;
    CoversPacked(yuv, 0, img.h, img.w);
    CoversPacked(yuv, p, img.h / 2, img.w / 2);
    CoversPacked(yuv, p + q, img.h / 2, img.w / 2);
  }

  /** Reading the packed planes gives back what the encoder put there. */
  lemma PackedGet(before: seq<byte>, yuv: seq<byte>, img: Image, r: nat, c: nat) returns (corner: Bgr)
    requires img.Ok() && |img.pixels| + 2 * |img.Corners()| <= |before| && Encoded(before, yuv, img)
    requires PackedSource(yuv, img).Ok() && r < img.h && c < img.w
    ensures img.At(r, c) in img.pixels && corner in img.pixels
    ensures var src := PackedSource(yuv, img);
            && src.y.Get(r, c, src.h, src.w) == img.At(r, c).Luma()
            && src.u.Get(r / 2, c / 2, src.h / 2, src.w / 2) == corner.U()
            && src.v.Get(r / 2, c / 2, src.h / 2, src.w / 2) == corner.V()
  {
    EncodedLuma(before, yuv, img, r, c);
    AtIsPixel(img, r, c);
    corner := PackedChroma(before, yuv, img, r / 2, c / 2);
  }

  lemma PackedChroma(before: seq<byte>, yuv: seq<byte>, img: Image, i: nat, j: nat) returns (corner: Bgr)
    requires img.Ok() && |img.pixels| + 2 * |img.Corners()| <= |before| && Encoded(before, yuv, img)
    requires PackedSource(yuv, img).Ok() && i < img.h / 2 && j < img.w / 2
    ensures corner in img.pixels
    ensures var src := PackedSource(yuv, img);
            && src.u.Get(i, j, src.h / 2, src.w / 2) == corner.U()
            && src.v.Get(i, j, src.h / 2, src.w / 2) == corner.V()
  {
    EncodedChroma(before, yuv, img, i, j);
    AtIsPixel(img, 2 * i + 1, 2 * j + 1);
    corner := img.At(2 * i + 1, 2 * j + 1);
  }

  lemma AtIsPixel(img: Image, r: nat, c: nat)
    requires img.Ok() && r < img.h && c < img.w
    ensures img.At(r, c) in img.pixels
  {
    MulMono(r + 1, img.h, img.w);
    assert img.At(r, c) == img.pixels[r * img.w + c];
  }

  lemma GreyAt(before: seq<byte>, yuv: seq<byte>, img: Image, r: nat, c: nat)
    requires img.Ok() && |img.pixels| + 2 * |img.Corners()| <= |before| && Encoded(before, yuv, img)
    requires PackedSource(yuv, img).Ok() && forall p <- img.pixels :: Grey(p)
    requires r < img.h && c < img.w
    ensures var l := Level(img.At(r, c).g);
            PackedSource(yuv, img).At(r, c) == Bgr(l, l, l)
  {
    var corner := PackedGet(before, yuv, img, r, c);
    GreyColour(PackedSource(yuv, img), r, c, img.At(r, c), corner);
  }

  lemma GreyColour(src: Source, r: nat, c: nat, p: Bgr, corner: Bgr)
    requires src.Ok() && r < src.h && c < src.w && Grey(p) && Grey(corner)
    requires src.y.Get(r, c, src.h, src.w) == p.Luma()
    requires src.u.Get(r / 2, c / 2, src.h / 2, src.w / 2) == corner.U()
    requires src.v.Get(r / 2, c / 2, src.h / 2, src.w / 2) == corner.V()
    ensures src.At(r, c) == Bgr(Level(p.g), Level(p.g), Level(p.g))
  {
    GreyPixel(p);
    GreyPixel(corner);
    assert src.At(r, c) == Colour(p.Luma(), 128, 128);
  }

  lemma RowAndColumn(p: nat, w: nat, h: nat) returns (r: nat, c: nat)
    requires p < w * h
    ensures r < h && c < w && p == r * w + c
    ensures RowStart(w, 4 * w, r) + 4 * c == 4 * p
  {
    r, c := p / w, p % w;
    if r >= h {
      MulMono(h, r, w);
      assert false;
    }
    PackedRow(w, r);
    assert r * (4 * w) == 4 * (r * w);
  }

  lemma ShownThere(src: Source, before: seq<byte>, frame: seq<byte>, r: nat, c: nat, pos: nat, colour: Bgr)
    requires src.Ok() && (src.h / 2) * (4 * src.w + 4 * src.w) <= |before|
    requires frame == Want(Colours(src), src.w, before, 4 * src.w) && r < src.h && c < src.w
    requires pos == RowStart(src.w, 4 * src.w, r) + 4 * c && src.At(r, c) == colour
    ensures Shows(before, frame, pos, colour)
  {
    DecodedPixel(src, before, frame, 4 * src.w, r, c);
  }

  /** Bytes `4 * p` to `4 * p + 3` of the decoded frame, for a pixel `p` of the image. */
  lemma GreyBytes(before: seq<byte>, yuv: seq<byte>, img: Image, before2: seq<byte>, frame: seq<byte>, p: nat)
    requires img.Ok() && |img.pixels| + 2 * |img.Corners()| <= |before| && Encoded(before, yuv, img)
    requires PackedSource(yuv, img).Ok() && forall p <- img.pixels :: Grey(p)
    requires (img.h / 2) * (4 * img.w + 4 * img.w) <= |before2|
    requires frame == Want(Colours(PackedSource(yuv, img)), img.w, before2, 4 * img.w)
    requires p < |img.pixels|
    ensures var l := Level(img.pixels[p].g);
            Shows(before2, frame, 4 * p, Bgr(l, l, l))
  {
    var r, c := RowAndColumn(p, img.w, img.h);
    assert img.At(r, c) == img.pixels[p];
    GreyAt(before, yuv, img, r, c);
    var l := Level(img.pixels[p].g);
    ShownThere(PackedSource(yuv, img), before2, frame, r, c, 4 * p, Bgr(l, l, l));
  }

  lemma Sizes(w: nat, h: nat)
    requires w % 2 == 0 && h % 2 == 0
    ensures (h / 2) * (4 * w + 4 * w) == 4 * (w * h)
  {
  }

  /** An even-sized grey image through both kernels: every pixel comes back grey, at `Level` of
      its level. */
  method Transcode(rgb: array<byte>, ps: nat, w: nat, h: nat) returns (frame: array<byte>)
    requires 3 <= ps && w % 2 == 0 && h % 2 == 0 && (w * h) * ps <= rgb.Length
    requires forall p <- Pixels(rgb[..], ps, w * h) :: p.b == p.g == p.r
    ensures frame.Length == 4 * (w * h)
    ensures forall p: nat :: p < w * h ==> IsLevel(frame[..], p, Level(Pixels(rgb[..], ps, w * h)[p].g))
    ensures forall p: nat, q: nat :: p < w * h && q < w * h ==>
              InOrder(Pixels(rgb[..], ps, w * h), frame[..], p, q)
  {
    var planeSize, quarter := w * h, (w / 2) * (h / 2);
    var yuv := new byte[planeSize + 2 * quarter];
    ghost var img, before := Image(Pixels(rgb[..], ps, w * h), w, h), yuv[..];
    RGBtoYUV420(rgb, yuv, w, h, ps);
    assert rgb[..] == old(rgb[..]);
    PackedOk(yuv[..], img);
    Sizes(w, h);
    frame := new byte[4 * (w * h)];
    ghost var coded, before2 := yuv[..], frame[..];
    assert PackedSource(coded, img).Ok();
    var ok := I420ToARGB(yuv, 0, w, yuv, planeSize, w / 2, yuv, planeSize + quarter, w / 2, frame, 4 * w, w, h);
    assert rgb[..] == old(rgb[..]);
    forall p: nat | p < w * h ensures IsLevel(frame[..], p, Level(img.pixels[p].g)) {
      GreyBytes(before, coded, img, before2, frame[..], p);
    }
    forall p: nat, q: nat | p < w * h && q < w * h ensures InOrder(img.pixels, frame[..], p, q) {
      assert IsLevel(frame[..], p, Level(img.pixels[p].g)) && IsLevel(frame[..], q, Level(img.pixels[q].g));
      LevelOrder(img.pixels[p].g, img.pixels[q].g);
    }
  }

  /** The frame does not show pixel `p` brighter than `q` unless the image did. */
  ghost predicate InOrder(pixels: seq<Bgr>, frame: seq<byte>, p: nat, q: nat)
    requires p < |pixels| && q < |pixels|
  {
    && 4 * p < |frame| && 4 * q < |frame|
    && (pixels[p].g <= pixels[q].g ==> frame[4 * p] <= frame[4 * q])
  }

  ghost predicate IsLevel(frame: seq<byte>, p: nat, l: byte) {
    4 * p + 4 <= |frame| && frame[4 * p] == frame[4 * p + 1] == frame[4 * p + 2] == l
  }
}
