/** `RGBtoYUV420` of yuv_tools.hpp: packed BGR pixels to three consecutive planes. */
module YuvEncoder {
  import opened Arith
  import opened Bytes

  /** C's integer division, which truncates toward zero. */
  function CDiv(x: int, y: int): int
    requires y > 0
  {
    if x >= 0 then x / y else -((-x) / y)
  }

  /** A cast to `unsigned char`. */
  function UChar(x: int): byte {
    x % 256
  }

  datatype Bgr = Bgr(b: byte, g: byte, r: byte) {
    /** The cast loses nothing: all three quotients are bytes already. */
    function Luma(): (y: byte)
      ensures 100 * (y as int) <= 30 * (r as int) + 59 * (g as int) + 11 * (b as int) < 100 * (y as int) + 100
    {
      UChar(CDiv(30 * (r as int) + 59 * (g as int) + 11 * (b as int), 100))
    }

    function U(): (u: byte)
      ensures 100 * (u as int) <= 50 * (b as int) - 33 * (g as int) - 17 * (r as int) + 12800 < 100 * (u as int) + 100
    {
      UChar(CDiv(-17 * (r as int) - 33 * (g as int) + 50 * (b as int) + 12800, 100))
    }

    function V(): (v: byte)
      ensures 100 * (v as int) <= 50 * (r as int) - 42 * (g as int) - 8 * (b as int) + 12800 < 100 * (v as int) + 100
    {
      UChar(CDiv(50 * (r as int) - 42 * (g as int) - 8 * (b as int) + 12800, 100))
    }
  }

  /** The first `n` pixels of a packed buffer, `ps` bytes each. */
  ghost function Pixels(rgb: seq<byte>, ps: nat, n: nat): (pixels: seq<Bgr>)
    requires 3 <= ps && n * ps <= |rgb|
    ensures |pixels| == n
  {
    seq(n, p requires 0 <= p < n =>
      (MulMono(p + 1, n, ps); Bgr(rgb[p * ps], rgb[p * ps + 1], rgb[p * ps + 2])))
  }

  /** An image of `w * h` pixels, row after row. */
  datatype Image = Image(pixels: seq<Bgr>, w: nat, h: nat) {
    ghost predicate Ok() {
      w % 2 == 0 && h % 2 == 0 && |pixels| == w * h
    }

    /** The pixel at row `r` and column `c`. */
    ghost function At(r: nat, c: nat): Bgr
      requires Ok() && r < h && c < w
    {
      MulMono(r + 1, h, w);
      pixels[r * w + c]
    }

    lemma Block(k: nat)
      requires Ok() && k < (w / 2) * (h / 2)
      ensures w > 0 && 2 * (k / (w / 2)) + 1 < h && 2 * (k % (w / 2)) + 1 < w
    {
      var n := w / 2;
      if k / n >= h / 2 {
        MulMono(h / 2, k / n, n);
        assert false;
      }
    }

    /** The pixels that decide the chroma planes: the bottom right one of every two-by-two block. */
    ghost function Corners(): (cs: seq<Bgr>)
      requires Ok()
      ensures |cs| == (w / 2) * (h / 2)
    {
      seq((w / 2) * (h / 2), k requires 0 <= k < (w / 2) * (h / 2) =>
        (Block(k); At(2 * (k / (w / 2)) + 1, 2 * (k % (w / 2)) + 1)))
    }

    lemma CornerAt(i: nat, j: nat)
      requires Ok() && i < h / 2 && j < w / 2
      ensures i * (w / 2) + j < |Corners()|
      ensures Corners()[i * (w / 2) + j] == At(2 * i + 1, 2 * j + 1)
    {
      MulMono(i + 1, h / 2, w / 2);
      DivMod(i, j, w / 2);
    }
  }

  /** The first `p` luma entries and the first `c` entries of either chroma plane of `yuv` are
      right, and nothing behind the three planes has changed. */
  ghost predicate Done(before: seq<byte>, yuv: seq<byte>, pixels: seq<Bgr>, corners: seq<Bgr>, p: nat, c: nat)
    requires |pixels| + 2 * |corners| <= |before| && p <= |pixels| && c <= |corners|
  {
    var u, v, n := |pixels|, |pixels| + |corners|, |pixels| + 2 * |corners|;
    && |yuv| == |before| && yuv[n..] == before[n..]
    && (forall k :: 0 <= k < p ==> yuv[k] == pixels[k].Luma())
    && (forall k :: u <= k < u + c ==> yuv[k] == corners[k - u].U())
    && (forall k :: v <= k < v + c ==> yuv[k] == corners[k - v].V())
  }

  /** `after` starts with the three planes of the image and otherwise is `before`. */
  ghost predicate Encoded(before: seq<byte>, after: seq<byte>, img: Image)
    requires img.Ok() && |img.pixels| + 2 * |img.Corners()| <= |before|
  {
    Done(before, after, img.pixels, img.Corners(), |img.pixels|, |img.Corners()|)
  }

  /** Two neighbouring pixels of a row write two luma entries and, twice, one entry of either
      chroma plane; the second write stays. */
  lemma StepPair(before: seq<byte>, s: seq<byte>, t: seq<byte>, pixels: seq<Bgr>, corners: seq<Bgr>,
                 p: nat, k: nat, c: nat, c': nat)
    requires |pixels| + 2 * |corners| <= |before| && p + 2 <= |pixels| && c <= k < |corners|
    requires c' == c || (c' == c + 1 == k + 1 && corners[k] == pixels[p + 1])
    requires Done(before, s, pixels, corners, p, c)
    requires t == s[p := pixels[p].Luma()][p + 1 := pixels[p + 1].Luma()]
                   [|pixels| + k := pixels[p + 1].U()][|pixels| + |corners| + k := pixels[p + 1].V()]
    ensures Done(before, t, pixels, corners, p + 2, c')
  {
    assert t[|pixels| + 2 * |corners|..] == s[|pixels| + 2 * |corners|..];
  }

  ghost predicate Decides(pixels: seq<Bgr>, corners: seq<Bgr>, line: nat, k0: nat, j: nat)
    requires line + 2 * j + 1 < |pixels| && k0 + j < |corners|
  {
    corners[k0 + j] == pixels[line + 2 * j + 1]
  }

  /** The row of `2 * half` pixels starting at pixel `line` writes the `half` chroma entries from
      `k0` on, for good if it is `odd`. */
  ghost predicate Row(pixels: seq<Bgr>, corners: seq<Bgr>, half: nat, line: nat, k0: nat, odd: bool) {
    && line + 2 * half <= |pixels| && k0 + half <= |corners|
    && (odd ==> forall j: nat :: j < half ==> Decides(pixels, corners, line, k0, j))
  }

  lemma RowBounds(img: Image, i: nat)
    requires img.Ok() && 2 * i + 2 <= img.h
    ensures 2 * i * img.w + 2 * img.w <= |img.pixels| && i * (img.w / 2) + img.w / 2 <= |img.Corners()|
    ensures 0 <= 2 * i * img.w && 0 <= i * (img.w / 2)
  {
    MulMono(2 * i + 2, img.h, img.w);
    MulMono(i + 1, img.h / 2, img.w / 2);
  }

  lemma RowDecides(img: Image, i: nat, j: nat, line: nat, k0: nat)
    requires img.Ok() && 2 * i + 2 <= img.h && j < img.w / 2
    requires line == 2 * i * img.w + img.w && k0 == i * (img.w / 2)
    requires line + img.w <= |img.pixels| && k0 + img.w / 2 <= |img.Corners()|
    ensures Decides(img.pixels, img.Corners(), line, k0, j)
  {
    img.CornerAt(i, j);
    RowLine(i, true, img.w);
    assert img.At(2 * i + 1, 2 * j + 1) == img.pixels[line + (2 * j + 1)];
  }

  lemma RowLine(i: nat, odd: bool, w: nat)
    ensures (2 * i + if odd then 1 else 0) * w == 2 * i * w + if odd then w else 0
    ensures (2 * i + (if odd then 1 else 0) + 1) * w == 2 * i * w + (if odd then w else 0) + w
    ensures (i + 1) * (w / 2) == i * (w / 2) + w / 2
  {
  }

  /** Row `y` of the image, for the encoder's inner loop. */
  lemma RowOf(img: Image, y: nat, i: nat, odd: bool) returns (line: nat, k0: nat)
    requires img.Ok() && y < img.h && y == 2 * i + (if odd then 1 else 0)
    ensures line == y * img.w && k0 == i * (img.w / 2) && y / 2 == i
    ensures Row(img.pixels, img.Corners(), img.w / 2, line, k0, odd)
    ensures line + img.w == (y + 1) * img.w
    ensures k0 + img.w / 2 == (i + 1) * (img.w / 2)
  {
    RowBounds(img, i);
    RowLine(i, odd, img.w);
    line, k0 := 2 * i * img.w + (if odd then img.w else 0), i * (img.w / 2);
    if odd {
      forall j: nat | j < img.w / 2 ensures Decides(img.pixels, img.Corners(), line, k0, j) {
        RowDecides(img, i, j, line, k0);
      }
    }
  }

  // ---- the code ----

  /** The `rgbtoyuv` macro applied at the given places. */
  method RgbToYuv(rgb: array<byte>, at: nat, yuv: array<byte>, yline: nat, uline: nat, vline: nat)
    requires rgb != yuv && at + 2 < rgb.Length && yline < uline < vline < yuv.Length
    modifies yuv
    ensures var p := Bgr(rgb[at], rgb[at + 1], rgb[at + 2]);
            yuv[..] == old(yuv[..])[yline := p.Luma()][uline := p.U()][vline := p.V()]
  {
    var b, g, r := rgb[at] as int, rgb[at + 1] as int, rgb[at + 2] as int;
    yuv[yline] := UChar(CDiv(30 * r + 59 * g + 11 * b, 100));
    yuv[uline] := UChar(CDiv(-17 * r - 33 * g + 50 * b + 12800, 100));
    yuv[vline] := UChar(CDiv(50 * r - 42 * g - 8 * b + 12800, 100));
  }

  /** Of two stores at the same two places, the second counts. */
  lemma SecondWins(s: seq<byte>, i: nat, u: nat, v: nat, p: Bgr, q: Bgr)
    requires i + 1 < u < v < |s|
    ensures s[i := p.Luma()][u := p.U()][v := p.V()][i + 1 := q.Luma()][u := q.U()][v := q.V()]
         == s[i := p.Luma()][i + 1 := q.Luma()][u := q.U()][v := q.V()]
  {
  }

  /** The body of the inner loop: pixels `p` and `p + 1`. */
  method EncodePair(rgb: array<byte>, start: nat, yuv: array<byte>, ps: nat,
                    yline: nat, uline: nat, vline: nat, ghost n: nat) returns (rgbIndex: nat)
    requires rgb != yuv && 3 <= ps && n * ps <= rgb.Length
    requires yline + 2 <= n && start == yline * ps
    requires yline + 1 < uline < vline < yuv.Length
    modifies yuv
    ensures rgbIndex == (yline + 2) * ps
    ensures var pixels := Pixels(rgb[..], ps, n);
            yuv[..] == old(yuv[..])[yline := pixels[yline].Luma()][yline + 1 := pixels[yline + 1].Luma()]
                         [uline := pixels[yline + 1].U()][vline := pixels[yline + 1].V()]
  {
    MulMono(yline + 2, n, ps);
    assert (yline + 1) * ps == start + ps && (yline + 2) * ps == start + 2 * ps;
    rgbIndex := start;
    ghost var p, q := Pixels(rgb[..], ps, n)[yline], Pixels(rgb[..], ps, n)[yline + 1];
    assert p == Bgr(rgb[start], rgb[start + 1], rgb[start + 2]);
    assert q == Bgr(rgb[start + ps], rgb[start + ps + 1], rgb[start + ps + 2]);
    SecondWins(yuv[..], yline, uline, vline, p, q);
    RgbToYuv(rgb, rgbIndex, yuv, yline, uline, vline);
    rgbIndex := rgbIndex + ps;
    RgbToYuv(rgb, rgbIndex, yuv, yline + 1, uline, vline);
    rgbIndex := rgbIndex + ps;
  }

  /** The same, as progress of the whole: final for chroma entry `k` if `c'` is past it. */
  method EncodeNextPair(rgb: array<byte>, start: nat, yuv: array<byte>, ps: nat,
                        yline: nat, uline: nat, vline: nat, ghost before: seq<byte>,
                        ghost pixels: seq<Bgr>, ghost corners: seq<Bgr>, ghost k: nat, ghost c: nat, ghost c': nat)
    returns (rgbIndex: nat)
    requires rgb != yuv && 3 <= ps && |pixels| * ps <= rgb.Length && pixels == Pixels(rgb[..], ps, |pixels|)
    requires yline + 2 <= |pixels| && start == yline * ps
    requires |pixels| + 2 * |corners| <= |before| && c <= k < |corners|
    requires uline == |pixels| + k && vline == uline + |corners|
    requires c' == c || (c' == c + 1 == k + 1 && corners[k] == pixels[yline + 1])
    requires Done(before, yuv[..], pixels, corners, yline, c)
    modifies yuv
    ensures rgbIndex == (yline + 2) * ps
    ensures Done(before, yuv[..], pixels, corners, yline + 2, c')
  {
    ghost var s := yuv[..];
    rgbIndex := EncodePair(rgb, start, yuv, ps, yline, uline, vline, |pixels|);
    StepPair(before, s, yuv[..], pixels, corners, yline, k, c, c');
  }

  /** The inner loop: one row, two pixels at a time. */
  method EncodeRow(rgb: array<byte>, start: nat, yuv: array<byte>, w: nat, ps: nat,
                   yline0: nat, uline0: nat, vline0: nat, ghost before: seq<byte>,
                   ghost pixels: seq<Bgr>, ghost corners: seq<Bgr>, ghost k0: nat, ghost half: nat, ghost odd: bool)
    returns (rgbIndex: nat)
    requires rgb != yuv && 3 <= ps && |pixels| * ps <= rgb.Length && pixels == Pixels(rgb[..], ps, |pixels|)
    requires w == 2 * half && Row(pixels, corners, half, yline0, k0, odd) && start == yline0 * ps
    requires |pixels| + 2 * |corners| <= |before|
    requires uline0 == |pixels| + k0 && vline0 == uline0 + |corners|
    requires Done(before, yuv[..], pixels, corners, yline0, k0)
    modifies yuv
    ensures rgbIndex == (yline0 + w) * ps
    ensures Done(before, yuv[..], pixels, corners, yline0 + w, k0 + if odd then half else 0)
  {
    rgbIndex := start;
    var yline, uline, vline := yline0, uline0, vline0;
    var x := 0;
    ghost var j := 0;
    while x < w
      invariant x == 2 * j && j <= half
      invariant yline == yline0 + x && uline == uline0 + j && vline == vline0 + j
      invariant rgbIndex == yline * ps
      invariant Done(before, yuv[..], pixels, corners, yline, k0 + if odd then j else 0)
    {
      assert odd ==> Decides(pixels, corners, yline0, k0, j);
      rgbIndex := EncodeNextPair(rgb, rgbIndex, yuv, ps, yline, uline, vline, before, pixels, corners, k0 + j,
                                 k0 + if odd then j else 0, k0 + if odd then j + 1 else 0);
      yline, uline, vline := yline + 2, uline + 1, vline + 1;
      x, j := x + 2, j + 1;
    }
  }

  /** Before row `y == 2 * i + (if odd then 1 else 0)`: all rows above are encoded, and the chroma
      entries of all complete pairs of rows. */
  ghost predicate Progress(before: seq<byte>, yuv: seq<byte>, img: Image, y: nat, i: nat, odd: bool)
    requires img.Ok() && |img.pixels| + 2 * |img.Corners()| <= |before|
  {
    && y == 2 * i + (if odd then 1 else 0) && y <= img.h
    && y * img.w <= |img.pixels| && i * (img.w / 2) <= |img.Corners()|
    && Done(before, yuv, img.pixels, img.Corners(), y * img.w, i * (img.w / 2))
  }

  lemma Finish(before: seq<byte>, after: seq<byte>, img: Image, i: nat, odd: bool)
    requires img.Ok() && |img.pixels| + 2 * |img.Corners()| <= |before|
    requires Progress(before, after, img, img.h, i, odd)
    ensures Encoded(before, after, img)
  {
    assert i == img.h / 2;
    assert i * (img.w / 2) == |img.Corners()|;
  }

  /** The body of the outer loop: row `y`. */
  method EncodeNextRow(rgb: array<byte>, start: nat, yuv: array<byte>, ps: nat, y: nat, w: nat, halfWidth: nat,
                       uplane: nat, vplane: nat, ghost before: seq<byte>, ghost img: Image, ghost i: nat, ghost odd: bool)
    returns (rgbIndex: nat)
    requires rgb != yuv && 3 <= ps && img.Ok() && img.w == w == 2 * halfWidth && y < img.h
    requires |img.pixels| * ps <= rgb.Length && img.pixels == Pixels(rgb[..], ps, |img.pixels|)
    requires |img.pixels| + 2 * |img.Corners()| <= |before|
    requires uplane == |img.pixels| && vplane == uplane + |img.Corners()|
    requires start == (y * w) * ps && Progress(before, yuv[..], img, y, i, odd)
    modifies yuv
    ensures rgbIndex == ((y + 1) * w) * ps
    ensures Progress(before, yuv[..], img, y + 1, if odd then i + 1 else i, !odd)
  {
    ghost var line, k0 := RowOf(img, y, i, odd);
    var yline, up := y * w, (y / 2) * halfWidth;
    rgbIndex := EncodeRow(rgb, start, yuv, w, ps, yline, uplane + up, vplane + up,
                          before, img.pixels, img.Corners(), k0, halfWidth, odd);
  }

  lemma QuarterPlane(w: nat, h: nat)
    requires w % 2 == 0 && h % 2 == 0
    ensures (w * h) / 4 == (w / 2) * (h / 2)
    ensures w * h == 4 * ((w / 2) * (h / 2))
  {
  }

  method RGBtoYUV420(rgb: array<byte>, yuv: array<byte>, w: nat, h: nat, ps: nat)
    requires rgb != yuv && 3 <= ps && w % 2 == 0 && h % 2 == 0
    requires (w * h) * ps <= rgb.Length && w * h + 2 * ((w / 2) * (h / 2)) <= yuv.Length
    modifies yuv
    ensures Encoded(old(yuv[..]), yuv[..], Image(Pixels(rgb[..], ps, w * h), w, h))
  {
    ghost var before, img := yuv[..], Image(Pixels(rgb[..], ps, w * h), w, h);
    QuarterPlane(w, h);
    var planeSize, halfWidth := w * h, w / 2;
    var uplane, vplane := planeSize, planeSize + planeSize / 4;
    var rgbIndex, y := 0, 0;
    ghost var i, odd := 0, false;
    while y < h
      invariant Progress(before, yuv[..], img, y, i, odd)
      invariant rgbIndex == (y * w) * ps
    {
      rgbIndex := EncodeNextRow(rgb, rgbIndex, yuv, ps, y, w, halfWidth, uplane, vplane, before, img, i, odd);
      i, odd := if odd then i + 1 else i, !odd;
      y := y + 1;
    }
    assert rgb[..] == old(rgb[..]);
    Finish(before, yuv[..], img, i, odd);
  }

  /** The three planes by row and column: luma of every pixel; both chroma values of every
      two-by-two block from its bottom right pixel; 3/2 bytes per pixel in all. */
  lemma EncodedPlanes(before: seq<byte>, after: seq<byte>, img: Image)
    requires img.Ok() && |img.pixels| + 2 * |img.Corners()| <= |before| && Encoded(before, after, img)
    ensures 2 * (|img.pixels| + 2 * |img.Corners()|) == 3 * (img.w * img.h)
    ensures forall r: nat, c: nat :: r < img.h && c < img.w ==> LumaAt(after, img, r, c)
    ensures forall i: nat, j: nat :: i < img.h / 2 && j < img.w / 2 ==> ChromaAt(after, img, i, j)
  {
    QuarterPlane(img.w, img.h);
    forall r: nat, c: nat | r < img.h && c < img.w ensures LumaAt(after, img, r, c) {
      EncodedLuma(before, after, img, r, c);
    }
    forall i: nat, j: nat | i < img.h / 2 && j < img.w / 2 ensures ChromaAt(after, img, i, j) {
      EncodedChroma(before, after, img, i, j);
    }
  }

  // ---- the same on the raw bytes ----

  lemma RawPixel(rgb: seq<byte>, ps: nat, w: nat, h: nat, r: nat, c: nat) returns (k: nat)
    requires 3 <= ps && (w * h) * ps <= |rgb| && w % 2 == 0 && h % 2 == 0 && r < h && c < w
    ensures k == (r * w + c) * ps && k + 2 < |rgb|
    ensures Image(Pixels(rgb, ps, w * h), w, h).At(r, c) == Bgr(rgb[k], rgb[k + 1], rgb[k + 2])
  {
    InPlane(r, c, h, w);
    MulMono(r * w + c + 1, w * h, ps);
    k := (r * w + c) * ps;
  }

  /** A luma byte is the weighted sum of the three bytes of its pixel, in hundredths, rounded down. */
  lemma EncodedLumaBytes(before: seq<byte>, yuv: seq<byte>, rgb: seq<byte>, ps: nat, w: nat, h: nat, r: nat, c: nat)
    returns (k: nat, at: nat)
    requires 3 <= ps && (w * h) * ps <= |rgb| && w % 2 == 0 && h % 2 == 0 && r < h && c < w
    requires w * h + 2 * ((w / 2) * (h / 2)) <= |before|
    requires Encoded(before, yuv, Image(Pixels(rgb, ps, w * h), w, h))
    ensures at == r * w + c < |yuv| && k == at * ps && k + 2 < |rgb|
    ensures 0 <= 30 * (rgb[k + 2] as int) + 59 * (rgb[k + 1] as int) + 11 * (rgb[k] as int) - 100 * (yuv[at] as int) < 100
  {
    EncodedLuma(before, yuv, Image(Pixels(rgb, ps, w * h), w, h), r, c);
    k := RawPixel(rgb, ps, w, h, r, c);
    at := r * w + c;
  }

  /** The chroma bytes of block `(i, j)` are the weighted sums of the three bytes of its bottom right
      pixel, behind the luma plane and behind the first chroma plane. */
  lemma EncodedChromaBytes(before: seq<byte>, yuv: seq<byte>, rgb: seq<byte>, ps: nat, w: nat, h: nat, i: nat, j: nat)
    returns (k: nat, u: nat, v: nat)
    requires 3 <= ps && (w * h) * ps <= |rgb| && w % 2 == 0 && h % 2 == 0 && i < h / 2 && j < w / 2
    requires w * h + 2 * ((w / 2) * (h / 2)) <= |before|
    requires Encoded(before, yuv, Image(Pixels(rgb, ps, w * h), w, h))
    ensures u == w * h + (i * (w / 2) + j) && v == u + (w / 2) * (h / 2) < |yuv|
    ensures k == ((2 * i + 1) * w + (2 * j + 1)) * ps && k + 2 < |rgb|
    ensures 0 <= 50 * (rgb[k] as int) - 33 * (rgb[k + 1] as int) - 17 * (rgb[k + 2] as int) + 12800
                 - 100 * (yuv[u] as int) < 100
    ensures 0 <= 50 * (rgb[k + 2] as int) - 42 * (rgb[k + 1] as int) - 8 * (rgb[k] as int) + 12800
                 - 100 * (yuv[v] as int) < 100
  {
    k := RawPixel(rgb, ps, w, h, 2 * i + 1, 2 * j + 1);
    u, v := ChromaPlaces(w, h, i, j);
    ChromaBytes(before, yuv, Image(Pixels(rgb, ps, w * h), w, h), i, j, u, v, Bgr(rgb[k], rgb[k + 1], rgb[k + 2]));
  }

  lemma ChromaPlaces(w: nat, h: nat, i: nat, j: nat) returns (u: nat, v: nat)
    ensures u == w * h + (i * (w / 2) + j) && v == u + (w / 2) * (h / 2)
  {
    u, v := w * h + (i * (w / 2) + j), w * h + (i * (w / 2) + j) + (w / 2) * (h / 2);
  }

  lemma ChromaBytes(before: seq<byte>, yuv: seq<byte>, img: Image, i: nat, j: nat, u: nat, v: nat, p: Bgr)
    requires img.Ok() && |img.pixels| + 2 * |img.Corners()| <= |before| && Encoded(before, yuv, img)
    requires i < img.h / 2 && j < img.w / 2 && p == img.At(2 * i + 1, 2 * j + 1)
    requires u == |img.pixels| + (i * (img.w / 2) + j) && v == u + |img.Corners()|
    ensures v < |yuv|
    ensures 0 <= 50 * (p.b as int) - 33 * (p.g as int) - 17 * (p.r as int) + 12800 - 100 * (yuv[u] as int) < 100
    ensures 0 <= 50 * (p.r as int) - 42 * (p.g as int) - 8 * (p.b as int) + 12800 - 100 * (yuv[v] as int) < 100
  {
    EncodedChroma(before, yuv, img, i, j);
  }

  /** What lies behind the three planes is not touched. */
  lemma EncodedTail(before: seq<byte>, yuv: seq<byte>, img: Image)
    requires img.Ok() && |img.pixels| + 2 * |img.Corners()| <= |before| && Encoded(before, yuv, img)
    ensures |yuv| == |before| && 2 * |yuv| >= 3 * (img.w * img.h)
    ensures forall k :: 3 * (img.w * img.h) <= 2 * k < 2 * |yuv| ==> yuv[k] == before[k]
  {
    QuarterPlane(img.w, img.h);
    var n := |img.pixels| + 2 * |img.Corners()|;
    forall k | n <= k < |yuv| ensures yuv[k] == before[k] {
      assert yuv[k] == yuv[n..][k - n] && before[k] == before[n..][k - n];
    }
  }

  lemma EncodedLuma(before: seq<byte>, after: seq<byte>, img: Image, r: nat, c: nat)
    requires img.Ok() && |img.pixels| + 2 * |img.Corners()| <= |before| && Encoded(before, after, img)
    requires r < img.h && c < img.w
    ensures LumaAt(after, img, r, c)
  {
    LumaPlane(before, after, img.pixels, img.Corners());
    InPlane(r, c, img.h, img.w);
  }

  lemma InPlane(r: nat, c: nat, h: nat, w: nat)
    requires r < h && c < w
    ensures r * w + c < w * h
  {
    MulMono(r + 1, h, w);
  }

  lemma LumaPlane(before: seq<byte>, after: seq<byte>, pixels: seq<Bgr>, corners: seq<Bgr>)
    requires |pixels| + 2 * |corners| <= |before|
    requires Done(before, after, pixels, corners, |pixels|, |corners|)
    ensures |pixels| <= |after| && forall k: nat :: k < |pixels| ==> after[k] == pixels[k].Luma()
  {
  }

  lemma EncodedChroma(before: seq<byte>, after: seq<byte>, img: Image, i: nat, j: nat)
    requires img.Ok() && |img.pixels| + 2 * |img.Corners()| <= |before| && Encoded(before, after, img)
    requires i < img.h / 2 && j < img.w / 2
    ensures ChromaAt(after, img, i, j)
  {
    img.CornerAt(i, j);
    var k := i * (img.w / 2) + j;
    assert k < |img.Corners()|;
    assert after[|img.pixels| + k] == img.Corners()[k].U();
    assert after[|img.pixels| + |img.Corners()| + k] == img.Corners()[k].V();
  }

  ghost predicate LumaAt(yuv: seq<byte>, img: Image, r: nat, c: nat)
    requires img.Ok() && r < img.h && c < img.w
  {
    r * img.w + c < |yuv| && yuv[r * img.w + c] == img.At(r, c).Luma()
  }

  ghost predicate ChromaAt(yuv: seq<byte>, img: Image, i: nat, j: nat)
    requires img.Ok() && i < img.h / 2 && j < img.w / 2
  {
    var u := |img.pixels| + (i * (img.w / 2) + j);
    var v := u + |img.Corners()|;
    && v < |yuv|
    && yuv[u] == img.At(2 * i + 1, 2 * j + 1).U()
    && yuv[v] == img.At(2 * i + 1, 2 * j + 1).V()
  }
}
