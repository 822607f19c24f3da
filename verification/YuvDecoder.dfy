/** `I420ToARGB` of yuv_tools.hpp: three planes to rows of B, G, R, A bytes. */
module YuvDecoder {
  import opened Arith
  import opened Bytes
  import opened YuvEncoder

  /** An arithmetic shift right by 8 rounds down, as Dafny's division by 256 does. */
  function Shr8(x: int): int {
    x / 256
  }

  // The five coefficient tables, entry by entry.
  function Yc(i: byte): int { 298 * ((i as int) - 16) }
  function Ucg(i: byte): int { -100 * ((i as int) - 128) }
  function Ucb(i: byte): int { 516 * ((i as int) - 128) }
  function Vcr(i: byte): int { 409 * ((i as int) - 128) }
  function Vcg(i: byte): int { -208 * ((i as int) - 128) }

  function Clip(val: int): byte {
    if val < 0 then 0 else if val > 255 then 255 else val
  }

  ghost function Distance(x: int, y: int): nat {
    if x < y then y - x else x - y
  }

  /** What a channel is: adding 128, shifting and clipping give the byte nearest to the weighted sum
      `x`, which counts 256ths. */
  lemma NearestByte(x: int, d: byte)
    ensures Distance(256 * (Clip(Shr8(x + 128)) as int), x) <= Distance(256 * (d as int), x)
  {
  }

  /** The colour of a pixel with luma `y` and chroma `u`, `v`. */
  function Colour(y: byte, u: byte, v: byte): Bgr {
    Bgr(Clip(Shr8(Yc(y) + Ucb(u) + 128)),
        Clip(Shr8(Yc(y) + Ucg(u) + Vcg(v) + 128)),
        Clip(Shr8(Yc(y) + Vcr(v) + 128)))
  }

  /** `c` is the byte that the weighted sum `x` rounds to, or the nearer end of the range. */
  ghost predicate Rounded(c: byte, x: int) {
    (c > 0 ==> 256 * (c as int) - 128 <= x) && (c < 255 ==> x < 256 * (c as int) + 128)
  }

  lemma ClipRounds(x: int)
    ensures Rounded(Clip(Shr8(x + 128)), x)
  {
  }

  /** The channels of a decoded pixel are its weighted sums of 256ths, rounded to a byte. */
  lemma ColourIsRounded(y: byte, u: byte, v: byte)
    ensures var y', u', v' := y as int, u as int, v as int;
            && Rounded(Colour(y, u, v).b, 298 * (y' - 16) + 516 * (u' - 128))
            && Rounded(Colour(y, u, v).g, 298 * (y' - 16) - 100 * (u' - 128) - 208 * (v' - 128))
            && Rounded(Colour(y, u, v).r, 298 * (y' - 16) + 409 * (v' - 128))
  {
    var y', u', v' := y as int, u as int, v as int;
    ClipRounds(298 * (y' - 16) + 516 * (u' - 128));
    ClipRounds(298 * (y' - 16) - 100 * (u' - 128) - 208 * (v' - 128));
    ClipRounds(298 * (y' - 16) + 409 * (v' - 128));
  }

  lemma RoundedIsNearest(c: byte, x: int, d: byte)
    requires Rounded(c, x)
    ensures Distance(256 * (c as int), x) <= Distance(256 * (d as int), x)
  {
  }

  /** All three channels of a decoded pixel are the bytes nearest to their weighted sums. */
  lemma ColourIsNearest(y: byte, u: byte, v: byte, d: byte)
    ensures var y', u', v' := y as int, u as int, v as int;
            var b := 298 * (y' - 16) + 516 * (u' - 128);
            var g := 298 * (y' - 16) - 100 * (u' - 128) - 208 * (v' - 128);
            var r := 298 * (y' - 16) + 409 * (v' - 128);
            && Distance(256 * (Colour(y, u, v).b as int), b) <= Distance(256 * (d as int), b)
            && Distance(256 * (Colour(y, u, v).g as int), g) <= Distance(256 * (d as int), g)
            && Distance(256 * (Colour(y, u, v).r as int), r) <= Distance(256 * (d as int), r)
  {
    var y', u', v' := y as int, u as int, v as int;
    ColourIsRounded(y, u, v);
    RoundedIsNearest(Colour(y, u, v).b, 298 * (y' - 16) + 516 * (u' - 128), d);
    RoundedIsNearest(Colour(y, u, v).g, 298 * (y' - 16) - 100 * (u' - 128) - 208 * (v' - 128), d);
    RoundedIsNearest(Colour(y, u, v).r, 298 * (y' - 16) + 409 * (v' - 128), d);
  }

  /** A plane as the decoder gets it: a pointer (buffer and offset) and a row stride. */
  datatype Plane = Plane(data: seq<byte>, at: nat, stride: nat) {
    ghost predicate Covers(rows: nat, cols: nat) {
      rows > 0 ==> at + (rows - 1) * stride + cols <= |data|
    }

    ghost function Get(r: nat, c: nat, rows: nat, cols: nat): byte
      requires Covers(rows, cols) && r < rows && c < cols
    {
      MulMono(r, rows - 1, stride);
      data[at + r * stride + c]
    }
  }

  datatype Source = Source(y: Plane, u: Plane, v: Plane, w: nat, h: nat) {
    ghost predicate Ok() {
      && w % 2 == 0 && h % 2 == 0
      && y.Covers(h, w) && u.Covers(h / 2, w / 2) && v.Covers(h / 2, w / 2)
    }

    ghost function At(r: nat, c: nat): Bgr
      requires Ok() && r < h && c < w
    {
      Colour(y.Get(r, c, h, w), u.Get(r / 2, c / 2, h / 2, w / 2), v.Get(r / 2, c / 2, h / 2, w / 2))
    }
  }

  // ---- where the decoder puts the pixels ----

  /** Two rows at a time: after the first `4 * w` bytes of an upper row, `out` moves on by another
      `stride`, so pairs of rows lie `4 * w + stride` bytes apart. */
  function RowStart(w: nat, stride: nat, r: nat): nat {
    (r / 2) * (4 * w + stride) + (r % 2) * stride
  }

  /** One byte of a pixel; the fourth, alpha, stays what it was. */
  function Channel(p: Bgr, n: nat, alpha: byte): byte {
    if n == 0 then p.b else if n == 1 then p.g else if n == 2 then p.r else alpha
  }

  /** An even number of rows of `w` pixels. */
  ghost predicate Grid(rows: seq<seq<Bgr>>, w: nat) {
    |rows| % 2 == 0 && forall r :: 0 <= r < |rows| ==> |rows[r]| == w
  }

  /** The byte the decoder leaves `m` bytes into the `i`th pair of rows. */
  ghost function WantByte(rows: seq<seq<Bgr>>, w: nat, stride: nat, i: nat, m: nat, prior: byte): byte
    requires Grid(rows, w) && i < |rows| / 2 && m < 4 * w + stride && 4 * w <= stride
  {
    if m < 4 * w then Channel(rows[2 * i][m / 4], m % 4, prior)
    else if m < stride then prior
    else Channel(rows[2 * i + 1][(m - stride) / 4], (m - stride) % 4, prior)
  }

  /** The whole destination after decoding, byte by byte. */
  ghost function Want(rows: seq<seq<Bgr>>, w: nat, before: seq<byte>, stride: nat): (want: seq<byte>)
    requires Grid(rows, w) && 4 * w <= stride
    ensures |want| == |before|
  {
    var pitch := 4 * w + stride;
    seq(|before|, k requires 0 <= k < |before| =>
      if pitch > 0 && k / pitch < |rows| / 2 then WantByte(rows, w, stride, k / pitch, k % pitch, before[k])
      else before[k])
  }

  lemma WantAt(rows: seq<seq<Bgr>>, w: nat, before: seq<byte>, stride: nat, i: nat, out: nat, m: nat)
    requires Grid(rows, w) && 4 * w <= stride && i < |rows| / 2 && m < 4 * w + stride
    requires out == i * (4 * w + stride) && out + m < |before|
    ensures Want(rows, w, before, stride)[out + m] == WantByte(rows, w, stride, i, m, before[out + m])
  {
    DivMod(i, m, 4 * w + stride);
  }

  // ---- the inner loop, on sequences ----

  /** `want` has the pixel `p` at `pos`, with the alpha byte of `before`. */
  ghost predicate Cell(want: seq<byte>, before: seq<byte>, pos: nat, p: Bgr)
    requires |want| == |before|
  {
    && pos + 4 <= |want|
    && want[pos] == p.b && want[pos + 1] == p.g && want[pos + 2] == p.r
    && want[pos + 3] == before[pos + 3]
  }

  /** The four pixels of block `j` of a pair of rows: they share their chroma values. */
  ghost predicate Quad(want: seq<byte>, before: seq<byte>, out: nat, out2: nat, j: nat,
                       upper: seq<Bgr>, lower: seq<Bgr>)
    requires |want| == |before| && 2 * j + 1 < |upper| == |lower|
  {
    && Cell(want, before, out + 8 * j, upper[2 * j])
    && Cell(want, before, out + 8 * j + 4, upper[2 * j + 1])
    && Cell(want, before, out2 + 8 * j, lower[2 * j])
    && Cell(want, before, out2 + 8 * j + 4, lower[2 * j + 1])
  }

  /** A pair of rows of `2 * half` pixels: what `want` holds for it. */
  ghost predicate Band(want: seq<byte>, before: seq<byte>, out: nat, out2: nat, half: nat,
                       upper: seq<Bgr>, lower: seq<Bgr>)
    requires |want| == |before|
  {
    && |upper| == |lower| == 2 * half
    && out + 8 * half <= out2 && out2 + 8 * half <= |before|
    && (forall j: nat :: j < half ==> Quad(want, before, out, out2, j, upper, lower))
    && (forall k :: out + 8 * half <= k < out2 ==> want[k] == before[k])
  }

  /** Block `j` of a row has the colours of the source bytes. */
  ghost predicate Matches(row: seq<Bgr>, y: seq<byte>, u: seq<byte>, v: seq<byte>, j: nat)
    requires 2 * j + 1 < |row| == |y| && j < |u| == |v|
  {
    row[2 * j] == Colour(y[2 * j], u[j], v[j]) && row[2 * j + 1] == Colour(y[2 * j + 1], u[j], v[j])
  }

  /** Everything below `out` and the first `j` blocks of the pair of rows are as wanted, the rest
      is untouched. */
  ghost predicate Merged(want: seq<byte>, before: seq<byte>, dst: seq<byte>, out: nat, out2: nat, j: nat)
    requires |want| == |before|
  {
    && |dst| == |before|
    && forall k :: 0 <= k < |dst| ==>
         dst[k] == if k < out + 8 * j || out2 <= k < out2 + 8 * j then want[k] else before[k]
  }

  /** Block `j` of every row has the colours of the source bytes. */
  ghost predicate RowMatches(row: seq<Bgr>, y: seq<byte>, u: seq<byte>, v: seq<byte>) {
    && |row| == |y| == 2 * |u| && |u| == |v|
    && forall j: nat :: j < |u| ==> Matches(row, y, u, v, j)
  }

  lemma BlockColours(row: seq<Bgr>, y: seq<byte>, u: seq<byte>, v: seq<byte>, j: nat,
                     y0: byte, y1: byte, u0: byte, v0: byte)
    requires RowMatches(row, y, u, v) && j < |u|
    requires y0 == y[2 * j] && y1 == y[2 * j + 1] && u0 == u[j] && v0 == v[j]
    ensures row[2 * j] == Colour(y0, u0, v0) && row[2 * j + 1] == Colour(y1, u0, v0)
  {
    assert Matches(row, y, u, v, j);
  }

  lemma ColoursAt(row: seq<Bgr>, ys: seq<byte>, us: seq<byte>, vs: seq<byte>, y: nat, u: nat, v: nat,
                  half: nat, j: nat, a: byte, b: byte, c: byte, d: byte)
    requires y + 2 * half <= |ys| && u + half <= |us| && v + half <= |vs| && j < half
    requires RowMatches(row, ys[y..y + 2 * half], us[u..u + half], vs[v..v + half])
    requires a == ys[y + 2 * j] && b == ys[y + 2 * j + 1] && c == us[u + j] && d == vs[v + j]
    ensures row[2 * j] == Colour(a, c, d) && row[2 * j + 1] == Colour(b, c, d)
  {
    BlockColours(row, ys[y..y + 2 * half], us[u..u + half], vs[v..v + half], j, a, b, c, d);
  }

  // ---- the code ----

  /** The block of statements that computes and stores one pixel. */
  method StorePixel(dst: array<byte>, out: nat, y: byte, u: byte, v: byte,
                    ghost want: seq<byte>, ghost before: seq<byte>)
    requires |want| == |before| == dst.Length && Cell(want, before, out, Colour(y, u, v))
    requires dst[out + 3] == before[out + 3]
    modifies dst
    ensures forall k :: 0 <= k < dst.Length ==>
              dst[k] == if out <= k < out + 4 then want[k] else old(dst[k])
  {
    var r := Shr8(Yc(y) + Vcr(v) + 128);
    var g := Shr8(Yc(y) + Ucg(u) + Vcg(v) + 128);
    var b := Shr8(Yc(y) + Ucb(u) + 128);
    dst[out] := Clip(b);
    dst[out + 1] := Clip(g);
    dst[out + 2] := Clip(r);
  }

  /** The body of the inner loop: the four pixels of block `j`. */
  method StoreBlock(srcY: array<byte>, y1: nat, y2: nat, u: byte, v: byte, dst: array<byte>, out: nat, out2: nat,
                    ghost want: seq<byte>, ghost before: seq<byte>,
                    ghost p0: Bgr, ghost p1: Bgr, ghost q0: Bgr, ghost q1: Bgr)
    requires dst != srcY && y1 + 2 <= srcY.Length && y2 + 2 <= srcY.Length
    requires |want| == |before| == dst.Length && out + 8 <= out2 && out2 + 8 <= dst.Length
    requires p0 == Colour(srcY[y1], u, v) && p1 == Colour(srcY[y1 + 1], u, v)
    requires q0 == Colour(srcY[y2], u, v) && q1 == Colour(srcY[y2 + 1], u, v)
    requires Cell(want, before, out, p0) && Cell(want, before, out + 4, p1)
    requires Cell(want, before, out2, q0) && Cell(want, before, out2 + 4, q1)
    requires forall k :: out <= k < out + 8 || out2 <= k < out2 + 8 ==> dst[k] == before[k]
    modifies dst
    ensures forall k :: 0 <= k < dst.Length ==>
              dst[k] == if out <= k < out + 8 || out2 <= k < out2 + 8 then want[k] else old(dst[k])
  {
    StorePixel(dst, out, srcY[y1], u, v, want, before);
    StorePixel(dst, out + 4, srcY[y1 + 1], u, v, want, before);
    StorePixel(dst, out2, srcY[y2], u, v, want, before);
    StorePixel(dst, out2 + 4, srcY[y2 + 1], u, v, want, before);
  }

  /** The same, as progress on a band: block `j` of it is done. */
  method StoreNextBlock(srcY: array<byte>, y1: nat, y2: nat, u: byte, v: byte, dst: array<byte>, out: nat, out2: nat,
                        ghost want: seq<byte>, ghost before: seq<byte>, ghost outAt: nat, ghost out2At: nat,
                        ghost half: nat, ghost upper: seq<Bgr>, ghost lower: seq<Bgr>, ghost j: nat)
    requires dst != srcY && y1 + 2 <= srcY.Length && y2 + 2 <= srcY.Length && j < half
    requires |want| == |before| && Band(want, before, outAt, out2At, half, upper, lower)
    requires out == outAt + 8 * j && out2 == out2At + 8 * j
    requires upper[2 * j] == Colour(srcY[y1], u, v) && upper[2 * j + 1] == Colour(srcY[y1 + 1], u, v)
    requires lower[2 * j] == Colour(srcY[y2], u, v) && lower[2 * j + 1] == Colour(srcY[y2 + 1], u, v)
    requires Merged(want, before, dst[..], outAt, out2At, j)
    modifies dst
    ensures Merged(want, before, dst[..], outAt, out2At, j + 1)
  {
    assert Quad(want, before, outAt, out2At, j, upper, lower);
    StoreBlock(srcY, y1, y2, u, v, dst, out, out2, want, before,
               upper[2 * j], upper[2 * j + 1], lower[2 * j], lower[2 * j + 1]);
  }

  /** The inner loop: two rows, two pixels of either at a time. */
  method DecodeBand(srcY: array<byte>, y1At: nat, y2At: nat, srcU: array<byte>, uAt: nat,
                    srcV: array<byte>, vAt: nat, dst: array<byte>, outAt: nat, out2At: nat, half: nat,
                    ghost want: seq<byte>, ghost before: seq<byte>, ghost upper: seq<Bgr>, ghost lower: seq<Bgr>,
                    ghost ys: seq<byte>, ghost us: seq<byte>, ghost vs: seq<byte>)
    requires dst != srcY && dst != srcU && dst != srcV
    requires srcY[..] == ys && srcU[..] == us && srcV[..] == vs
    requires y1At + 2 * half <= srcY.Length && y2At + 2 * half <= srcY.Length
    requires uAt + half <= srcU.Length && vAt + half <= srcV.Length
    requires |want| == |before| && Merged(want, before, dst[..], outAt, out2At, 0)
    requires Band(want, before, outAt, out2At, half, upper, lower)
    requires RowMatches(upper, ys[y1At..y1At + 2 * half], us[uAt..uAt + half], vs[vAt..vAt + half])
    requires RowMatches(lower, ys[y2At..y2At + 2 * half], us[uAt..uAt + half], vs[vAt..vAt + half])
    modifies dst
    ensures Merged(want, before, dst[..], outAt, out2At, half)
  {
    var out, out2, y1, y2, u, v := outAt, out2At, y1At, y2At, uAt, vAt;
    var w := 0;
    while w < half
      invariant w <= half
      invariant out == outAt + 8 * w && out2 == out2At + 8 * w
      invariant y1 == y1At + 2 * w && y2 == y2At + 2 * w && u == uAt + w && v == vAt + w
      invariant Merged(want, before, dst[..], outAt, out2At, w)
    {
      ColoursAt(upper, ys, us, vs, y1At, uAt, vAt, half, w, srcY[y1], srcY[y1 + 1], srcU[u], srcV[v]);
      ColoursAt(lower, ys, us, vs, y2At, uAt, vAt, half, w, srcY[y2], srcY[y2 + 1], srcU[u], srcV[v]);
      StoreNextBlock(srcY, y1, y2, srcU[u], srcV[v], dst, out, out2, want, before,
                     outAt, out2At, half, upper, lower, w);
      out, out2 := out + 8, out2 + 8;
      y1, y2 := y1 + 2, y2 + 2;
      u, v := u + 1, v + 1;
      w := w + 1;
    }
  }

  // ---- the outer loop ----

  ghost function RowColours(src: Source, r: nat): (row: seq<Bgr>)
    requires src.Ok() && r < src.h
    ensures |row| == src.w
  {
    seq(src.w, c requires 0 <= c < src.w => src.At(r, c))
  }

  /** All pixels, row by row. */
  ghost function Colours(src: Source): (rows: seq<seq<Bgr>>)
    requires src.Ok()
    ensures |rows| == src.h && Grid(rows, src.w)
  {
    seq(src.h, r requires 0 <= r < src.h => RowColours(src, r))
  }

  /** Byte `n` of pixel `c` in the upper or the lower row of a pair. */
  lemma WantChannel(rows: seq<seq<Bgr>>, w: nat, before: seq<byte>, stride: nat, i: nat, out: nat,
                    odd: bool, c: nat, n: nat)
    requires Grid(rows, w) && 4 * w <= stride && i < |rows| / 2 && c < w && n < 4
    requires out == i * (4 * w + stride) && out + (if odd then stride else 0) + 4 * w <= |before|
    ensures var k := out + (if odd then stride else 0) + 4 * c + n;
            Want(rows, w, before, stride)[k] == Channel(rows[2 * i + if odd then 1 else 0][c], n, before[k])
  {
    WantAt(rows, w, before, stride, i, out, (if odd then stride else 0) + 4 * c + n);
    assert (4 * c + n) / 4 == c && (4 * c + n) % 4 == n;
  }

  lemma CellAt(rows: seq<seq<Bgr>>, w: nat, before: seq<byte>, stride: nat, i: nat, out: nat, odd: bool, c: nat)
    requires Grid(rows, w) && 4 * w <= stride && i < |rows| / 2 && c < w
    requires out == i * (4 * w + stride) && out + (if odd then stride else 0) + 4 * w <= |before|
    ensures Cell(Want(rows, w, before, stride), before, out + (if odd then stride else 0) + 4 * c,
                 rows[2 * i + if odd then 1 else 0][c])
  {
    WantChannel(rows, w, before, stride, i, out, odd, c, 0);
    WantChannel(rows, w, before, stride, i, out, odd, c, 1);
    WantChannel(rows, w, before, stride, i, out, odd, c, 2);
    WantChannel(rows, w, before, stride, i, out, odd, c, 3);
  }

  lemma QuadAt(rows: seq<seq<Bgr>>, w: nat, half: nat, before: seq<byte>, stride: nat, i: nat, out: nat, j: nat)
    requires Grid(rows, w) && w == 2 * half && 4 * w <= stride && i < |rows| / 2 && j < half
    requires out == i * (4 * w + stride) && out + stride + 4 * w <= |before|
    ensures Quad(Want(rows, w, before, stride), before, out, out + stride, j, rows[2 * i], rows[2 * i + 1])
  {
    CellPair(rows, w, before, stride, i, out, false, j);
    CellPair(rows, w, before, stride, i, out, true, j);
  }

  lemma CellPair(rows: seq<seq<Bgr>>, w: nat, before: seq<byte>, stride: nat, i: nat, out: nat, odd: bool, j: nat)
    requires Grid(rows, w) && 4 * w <= stride && i < |rows| / 2 && 2 * j + 1 < w
    requires out == i * (4 * w + stride) && out + (if odd then stride else 0) + 4 * w <= |before|
    ensures var row, pos := rows[2 * i + if odd then 1 else 0], out + (if odd then stride else 0) + 8 * j;
            && Cell(Want(rows, w, before, stride), before, pos, row[2 * j])
            && Cell(Want(rows, w, before, stride), before, pos + 4, row[2 * j + 1])
  {
    CellAt(rows, w, before, stride, i, out, odd, 2 * j);
    CellAt(rows, w, before, stride, i, out, odd, 2 * j + 1);
  }

  lemma BandAt(rows: seq<seq<Bgr>>, w: nat, half: nat, before: seq<byte>, stride: nat, i: nat, out: nat, out2: nat)
    requires Grid(rows, w) && w == 2 * half && 4 * w <= stride && i < |rows| / 2
    requires out == i * (4 * w + stride) && out2 == out + stride && out + stride + 4 * w <= |before|
    ensures Band(Want(rows, w, before, stride), before, out, out2, half, rows[2 * i], rows[2 * i + 1])
  {
    var want := Want(rows, w, before, stride);
    var upper, lower := rows[2 * i], rows[2 * i + 1];
    forall j: nat | j < half ensures Quad(want, before, out, out2, j, upper, lower) {
      QuadAt(rows, w, half, before, stride, i, out, j);
    }
    forall k | out + 8 * half <= k < out + stride ensures want[k] == before[k] {
      WantAt(rows, w, before, stride, i, out, k - out);
    }
  }

  lemma Pitch(rows: nat, w: nat, stride: nat, i: nat, out: nat)
    requires i < rows && out == i * (4 * w + stride)
    ensures out + (4 * w + stride) == (i + 1) * (4 * w + stride) <= rows * (4 * w + stride)
  {
  }

  lemma WantBeyond(rows: seq<seq<Bgr>>, w: nat, before: seq<byte>, stride: nat, k: nat)
    requires Grid(rows, w) && 4 * w <= stride
    requires (|rows| / 2) * (4 * w + stride) <= k < |before|
    ensures Want(rows, w, before, stride)[k] == before[k]
  {
    var pitch := 4 * w + stride;
    if pitch > 0 && k / pitch < |rows| / 2 {
      MulMono(k / pitch + 1, |rows| / 2, pitch);
      assert false;
    }
  }

  lemma Row(p: Plane, r: nat, rows: nat, cols: nat, start: nat)
    requires p.Covers(rows, cols) && r < rows && start == p.at + r * p.stride
    ensures start + cols <= |p.data|
    ensures forall c: nat :: c < cols ==> p.data[start..start + cols][c] == p.Get(r, c, rows, cols)
  {
  }

  /** Pixels `2 * j` and `2 * j + 1` of a row share chroma values number `j`. */
  lemma RowPair(src: Source, r: nat, half: nat, j: nat)
    requires src.Ok() && r < src.h && src.w == 2 * half && r / 2 < src.h / 2 && j < half
    ensures var row, u, v := RowColours(src, r), src.u.Get(r / 2, j, src.h / 2, src.w / 2),
                             src.v.Get(r / 2, j, src.h / 2, src.w / 2);
            && row[2 * j] == Colour(src.y.Get(r, 2 * j, src.h, src.w), u, v)
            && row[2 * j + 1] == Colour(src.y.Get(r, 2 * j + 1, src.h, src.w), u, v)
  {
    assert (2 * j) / 2 == j && (2 * j + 1) / 2 == j;
  }

  lemma BandMatches(src: Source, r: nat, half: nat, y: nat, u: nat, v: nat)
    requires src.Ok() && r < src.h && src.w == 2 * half && r / 2 < src.h / 2
    requires y == src.y.at + r * src.y.stride
    requires u == src.u.at + (r / 2) * src.u.stride && v == src.v.at + (r / 2) * src.v.stride
    ensures y + 2 * half <= |src.y.data| && u + half <= |src.u.data| && v + half <= |src.v.data|
    ensures RowMatches(Colours(src)[r],
                       src.y.data[y..y + 2 * half], src.u.data[u..u + half], src.v.data[v..v + half])
  {
    Row(src.y, r, src.h, src.w, y);
    Row(src.u, r / 2, src.h / 2, src.w / 2, u);
    Row(src.v, r / 2, src.h / 2, src.w / 2, v);
    var ys, us, vs := src.y.data[y..y + 2 * half], src.u.data[u..u + half], src.v.data[v..v + half];
    forall j: nat | j < half ensures Matches(RowColours(src, r), ys, us, vs, j) {
      PairMatches(src, r, half, ys, us, vs, j);
    }
  }

  lemma PairMatches(src: Source, r: nat, half: nat, ys: seq<byte>, us: seq<byte>, vs: seq<byte>, j: nat)
    requires src.Ok() && r < src.h && src.w == 2 * half && r / 2 < src.h / 2 && j < half
    requires |ys| == 2 * half && |us| == |vs| == half
    requires ys[2 * j] == src.y.Get(r, 2 * j, src.h, src.w) && ys[2 * j + 1] == src.y.Get(r, 2 * j + 1, src.h, src.w)
    requires us[j] == src.u.Get(r / 2, j, src.h / 2, src.w / 2) && vs[j] == src.v.Get(r / 2, j, src.h / 2, src.w / 2)
    ensures Matches(RowColours(src, r), ys, us, vs, j)
  {
    RowPair(src, r, half, j);
  }

  /** Where the six pointers stand before the `i`th pair of rows. */
  ghost predicate Pointers(src: Source, stride: nat, i: nat, y1: nat, y2: nat, u: nat, v: nat, out: nat) {
    && y1 == src.y.at + (2 * i) * src.y.stride && y2 == src.y.at + (2 * i + 1) * src.y.stride
    && u == src.u.at + i * src.u.stride && v == src.v.at + i * src.v.stride
    && out == i * (4 * src.w + stride)
  }

  lemma NextPointers(src: Source, stride: nat, i: nat, y1: nat, y2: nat, u: nat, v: nat, out: nat)
    requires Pointers(src, stride, i, y1, y2, u, v, out)
    ensures Pointers(src, stride, i + 1, y1 + 2 * src.y.stride, y2 + 2 * src.y.stride,
                     u + src.u.stride, v + src.v.stride, out + (4 * src.w + stride))
  {
  }

  /** The state of the outer loop before the `i`th pair of rows. */
  ghost predicate Progress(src: Source, stride: nat, before: seq<byte>, dst: seq<byte>,
                           i: nat, y1: nat, y2: nat, u: nat, v: nat, out: nat)
    requires src.Ok() && 4 * src.w <= stride
  {
    && Pointers(src, stride, i, y1, y2, u, v, out)
    && Merged(Want(Colours(src), src.w, before, stride), before, dst, out, out + stride, 0)
  }

  /** What `DecodeBand` needs for the `i`th pair of rows. */
  lemma EnterBand(src: Source, half: nat, before: seq<byte>, stride: nat,
                  i: nat, y1: nat, y2: nat, u: nat, v: nat, out: nat, out2: nat)
    requires src.Ok() && src.w == 2 * half && 4 * src.w <= stride && 2 * i + 2 <= src.h
    requires (src.h / 2) * (4 * src.w + stride) <= |before|
    requires Pointers(src, stride, i, y1, y2, u, v, out) && out2 == out + stride
    ensures Band(Want(Colours(src), src.w, before, stride), before, out, out2, half,
                 Colours(src)[2 * i], Colours(src)[2 * i + 1])
    ensures y1 + 2 * half <= |src.y.data| && y2 + 2 * half <= |src.y.data|
    ensures u + half <= |src.u.data| && v + half <= |src.v.data|
    ensures RowMatches(Colours(src)[2 * i],
                       src.y.data[y1..y1 + 2 * half], src.u.data[u..u + half], src.v.data[v..v + half])
    ensures RowMatches(Colours(src)[2 * i + 1],
                       src.y.data[y2..y2 + 2 * half], src.u.data[u..u + half], src.v.data[v..v + half])
  {
    assert i < src.h / 2 && (2 * i) / 2 == i && (2 * i + 1) / 2 == i;
    Pitch(src.h / 2, src.w, stride, i, out);
    BandAt(Colours(src), src.w, half, before, stride, i, out, out2);
    BandMatches(src, 2 * i, half, y1, u, v);
    BandMatches(src, 2 * i + 1, half, y2, u, v);
  }

  lemma Begin(src: Source, stride: nat, before: seq<byte>)
    requires src.Ok() && 4 * src.w <= stride
    ensures Progress(src, stride, before, before, 0, src.y.at, src.y.at + src.y.stride, src.u.at, src.v.at, 0)
  {
  }

  lemma LeaveBand(src: Source, half: nat, stride: nat, before: seq<byte>, dst: seq<byte>,
                  i: nat, y1: nat, y2: nat, u: nat, v: nat, out: nat)
    requires src.Ok() && src.w == 2 * half && 4 * src.w <= stride && 2 * i + 2 <= src.h
    requires Pointers(src, stride, i, y1, y2, u, v, out)
    requires (src.h / 2) * (4 * src.w + stride) <= |before|
    requires Merged(Want(Colours(src), src.w, before, stride), before, dst, out, out + stride, half)
    ensures Progress(src, stride, before, dst, i + 1, y1 + 2 * src.y.stride, y2 + 2 * src.y.stride,
                     u + src.u.stride, v + src.v.stride, out + (4 * src.w + stride))
  {
    EnterBand(src, half, before, stride, i, y1, y2, u, v, out, out + stride);
    NextPointers(src, stride, i, y1, y2, u, v, out);
    NextMerged(Want(Colours(src), src.w, before, stride), before, dst, out, stride, half,
               Colours(src)[2 * i], Colours(src)[2 * i + 1]);
  }

  lemma NextMerged(want: seq<byte>, before: seq<byte>, dst: seq<byte>, out: nat, stride: nat, half: nat,
                   upper: seq<Bgr>, lower: seq<Bgr>)
    requires |want| == |before| && Band(want, before, out, out + stride, half, upper, lower)
    requires Merged(want, before, dst, out, out + stride, half)
    ensures Merged(want, before, dst, out + (8 * half + stride), out + (8 * half + stride) + stride, 0)
  {
  }

  /** The `i`th pair of rows. */
  method DecodePair(srcY: array<byte>, srcU: array<byte>, srcV: array<byte>, y1: nat, y2: nat, u: nat, v: nat,
                    dst: array<byte>, out: nat, out2: nat, half: nat,
                    ghost stride: nat, ghost src: Source, ghost before: seq<byte>, ghost i: nat)
    requires dst != srcY && dst != srcU && dst != srcV && out2 == out + stride
    requires src.y.data == srcY[..] && src.u.data == srcU[..] && src.v.data == srcV[..]
    requires src.Ok() && src.w == 2 * half && 4 * src.w <= stride && 2 * i + 2 <= src.h
    requires (src.h / 2) * (4 * src.w + stride) <= |before|
    requires Progress(src, stride, before, dst[..], i, y1, y2, u, v, out)
    modifies dst
    ensures Merged(Want(Colours(src), src.w, before, stride), before, dst[..], out, out2, half)
  {
    EnterBand(src, half, before, stride, i, y1, y2, u, v, out, out2);
    ghost var want := Want(Colours(src), src.w, before, stride);
    ghost var upper, lower := Colours(src)[2 * i], Colours(src)[2 * i + 1];
    ghost var ys, us, vs := src.y.data, src.u.data, src.v.data;
    DecodeBand(srcY, y1, y2, srcU, u, srcV, v, dst, out, out2, half, want, before, upper, lower, ys, us, vs);
  }

  method DecodeNextPair(srcY: array<byte>, srcU: array<byte>, srcV: array<byte>, y1: nat, y2: nat, u: nat, v: nat,
                        dst: array<byte>, out: nat, out2: nat, half: nat,
                        ghost stride: nat, ghost src: Source, ghost before: seq<byte>, ghost i: nat)
    requires dst != srcY && dst != srcU && dst != srcV && out2 == out + stride
    requires src.y.data == srcY[..] && src.u.data == srcU[..] && src.v.data == srcV[..]
    requires src.Ok() && src.w == 2 * half && 4 * src.w <= stride && 2 * i + 2 <= src.h
    requires (src.h / 2) * (4 * src.w + stride) <= |before|
    requires Progress(src, stride, before, dst[..], i, y1, y2, u, v, out)
    modifies dst
    ensures Progress(src, stride, before, dst[..], i + 1, y1 + 2 * src.y.stride, y2 + 2 * src.y.stride,
                     u + src.u.stride, v + src.v.stride, out + (4 * src.w + stride))
  {
    DecodePair(srcY, srcU, srcV, y1, y2, u, v, dst, out, out2, half, stride, src, before, i);
    LeaveBand(src, half, stride, before, dst[..], i, y1, y2, u, v, out);
  }

  /** The outer loop, once the pointers are known not to be null. */
  method DecodePlanes(srcY: array<byte>, srcU: array<byte>, srcV: array<byte>,
                      strideY: nat, strideU: nat, strideV: nat, yAt: nat, uAt: nat, vAt: nat,
                      dst: array<byte>, stride: nat, w: nat, h: nat, ghost src: Source)
    requires dst != srcY && dst != srcU && dst != srcV
    requires src == Source(Plane(srcY[..], yAt, strideY), Plane(srcU[..], uAt, strideU),
                           Plane(srcV[..], vAt, strideV), w, h)
    requires src.Ok() && 4 * w <= stride && (h / 2) * (4 * w + stride) <= dst.Length
    modifies dst
    ensures dst[..] == Want(Colours(src), w, old(dst[..]), stride)
  {
    ghost var before := dst[..];
    var half, rows := (w + 1) / 2, (h + 1) / 2;
    assert w == 2 * half && h == 2 * rows;
    Begin(src, stride, before);
    ghost var out := DecodeRows(srcY, srcU, srcV, strideY, strideU, strideV, yAt, uAt, vAt,
                                dst, stride, w, half, rows, src, before);
    Complete(Colours(src), w, before, stride, dst[..], rows, out, out + stride);
  }

  method DecodeRows(srcY: array<byte>, srcU: array<byte>, srcV: array<byte>,
                    strideY: nat, strideU: nat, strideV: nat, yAt: nat, uAt: nat, vAt: nat,
                    dst: array<byte>, stride: nat, w: nat, half: nat, count: nat,
                    ghost src: Source, ghost before: seq<byte>)
    returns (ghost end: nat)
    requires dst != srcY && dst != srcU && dst != srcV
    requires src.y == Plane(srcY[..], yAt, strideY) && src.u == Plane(srcU[..], uAt, strideU)
    requires src.v == Plane(srcV[..], vAt, strideV) && src.w == w == 2 * half && src.h == 2 * count
    requires src.Ok() && 4 * w <= stride && (src.h / 2) * (4 * w + stride) <= |before|
    requires Progress(src, stride, before, dst[..], 0, yAt, yAt + strideY, uAt, vAt, 0)
    modifies dst
    ensures end == count * (4 * w + stride)
    ensures Merged(Want(Colours(src), w, before, stride), before, dst[..], end, end + stride, 0)
  {
    var y1: nat, y2: nat, u: nat, v: nat := yAt, yAt + strideY, uAt, vAt;
    var out: nat, out2: nat := 0, stride;
    var rows: nat := count;
    ghost var i := 0;
    while rows > 0
      invariant count == i + rows && out2 == out + stride
      invariant Progress(src, stride, before, dst[..], i, y1, y2, u, v, out)
    {
      DecodeNextPair(srcY, srcU, srcV, y1, y2, u, v, dst, out, out2, half, stride, src, before, i);
      // The inner loop has moved y1 and y2 by w, u and v by half, out and out2 by 4 * w.
      y1, y2 := y1 + 2 * strideY, y2 + 2 * strideY;
      u, v := u + strideU, v + strideV;
      out, out2 := out + (4 * w + stride), out2 + (4 * w + stride);
      rows, i := rows - 1, i + 1;
    }
    end := out;
  }

  lemma Complete(rows: seq<seq<Bgr>>, w: nat, before: seq<byte>, stride: nat, dst: seq<byte>,
                 i: nat, out: nat, out2: nat)
    requires Grid(rows, w) && 4 * w <= stride && 2 * i == |rows| && out == i * (4 * w + stride)
    requires Merged(Want(rows, w, before, stride), before, dst, out, out2, 0)
    ensures dst == Want(rows, w, before, stride)
  {
    forall k | 0 <= k < |dst| ensures dst[k] == Want(rows, w, before, stride)[k] {
      if out <= k { WantBeyond(rows, w, before, stride, k); }
    }
  }

  /** Returns false on a null pointer.  Otherwise the whole of `dst` is as `Want` says. */
  method I420ToARGB(srcY: array?<byte>, yAt: nat, strideY: nat, srcU: array?<byte>, uAt: nat, strideU: nat,
                    srcV: array?<byte>, vAt: nat, strideV: nat, dst: array?<byte>, stride: nat, w: nat, h: nat)
    returns (ok: bool)
    requires dst != null ==> dst != srcY && dst != srcU && dst != srcV
    requires srcY != null && srcU != null && srcV != null && dst != null ==>
               && Source(Plane(srcY[..], yAt, strideY), Plane(srcU[..], uAt, strideU),
                         Plane(srcV[..], vAt, strideV), w, h).Ok()
               && 4 * w <= stride && (h / 2) * (4 * w + stride) <= dst.Length
    modifies dst
    ensures ok <==> srcY != null && srcU != null && srcV != null && dst != null
    ensures ok ==>
              dst[..] == Want(Colours(Source(Plane(srcY[..], yAt, strideY), Plane(srcU[..], uAt, strideU),
                                             Plane(srcV[..], vAt, strideV), w, h)), w, old(dst[..]), stride)
  {
    if srcY == null || srcU == null || srcV == null || dst == null {
      return false;
    }
    ghost var src := Source(Plane(srcY[..], yAt, strideY), Plane(srcU[..], uAt, strideU),
                            Plane(srcV[..], vAt, strideV), w, h);
    DecodePlanes(srcY, srcU, srcV, strideY, strideU, strideV, yAt, uAt, vAt, dst, stride, w, h, src);
    assert srcY[..] == src.y.data && srcU[..] == src.u.data && srcV[..] == src.v.data;
    return true;
  }

  // ---- what that means for a pixel ----

  /** The pixel `p` is stored at `pos` of the destination, under the alpha byte that was there. */
  ghost predicate Shows(before: seq<byte>, dst: seq<byte>, pos: nat, p: Bgr) {
    && pos + 4 <= |dst| == |before|
    && dst[pos] == p.b && dst[pos + 1] == p.g && dst[pos + 2] == p.r && dst[pos + 3] == before[pos + 3]
  }

  lemma RowStartAt(w: nat, stride: nat, r: nat)
    ensures RowStart(w, stride, r) == (r / 2) * (4 * w + stride) + if r % 2 == 1 then stride else 0
  {
  }

  lemma ShownAt(rows: seq<seq<Bgr>>, w: nat, before: seq<byte>, dst: seq<byte>, stride: nat, r: nat, c: nat)
    requires Grid(rows, w) && 4 * w <= stride && (|rows| / 2) * (4 * w + stride) <= |before|
    requires dst == Want(rows, w, before, stride) && r < |rows| && c < w
    ensures Shows(before, dst, RowStart(w, stride, r) + 4 * c, rows[r][c])
  {
    var i := r / 2;
    ShownInPair(rows, w, before, dst, stride, i, i * (4 * w + stride), r % 2 == 1, c);
    RowStartAt(w, stride, r);
  }

  lemma ShownInPair(rows: seq<seq<Bgr>>, w: nat, before: seq<byte>, dst: seq<byte>, stride: nat,
                    i: nat, out: nat, odd: bool, c: nat)
    requires Grid(rows, w) && 4 * w <= stride && (|rows| / 2) * (4 * w + stride) <= |before|
    requires dst == Want(rows, w, before, stride) && i < |rows| / 2 && c < w
    requires out == i * (4 * w + stride)
    ensures Shows(before, dst, out + (if odd then stride else 0) + 4 * c, rows[2 * i + if odd then 1 else 0][c])
  {
    Pitch(|rows| / 2, w, stride, i, out);
    CellAt(rows, w, before, stride, i, out, odd, c);
  }

  /** Every pixel of the source is in its place: row `r` starts at `RowStart`. */
  lemma DecodedPixel(src: Source, before: seq<byte>, dst: seq<byte>, stride: nat, r: nat, c: nat)
    requires src.Ok() && 4 * src.w <= stride && (src.h / 2) * (4 * src.w + stride) <= |before|
    requires dst == Want(Colours(src), src.w, before, stride) && r < src.h && c < src.w
    ensures Shows(before, dst, RowStart(src.w, stride, r) + 4 * c, src.At(r, c))
  {
    ShownAt(Colours(src), src.w, before, dst, stride, r, c);
    assert Colours(src)[r] == RowColours(src, r);
  }

  /** The same on the raw bytes: the four bytes of row `r`, column `c`, from the three source bytes they
      depend on. */
  lemma DecodedBytes(src: Source, before: seq<byte>, dst: seq<byte>, stride: nat, r: nat, c: nat)
    returns (pos: nat, y: int, u: int, v: int)
    requires src.Ok() && 4 * src.w <= stride && (src.h / 2) * (4 * src.w + stride) <= |before|
    requires dst == Want(Colours(src), src.w, before, stride) && r < src.h && c < src.w
    ensures pos == (r / 2) * (4 * src.w + stride) + (if r % 2 == 1 then stride else 0) + 4 * c
    ensures IsByte(src.y.data, src.y.at + r * src.y.stride + c, y)
    ensures IsByte(src.u.data, src.u.at + (r / 2) * src.u.stride + c / 2, u)
    ensures IsByte(src.v.data, src.v.at + (r / 2) * src.v.stride + c / 2, v)
    ensures pos + 4 <= |dst| == |before| && dst[pos + 3] == before[pos + 3]
    ensures Rounded(dst[pos], 298 * (y - 16) + 516 * (u - 128))
    ensures Rounded(dst[pos + 1], 298 * (y - 16) - 100 * (u - 128) - 208 * (v - 128))
    ensures Rounded(dst[pos + 2], 298 * (y - 16) + 409 * (v - 128))
  {
    var y', u', v' := SourceBytes(src, r, c);
    y, u, v := y', u', v';
    pos := ShownBytes(src, before, dst, stride, r, c, Colour(y', u', v'));
    ColourIsRounded(y', u', v');
  }

  ghost predicate IsByte(data: seq<byte>, at: int, x: int) {
    0 <= at < |data| && data[at] == x
  }

  lemma SourceBytes(src: Source, r: nat, c: nat) returns (y: byte, u: byte, v: byte)
    requires src.Ok() && r < src.h && c < src.w
    ensures IsByte(src.y.data, src.y.at + r * src.y.stride + c, y)
    ensures IsByte(src.u.data, src.u.at + (r / 2) * src.u.stride + c / 2, u)
    ensures IsByte(src.v.data, src.v.at + (r / 2) * src.v.stride + c / 2, v)
    ensures src.At(r, c) == Colour(y, u, v)
  {
    assert r / 2 < src.h / 2 && c / 2 < src.w / 2;
    y := Fetch(src.y, r, c, src.h, src.w);
    u := Fetch(src.u, r / 2, c / 2, src.h / 2, src.w / 2);
    v := Fetch(src.v, r / 2, c / 2, src.h / 2, src.w / 2);
  }

  lemma ShownBytes(src: Source, before: seq<byte>, dst: seq<byte>, stride: nat, r: nat, c: nat, p: Bgr)
    returns (pos: nat)
    requires src.Ok() && 4 * src.w <= stride && (src.h / 2) * (4 * src.w + stride) <= |before|
    requires dst == Want(Colours(src), src.w, before, stride) && r < src.h && c < src.w && p == src.At(r, c)
    ensures pos == (r / 2) * (4 * src.w + stride) + (if r % 2 == 1 then stride else 0) + 4 * c
    ensures pos + 4 <= |dst| == |before|
    ensures dst[pos] == p.b && dst[pos + 1] == p.g && dst[pos + 2] == p.r && dst[pos + 3] == before[pos + 3]
  {
    DecodedPixel(src, before, dst, stride, r, c);
    RowStartAt(src.w, stride, r);
    pos := RowStart(src.w, stride, r) + 4 * c;
  }

  lemma Fetch(p: Plane, r: nat, c: nat, rows: nat, cols: nat) returns (x: byte)
    requires p.Covers(rows, cols) && r < rows && c < cols
    ensures IsByte(p.data, p.at + r * p.stride + c, x) && x == p.Get(r, c, rows, cols)
  {
    MulMono(r, rows - 1, p.stride);
    x := p.Get(r, c, rows, cols);
  }

  /** Every other byte of the destination stays what it was: between the two rows of the `i`th pair, ... */
  lemma GapUntouched(src: Source, before: seq<byte>, dst: seq<byte>, stride: nat, i: nat, k: nat)
    requires src.Ok() && 4 * src.w <= stride && (src.h / 2) * (4 * src.w + stride) <= |before|
    requires dst == Want(Colours(src), src.w, before, stride) && i < src.h / 2
    requires i * (4 * src.w + stride) + 4 * src.w <= k < i * (4 * src.w + stride) + stride
    ensures k < |dst| == |before| && dst[k] == before[k]
  {
    var out := i * (4 * src.w + stride);
    Pitch(src.h / 2, src.w, stride, i, out);
    WantAt(Colours(src), src.w, before, stride, i, out, k - out);
  }

  /** ... and behind the last pair. */
  lemma TailUntouched(src: Source, before: seq<byte>, dst: seq<byte>, stride: nat, k: nat)
    requires src.Ok() && 4 * src.w <= stride && dst == Want(Colours(src), src.w, before, stride)
    requires (src.h / 2) * (4 * src.w + stride) <= k < |before|
    ensures |dst| == |before| && dst[k] == before[k]
  {
    WantBeyond(Colours(src), src.w, before, stride, k);
  }

  /** The rows lie `stride` bytes apart, as the caller expects, exactly if the stride is that of
      packed rows or there are no more than two of them. */
  lemma StrideMustBePacked(w: nat, h: nat, stride: nat)
    requires h % 2 == 0
    ensures (forall r: nat :: r < h ==> RowStart(w, stride, r) == r * stride) <==> stride == 4 * w || h <= 2
  {
    if stride == 4 * w {
      forall r: nat ensures RowStart(w, stride, r) == r * stride {
        PackedRow(w, r);
      }
    } else if h > 2 {
      assert RowStart(w, stride, 2) == 4 * w + stride;
    } else {
      assert RowStart(w, stride, 0) == 0 && RowStart(w, stride, 1) == stride;
    }
  }

  lemma PackedRow(w: nat, r: nat)
    ensures RowStart(w, 4 * w, r) == r * (4 * w)
  {
  }
}
