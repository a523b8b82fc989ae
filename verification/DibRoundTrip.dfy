/** A reference bitmap encoder, and the proof that the decoder inverts it: both pixel sizes, both
    row orders, every header size, and whatever the padding and the unread header bytes hold. */
module DibRoundTrip {
  import opened Dib

  function Bytes2(n: int): seq<Byte>
    requires 0 <= n < 0x1_0000
  {
    [(n % 0x100) as Byte, (n / 0x100) as Byte]
  }

  function Bytes4(n: int): seq<Byte>
    requires 0 <= n < TWO_32
  {
    Bytes2(n % 0x1_0000) + Bytes2(n / 0x1_0000)
  }

  // Everything about a bitmap that is not its picture. `rest` fills the header from byte 20 to
  // the pixels, `pads` the end of each stored row.
  datatype Layout = Layout(headerSize: int, bits: int, compression: int, topDown: bool,
                           planes: seq<Byte>, rest: seq<Byte>, pads: seq<seq<Byte>>)

  function Offset(f: Layout): int {
    f.headerSize + (if f.compression == BI_BITFIELDS && f.headerSize == HEADER_MIN then 12 else 0)
  }

  predicate IsPicture(p: Picture, w: int, h: int) {
    1 <= w <= MAX_DIMENSION && 1 <= h <= MAX_DIMENSION && |p| == h && forall y :: 0 <= y < h ==> |p[y]| == w
  }

  predicate IsLayout(f: Layout, w: int, h: int) {
    && HEADER_MIN <= f.headerSize < TWO_32 && (f.bits == 24 || f.bits == 32)
    && (f.compression == BI_RGB || f.compression == BI_BITFIELDS)
    && |f.planes| == 2 && |f.rest| == Offset(f) - 20 && |f.pads| == h
    && forall r :: 0 <= r < h ==> |f.pads[r]| == Stride(w, f.bits) - w * (f.bits / 8)
  }

  function StoredBytes(p: Pixel, bits: int): (s: seq<Byte>)
    ensures |s| == if bits == 32 then 4 else 3
  {
    [p.b, p.g, p.r] + (if bits == 32 then [p.a] else [])
  }

  function Chunks(row: seq<Pixel>, bits: int): (s: seq<seq<Byte>>)
    ensures |s| == |row| && forall x :: 0 <= x < |row| ==> s[x] == StoredBytes(row[x], bits)
  {
    seq(|row|, x requires 0 <= x < |row| => StoredBytes(row[x], bits))
  }

  // Stored row r: from the bottom of the picture unless top-down.
  function RowOf(p: Picture, topDown: bool, r: int): seq<Pixel>
    requires 0 <= r < |p|
  {
    p[if topDown then r else |p| - 1 - r]
  }

  function RowStored(p: Picture, f: Layout, r: int): seq<Byte>
    requires |f.pads| == |p| && 0 <= r < |p|
  {
    Flat(Chunks(RowOf(p, f.topDown, r), f.bits)) + f.pads[r]
  }

  function Rows(p: Picture, f: Layout): (s: seq<seq<Byte>>)
    requires |f.pads| == |p|
    ensures |s| == |p| && forall r :: 0 <= r < |p| ==> s[r] == RowStored(p, f, r)
  {
    seq(|p|, r requires 0 <= r < |p| => RowStored(p, f, r))
  }

  function Head(f: Layout, w: int, h: int): seq<Byte>
    requires IsLayout(f, w, h) && 1 <= w <= MAX_DIMENSION && 1 <= h <= MAX_DIMENSION
  {
    Bytes4(f.headerSize) + Bytes4(w) + Bytes4(if f.topDown then TWO_32 - h else h) + f.planes
    + Bytes2(f.bits) + Bytes4(f.compression)
  }

  function Encode(p: Picture, f: Layout, w: int, h: int): seq<Byte>
    requires IsPicture(p, w, h) && IsLayout(f, w, h)
  {
    Head(f, w, h) + f.rest + Flat(Rows(p, f))
  }

  // What a viewer is shown: 24 bits a pixel are opaque, and so is a picture that is nowhere so.
  predicate NowhereOpaque(p: Picture) {
    forall y, x :: 0 <= y < |p| && 0 <= x < |p[y]| ==> p[y][x].a == 0
  }

  function Shown(p: Picture, bits: int): Picture {
    if bits == 32 && !NowhereOpaque(p) then p
    else seq(|p|, y requires 0 <= y < |p| => seq(|p[y]|, x requires 0 <= x < |p[y]| => p[y][x].(a := 255)))
  }

  // ---------------------------------------------------------------- the header reads back

  lemma Read2(data: seq<Byte>, i: nat, n: int)
    requires 0 <= n < 0x1_0000 && i + 2 <= |data| && data[i..i + 2] == Bytes2(n)
    ensures LE16(data, i) == n
  {
    assert data[i] == data[i..i + 2][0] && data[i + 1] == data[i..i + 2][1];
  }

  lemma Read4(data: seq<Byte>, i: nat, n: int)
    requires 0 <= n < TWO_32 && i + 4 <= |data| && data[i..i + 4] == Bytes4(n)
    ensures LE32(data, i) == n
  {
    assert data[i..i + 2] == data[i..i + 4][..2] == Bytes2(n % 0x1_0000);
    assert data[i + 2..i + 4] == data[i..i + 4][2..] == Bytes2(n / 0x1_0000);
    Read2(data, i, n % 0x1_0000);
    Read2(data, i + 2, n / 0x1_0000);
  }

  lemma HeadReads(data: seq<Byte>, f: Layout, w: int, h: int)
    requires IsLayout(f, w, h) && 1 <= w <= MAX_DIMENSION && 1 <= h <= MAX_DIMENSION
    requires |data| >= 20 && data[..20] == Head(f, w, h)
    ensures HeaderSize(data) == f.headerSize && Width(data) == w && BitCount(data) == f.bits
    ensures Height(data) == (if f.topDown then -h else h) && Compression(data) == f.compression
  {
    var a, b, c := Bytes4(f.headerSize), Bytes4(w), Bytes4(if f.topDown then TWO_32 - h else h);
    var d, e, g := f.planes, Bytes2(f.bits), Bytes4(f.compression);
    var head := data[..20];
    assert head == a + b + c + d + e + g;
    assert head[0..4] == a && head[4..8] == b && head[8..12] == c && head[14..16] == e && head[16..20] == g;
    assert data[0..4] == head[0..4] && data[4..8] == head[4..8] && data[8..12] == head[8..12];
    assert data[14..16] == head[14..16] && data[16..20] == head[16..20];
    hide Bytes2, Bytes4, LE16, LE32;
    Read4(data, 0, f.headerSize);
    Read4(data, 4, w);
    Read4(data, 8, if f.topDown then TWO_32 - h else h);
    Read2(data, 14, f.bits);
    Read4(data, 16, f.compression);
  }

  // How the bytes of an encoded picture fall into place.
  ghost predicate Placed(data: seq<Byte>, rows: seq<seq<Byte>>, offset: int, stride: int) {
    && 20 <= offset <= |data| && 0 <= stride && data[offset..] == Flat(rows) && AllOf(rows, stride)
  }

  lemma RowLength(row: seq<Pixel>, bits: int, pad: seq<Byte>, stride: int)
    requires (bits == 24 || bits == 32) && |pad| == stride - |row| * (bits / 8)
    ensures |Flat(Chunks(row, bits)) + pad| == stride
  {
    FlatLength(Chunks(row, bits), bits / 8);
  }

  lemma RowsPlaced(p: Picture, f: Layout, w: int, h: int)
    requires IsPicture(p, w, h) && IsLayout(f, w, h)
    ensures AllOf(Rows(p, f), Stride(w, f.bits)) && |Flat(Rows(p, f))| == h * Stride(w, f.bits)
  {
    var rows, stride := Rows(p, f), Stride(w, f.bits);
    StrideHolds(w, f.bits);
    forall r | 0 <= r < h ensures |rows[r]| == stride {
      RowLength(RowOf(p, f.topDown, r), f.bits, f.pads[r], stride);
      hide Flat, Chunks;
    }
    hide *;
    FlatLength(rows, stride);
  }

  lemma Joined(head: seq<Byte>, rest: seq<Byte>, body: seq<Byte>)
    ensures var data := head + rest + body;
            && |data| == |head| + |rest| + |body|
            && data[..|head|] == head && data[|head| + |rest|..] == body
  {
  }

  lemma EncodePlaced(p: Picture, f: Layout, w: int, h: int)
    requires IsPicture(p, w, h) && IsLayout(f, w, h)
    ensures var data := Encode(p, f, w, h);
            && Placed(data, Rows(p, f), Offset(f), Stride(w, f.bits))
            && |data| == Offset(f) + h * Stride(w, f.bits) && data[..20] == Head(f, w, h)
  {
    RowsPlaced(p, f, w, h);
    StrideHolds(w, f.bits);
    var head, rows := Head(f, w, h), Rows(p, f);
    assert |head| == 20;
    hide Head, Rows, Flat;
    Joined(head, f.rest, Flat(rows));
  }

  // The header says what the layout says.
  ghost predicate Declares(data: seq<Byte>, f: Layout, w: int, h: int) {
    && HeaderSize(data) == f.headerSize && Width(data) == w && BitCount(data) == f.bits
    && Height(data) == (if f.topDown then -h else h) && Compression(data) == f.compression
  }

  lemma ExtentSmall(h: int, stride: int)
    requires 1 <= h <= MAX_DIMENSION && 0 <= stride <= 0x1_0000
    ensures 0 <= h * stride <= MAX_DIMENSION * 0x1_0000 && h * stride == stride * h
  {
    MulSplit(h, MAX_DIMENSION - h, stride);
  }

  // All a decoder needs to know of an encoded picture.
  ghost predicate Carries(data: seq<Byte>, p: Picture, f: Layout, w: int, h: int) {
    && IsPicture(p, w, h) && IsLayout(f, w, h)
    && PixelOffset(data) == Offset(f) && Declares(data, f, w, h)
    && Placed(data, Rows(p, f), Offset(f), Stride(w, f.bits))
  }

  // The code sees the length modulo 2^32. An encoding that long, which takes a header of
  // gigabytes, is refused; every shorter one is accepted.
  lemma EncodedAccepted(p: Picture, f: Layout, w: int, h: int)
    requires IsPicture(p, w, h) && IsLayout(f, w, h)
    ensures var data := Encode(p, f, w, h);
            Carries(data, p, f, w, h) && (Accepts(data) <==> |data| < TWO_32)
  {
    hide HeaderSize, Width, Height, BitCount, Compression, Head, Flat, Chunks;
    var data, stride := Encode(p, f, w, h), Stride(w, f.bits);
    EncodePlaced(p, f, w, h);
    HeadReads(data, f, w, h);
    StrideHolds(w, f.bits);
    ExtentSmall(h, stride);
    hide Encode, Rows, Placed, Stride;
    LengthSeen(|data|, f.headerSize);
  }

  // Past 2^32 the length seen is less than the header's.
  lemma LengthSeen(n: nat, headerSize: int)
    requires HEADER_MIN <= headerSize < TWO_32 && headerSize <= n <= headerSize + 12 + MAX_DIMENSION * 0x1_0000
    ensures headerSize <= Uint32(n) <==> n < TWO_32
    ensures n < TWO_32 ==> Uint32(n) == n
  {
  }

  // ---------------------------------------------------------------- the pixels read back

  // Byte k of stored row r.
  lemma PlacedAt(data: seq<Byte>, rows: seq<seq<Byte>>, offset: int, stride: int, r: nat, k: nat)
    requires Placed(data, rows, offset, stride) && r < |rows| && k < stride && k < |rows[r]|
    ensures ByteAt(data, offset + r * stride + k) == rows[r][k]
  {
    FlatAt(rows, stride, r, k);
    MulSplit(r, 0, stride);
    var at := r * stride + k;
    assert data[offset + at] == data[offset..][at];
  }

  // Byte c of the pixel at column x of a row.
  lemma RowAt(row: seq<Pixel>, bits: int, pad: seq<Byte>, x: nat, c: nat, stored: seq<Byte>)
    requires (bits == 24 || bits == 32) && x < |row| && c < bits / 8 && stored == Flat(Chunks(row, bits)) + pad
    ensures 0 <= x * (bits / 8) && x * (bits / 8) + c < |stored|
    ensures stored[x * (bits / 8) + c] == StoredBytes(row[x], bits)[c]
  {
    FlatAt(Chunks(row, bits), bits / 8, x, c);
    MulSplit(x, 0, bits / 8);
  }

  lemma StoredIndex(data: seq<Byte>, p: Picture, f: Layout, w: int, h: int, r: nat, x: nat, c: nat)
    requires Carries(data, p, f, w, h) && x < w && c < f.bits / 8
    ensures f.bits == 24 || f.bits == 32
    ensures 0 <= x * (f.bits / 8) && x * (f.bits / 8) + c < Stride(w, f.bits)
    ensures Base(data, r, x) + c == Offset(f) + r * Stride(w, f.bits) + (x * (f.bits / 8) + c)
  {
    StrideHolds(w, f.bits);
    hide HeaderSize, Width, Height, BitCount, Compression, PixelOffset, Offset, Stride, Placed, Rows;
    MulSplit(x, 0, f.bits / 8);
    MulStep(x, w, f.bits / 8);
  }

  lemma CarriesRow(data: seq<Byte>, p: Picture, f: Layout, w: int, h: int, r: nat)
    requires Carries(data, p, f, w, h) && r < h
    ensures |p| == h && |f.pads| == h && |RowOf(p, f.topDown, r)| == w
    ensures |Rows(p, f)| == h && Rows(p, f)[r] == Flat(Chunks(RowOf(p, f.topDown, r), f.bits)) + f.pads[r]
    ensures Placed(data, Rows(p, f), Offset(f), Stride(w, f.bits)) && |Rows(p, f)[r]| == Stride(w, f.bits)
  {
    hide HeaderSize, Width, Height, BitCount, Compression, PixelOffset, Offset, Stride, Flat, Chunks;
  }

  // Byte c of the pixel at column x of a stored row.
  lemma StoredAt(data: seq<Byte>, p: Picture, f: Layout, w: int, h: int, r: nat, x: nat, c: nat, row: seq<Pixel>)
    requires Carries(data, p, f, w, h) && |p| == h && r < h && x < w && c < f.bits / 8
    requires row == RowOf(p, f.topDown, r) && |row| == w && |StoredBytes(row[x], f.bits)| == f.bits / 8
    ensures ByteAt(data, Base(data, r, x) + c) == StoredBytes(row[x], f.bits)[c]
  {
    hide *;
    StoredIndex(data, p, f, w, h, r, x, c);
    CarriesRow(data, p, f, w, h, r);
    var k := x * (f.bits / 8) + c;
    RowAt(row, f.bits, f.pads[r], x, c, Rows(p, f)[r]);
    PlacedAt(data, Rows(p, f), Offset(f), Stride(w, f.bits), r, k);
  }

  lemma PixelBytesRead(data: seq<Byte>, p: Picture, f: Layout, w: int, h: int, r: nat, x: nat, opaqueAlpha: bool)
    requires Carries(data, p, f, w, h) && |p| == h && r < h && x < w && |RowOf(p, f.topDown, r)| == w
    ensures var px := RowOf(p, f.topDown, r)[x];
            && StoredPixel(data, Base(data, r, x), f.bits / 8, opaqueAlpha)
               == px.(a := if f.bits == 32 && !opaqueAlpha then px.a else 255)
            && (f.bits == 32 ==> ByteAt(data, Base(data, r, x) + 3) == px.a)
  {
    var row := RowOf(p, f.topDown, r);
    assert f.bits == 24 || f.bits == 32;
    hide Carries, RowOf, Base, ByteAt;
    StoredAt(data, p, f, w, h, r, x, 0, row);
    StoredAt(data, p, f, w, h, r, x, 1, row);
    StoredAt(data, p, f, w, h, r, x, 2, row);
    if f.bits == 32 {
      StoredAt(data, p, f, w, h, r, x, 3, row);
    }
  }

  lemma PixelReads(data: seq<Byte>, p: Picture, f: Layout, w: int, h: int, opaqueAlpha: bool, y: nat, x: nat)
    requires Carries(data, p, f, w, h) && |p| == h && y < h && |p[y]| == w && x < w
    ensures PixelAt(data, opaqueAlpha, y, x) == p[y][x].(a := if f.bits == 32 && !opaqueAlpha then p[y][x].a else 255)
  {
    var r := if f.topDown then y else h - 1 - y;
    assert RowOf(p, f.topDown, r) == p[y];
    CarriesHeader(data, p, f, w, h);
    assert r == StoredRow(Height(data), y);
    hide Carries, RowOf, Base, StoredRow, Height, BitCount, StoredPixel;
    PixelBytesRead(data, p, f, w, h, r, x, opaqueAlpha);
  }

  lemma CarriesHeader(data: seq<Byte>, p: Picture, f: Layout, w: int, h: int)
    requires Carries(data, p, f, w, h)
    ensures BitCount(data) == f.bits && (f.bits == 24 || f.bits == 32) && Width(data) == w
    ensures Height(data) == (if f.topDown then -h else h) && h >= 1 && w >= 1 && IsPicture(p, w, h)
  {
    hide HeaderSize, Width, Height, BitCount, Compression, PixelOffset, Offset, Stride, Placed, Rows;
  }

  lemma AlphaReads(data: seq<Byte>, p: Picture, f: Layout, w: int, h: int)
    requires Carries(data, p, f, w, h) && f.bits == 32
    ensures AllAlphaZero(data) <==> NowhereOpaque(p)
  {
    hide Carries, Width, Height, BitCount, ByteAt, Base;
    CarriesHeader(data, p, f, w, h);
    if AllAlphaZero(data) {
      forall y, x | 0 <= y < |p| && 0 <= x < |p[y]| ensures p[y][x].a == 0 {
        PixelBytesRead(data, p, f, w, h, if f.topDown then y else h - 1 - y, x, false);
      }
    }
    if NowhereOpaque(p) {
      forall r, x | 0 <= r < h && 0 <= x < w ensures ByteAt(data, Base(data, r, x) + 3) == 0 {
        PixelBytesRead(data, p, f, w, h, r, x, false);
      }
    }
  }

  lemma ShownAt(p: Picture, bits: int, y: nat, x: nat)
    requires y < |p| && x < |p[y]|
    ensures |Shown(p, bits)| == |p| && |Shown(p, bits)[y]| == |p[y]|
    ensures Shown(p, bits)[y][x] == p[y][x].(a := if bits == 32 && !NowhereOpaque(p) then p[y][x].a else 255)
  {
    hide NowhereOpaque;
  }

  lemma RowReads(data: seq<Byte>, p: Picture, f: Layout, w: int, h: int, opaqueAlpha: bool, y: nat)
    requires Carries(data, p, f, w, h) && y < h && (f.bits == 32 ==> opaqueAlpha == NowhereOpaque(p))
    ensures |p| == |Shown(p, f.bits)| == h && w >= 0
    ensures PictureRow(data, opaqueAlpha, y, w) == Shown(p, f.bits)[y]
  {
    hide Carries, Width, Height, BitCount, NowhereOpaque, Shown, PixelAt;
    CarriesHeader(data, p, f, w, h);
    ShownAt(p, f.bits, y, 0);
    forall x | 0 <= x < w ensures PixelAt(data, opaqueAlpha, y, x) == Shown(p, f.bits)[y][x] {
      PixelReads(data, p, f, w, h, opaqueAlpha, y, x);
      ShownAt(p, f.bits, y, x);
    }
  }

  // Decoding an encoded picture gives the picture, opaque where it has to be; an encoding is
  // refused only for a length of 2^32 or more.
  lemma DecodeInvertsEncode(p: Picture, f: Layout, w: int, h: int)
    requires IsPicture(p, w, h) && IsLayout(f, w, h)
    ensures var data := Encode(p, f, w, h);
            && (Accepts(data) <==> |data| < TWO_32)
            && (Accepts(data) ==> Decoded(data) == Shown(p, f.bits))
  {
    var data := Encode(p, f, w, h);
    EncodedAccepted(p, f, w, h);
    if Accepts(data) {
      CarriedDecodes(data, p, f, w, h);
    }
    hide *;
  }

  lemma CarriedDecodes(data: seq<Byte>, p: Picture, f: Layout, w: int, h: int)
    requires Accepts(data) && Carries(data, p, f, w, h)
    ensures Decoded(data) == Shown(p, f.bits)
  {
    hide Carries, Accepts, Width, Height, BitCount, AllAlphaZero, NowhereOpaque, Shown, PictureRow, Decoded, IsLayout;
    CarriesHeader(data, p, f, w, h);
    if f.bits == 32 {
      AlphaReads(data, p, f, w, h);
    }
    DecodedIs(data);
    forall y | 0 <= y < h ensures |Shown(p, f.bits)| == h && PictureRow(data, AllAlphaZero(data), y, w) == Shown(p, f.bits)[y] {
      RowReads(data, p, f, w, h, AllAlphaZero(data), y);
    }
    RowReads(data, p, f, w, h, AllAlphaZero(data), 0);
    assert Decoded(data) == Shown(p, f.bits);
  }
}
