/** The clipboard bitmap decoder of internal/clipboard/dib.go, with Go's fixed-width arithmetic
    written out, proved against the layout read in unbounded integers. */
module Dib {
  import opened Common

  newtype Byte = b: int | 0 <= b < 256

  const TWO_31: int := 0x8000_0000
  const TWO_32: int := 0x1_0000_0000
  const TWO_64: int := 0x1_0000_0000_0000_0000
  const HEADER_MIN := 40
  const MAX_DIMENSION := 16384
  const BI_RGB := 0
  const BI_BITFIELDS := 3

  // ---------------------------------------------------------------- fixed-width arithmetic

  function Uint32(n: int): (r: int) ensures 0 <= r < TWO_32 { n % TWO_32 }

  function Uint64(n: int): (r: int) ensures 0 <= r < TWO_64 { n % TWO_64 }

  function Int32(u: int): int { if u < TWO_31 then u else u - TWO_32 }

  // -h on an int32: the smallest value is its own negation.
  function Negate32(h: int): int { if h == -TWO_31 then h else -h }

  // ---------------------------------------------------------------- the layout, unbounded

  // A byte of the input, read as 0 past its end.
  function At(data: seq<Byte>, i: int): int {
    if 0 <= i < |data| then data[i] as int else 0
  }

  function LE16(data: seq<Byte>, i: int): int { At(data, i) + 0x100 * At(data, i + 1) }

  function LE32(data: seq<Byte>, i: int): int {
    LE16(data, i) + 0x1_0000 * LE16(data, i + 2)
  }

  function HeaderSize(data: seq<Byte>): int { LE32(data, 0) }
  function Width(data: seq<Byte>): int { Int32(LE32(data, 4)) }
  function Height(data: seq<Byte>): int { Int32(LE32(data, 8)) }
  function BitCount(data: seq<Byte>): int { LE16(data, 14) }
  function Compression(data: seq<Byte>): int { LE32(data, 16) }

  function Abs(n: int): int { if n < 0 then -n else n }

  // Where the pixel rows start: past the header, and past the masks that follow a minimal one.
  function PixelOffset(data: seq<Byte>): int {
    HeaderSize(data) + (if Compression(data) == BI_BITFIELDS && HeaderSize(data) == HEADER_MIN then 12 else 0)
  }

  // Rows are padded to four bytes.
  function Stride(width: int, bits: int): int { (width * bits + 31) / 32 * 4 }

  // What is accepted, in unbounded integers; the first two lines see the length as the code
  // does, modulo 2^32.
  predicate Accepts(data: seq<Byte>) {
    && |data| >= HEADER_MIN && HEADER_MIN <= HeaderSize(data) <= Uint32(|data|)
    && (PixelOffset(data) > HeaderSize(data) ==> PixelOffset(data) <= Uint32(|data|))
    && 1 <= Width(data) <= MAX_DIMENSION && 1 <= Abs(Height(data)) <= MAX_DIMENSION
    && (Compression(data) == BI_RGB || Compression(data) == BI_BITFIELDS)
    && (BitCount(data) == 24 || BitCount(data) == 32)
    && PixelOffset(data) + Stride(Width(data), BitCount(data)) * Abs(Height(data)) <= |data|
  }

  datatype Pixel = Pixel(r: Byte, g: Byte, b: Byte, a: Byte)

  function ByteAt(data: seq<Byte>, i: int): Byte { At(data, i) as Byte }

  function StoredPixel(data: seq<Byte>, base: int, bytes: int, opaqueAlpha: bool): Pixel {
    Pixel(ByteAt(data, base + 2), ByteAt(data, base + 1), ByteAt(data, base),
          if bytes == 4 && !opaqueAlpha then ByteAt(data, base + 3) else 255)
  }

  // The place of column x in stored row `row`.
  function Base(data: seq<Byte>, row: int, x: int): int {
    PixelOffset(data) + row * Stride(Width(data), BitCount(data)) + x * (BitCount(data) / 8)
  }

  predicate AllAlphaZero(data: seq<Byte>) {
    forall row, x :: 0 <= row < Abs(Height(data)) && 0 <= x < Width(data) ==> ByteAt(data, Base(data, row, x) + 3) == 0
  }

  // Rows are stored bottom-up unless the height is negative.
  function StoredRow(height: int, y: int): int { if height < 0 then y else height - 1 - y }

  function PixelAt(data: seq<Byte>, opaqueAlpha: bool, y: int, x: int): Pixel {
    StoredPixel(data, Base(data, StoredRow(Height(data), y), x), BitCount(data) / 8, opaqueAlpha)
  }

  // The picture, row by row from the top.
  type Picture = seq<seq<Pixel>>

  function Decoded(data: seq<Byte>): Picture
    requires Accepts(data)
  {
    PictureTop(data, AllAlphaZero(data), Abs(Height(data)), Width(data))
  }

  function PictureTop(data: seq<Byte>, opaqueAlpha: bool, h: nat, w: nat): (p: Picture)
    ensures |p| == h && forall y :: 0 <= y < h ==> p[y] == PictureRow(data, opaqueAlpha, y, w)
  {
    seq(h, y => PictureRow(data, opaqueAlpha, y, w))
  }

  function PictureRow(data: seq<Byte>, opaqueAlpha: bool, y: int, n: nat): (row: seq<Pixel>)
    ensures |row| == n && forall x :: 0 <= x < n ==> row[x] == PixelAt(data, opaqueAlpha, y, x)
  {
    seq(n, x => PixelAt(data, opaqueAlpha, y, x))
  }

  // ---------------------------------------------------------------- flattening

  function Flat<T>(chunks: seq<seq<T>>): seq<T> {
    if chunks == [] then [] else Flat(chunks[..|chunks| - 1]) + chunks[|chunks| - 1]
  }

  function PixelBytes(p: Pixel): seq<Byte> { [p.r, p.g, p.b, p.a] }

  function RowBytes(row: seq<Pixel>): seq<Byte> {
    Flat(seq(|row|, x requires 0 <= x < |row| => PixelBytes(row[x])))
  }

  // The bytes of an NRGBA image: rows from the top, four bytes a pixel.
  function PictureBytes(p: Picture): seq<Byte> {
    Flat(seq(|p|, y requires 0 <= y < |p| => RowBytes(p[y])))
  }

  lemma FlatAppend<T>(chunks: seq<seq<T>>, last: seq<T>)
    ensures Flat(chunks + [last]) == Flat(chunks) + last
  {
    assert (chunks + [last])[..|chunks|] == chunks;
  }

  ghost predicate AllOf<T>(chunks: seq<seq<T>>, size: nat) {
    forall i :: 0 <= i < |chunks| ==> |chunks[i]| == size
  }

  lemma {:induction false} FlatLength<T>(chunks: seq<seq<T>>, size: nat)
    requires AllOf(chunks, size)
    ensures |Flat(chunks)| == |chunks| * size
    decreases |chunks|
  {
    if chunks != [] {
      FlatLength(chunks[..|chunks| - 1], size);
      assert (|chunks| - 1) * size + size == |chunks| * size;
    }
  }

  // Entry k of chunk i, when all chunks have one size.
  lemma {:induction false} FlatAt<T>(chunks: seq<seq<T>>, size: nat, i: nat, k: nat)
    requires AllOf(chunks, size) && i < |chunks| && k < size
    ensures 0 <= i * size + k < |Flat(chunks)| && Flat(chunks)[i * size + k] == chunks[i][k]
    decreases |chunks|
  {
    var n := |chunks| - 1;
    var init := chunks[..n];
    FlatLength(init, size);
    FlatLength(chunks, size);
    if i < n {
      FlatAt(init, size, i, k);
    } else {
      assert i * size + k == |Flat(init)| + k;
    }
  }

  // ---------------------------------------------------------------- the decoder

  datatype DibError =
    | TooSmall | HeaderTruncated | InvalidHeader | InvalidDimensions | UnsupportedCompression
    | UnsupportedBitCount | MaskTruncated | ExceedsCap | PixelsTruncated

  datatype Decoding = Decoding(width: int, height: int, pix: seq<Byte>)

  lemma MulSplit(a: nat, b: nat, n: nat)
    ensures (a + b) * n == a * n + b * n && a * n >= 0 && b * n >= 0
  {
  }

  lemma MulStep(y: nat, h: nat, n: nat)
    requires y < h
    ensures (y + 1) * n == y * n + n && 0 <= y * n && (y + 1) * n <= h * n
  {
    MulSplit(y, 1, n);
    MulSplit(y + 1, h - y - 1, n);
  }

  lemma StrideHolds(width: int, bits: int)
    requires 1 <= width <= MAX_DIMENSION && (bits == 24 || bits == 32)
    ensures width * (bits / 8) <= Stride(width, bits) <= 0x1_0000 && Stride(width, bits) >= 4
  {
  }

  lemma Wraps(n: int, q: int, r: int)
    requires n == q * TWO_64 + r && 0 <= r < TWO_64
    ensures Uint64(n) == r
  {
  }

  // The extent check in wrapping arithmetic. A height of -2^31 negates to itself, passes the
  // dimension cap, and is caught here: its product wraps to just under 2^64.
  lemma ExtentCheck(offset: int, stride: int, absHeight: int, len: int)
    requires 0 <= offset < TWO_32 + 12 && 4 <= stride <= 0x1_0000 && 0 <= len < TWO_31 * TWO_31
    requires absHeight == -TWO_31 || 1 <= absHeight <= MAX_DIMENSION
    ensures var expected := Uint64(Uint64(offset) + Uint64(stride * Uint64(absHeight)));
            && (absHeight > 0 ==> expected == offset + stride * absHeight)
            && (absHeight < 0 ==> expected > len)
  {
    Wraps(offset, 0, offset);
    if absHeight > 0 {
      Wraps(absHeight, 0, absHeight);
      var product := stride * absHeight;
      assert 0 <= product <= 0x1_0000 * MAX_DIMENSION by {
        assert stride * absHeight <= 0x1_0000 * absHeight;
      }
      Wraps(product, 0, product);
      Wraps(offset + product, 0, offset + product);
    } else {
      Wraps(absHeight, -1, TWO_64 - TWO_31);
      var product := stride * (TWO_64 - TWO_31);
      assert product == (stride - 1) * TWO_64 + (TWO_64 - stride * TWO_31);
      Wraps(product, stride - 1, TWO_64 - stride * TWO_31);
      Wraps(offset + TWO_64 - stride * TWO_31, 0, offset + TWO_64 - stride * TWO_31);
    }
  }

  lemma StrideNeverWraps(width: int, bits: int)
    requires 1 <= width <= MAX_DIMENSION && (bits == 24 || bits == 32)
    ensures Uint64((Uint64(width) * Uint64(bits) + 31) / 32 * 4) == Stride(width, bits)
  {
    Wraps(width, 0, width);
    Wraps(bits, 0, bits);
    StrideHolds(width, bits);
    Wraps(Stride(width, bits), 0, Stride(width, bits));
  }

  lemma FieldRanges(data: seq<Byte>)
    ensures 0 <= LE32(data, 0) < TWO_32 && 0 <= LE16(data, 14) && 0 <= LE32(data, 16)
    ensures -TWO_31 <= Width(data) < TWO_31 && -TWO_31 <= Height(data) < TWO_31
  {
  }

  method DecodeDIB(data: seq<Byte>) returns (r: Result<Decoding, DibError>)
    requires |data| < TWO_31 * TWO_31  // len(data) is an int
    ensures r.Success? <==> Accepts(data)
    ensures r.Success? ==> r.value.width == Width(data) && r.value.height == Abs(Height(data))
                           && r.value.pix == PictureBytes(Decoded(data))
    ensures r == Failure(TooSmall) <==> |data| < HEADER_MIN
  {
    if |data| < HEADER_MIN {
      return Failure(TooSmall);
    }
    FieldRanges(data);
    hide LE16, LE32, Int32, Uint32, Uint64, Stride, PictureBytes, Decoded, AllAlphaZero;
    var headerSize := LE32(data, 0);
    if Uint32(|data|) < headerSize {
      return Failure(HeaderTruncated);
    }
    if headerSize < HEADER_MIN {
      return Failure(InvalidHeader);
    }
    var width, height := Int32(LE32(data, 4)), Int32(LE32(data, 8));
    var bitCount, compression := LE16(data, 14), LE32(data, 16);
    if width <= 0 || height == 0 {
      return Failure(InvalidDimensions);
    }
    if compression != BI_RGB && compression != BI_BITFIELDS {
      return Failure(UnsupportedCompression);
    }
    if bitCount != 24 && bitCount != 32 {
      return Failure(UnsupportedBitCount);
    }
    var pixelOffset := headerSize;
    if compression == BI_BITFIELDS && headerSize == HEADER_MIN {
      pixelOffset := pixelOffset + 12;
      if Uint32(|data|) < pixelOffset {
        return Failure(MaskTruncated);
      }
    }
    var absHeight, topDown := height, false;
    if height < 0 {
      absHeight, topDown := Negate32(height), true;
    }
    if width > MAX_DIMENSION || absHeight > MAX_DIMENSION {
      return Failure(ExceedsCap);
    }
    var strideU := Uint64((Uint64(width) * Uint64(bitCount) + 31) / 32 * 4);
    var expectedU := Uint64(Uint64(pixelOffset) + Uint64(strideU * Uint64(absHeight)));
    StrideHolds(width, bitCount);
    StrideNeverWraps(width, bitCount);
    ExtentCheck(pixelOffset, strideU, absHeight, |data|);
    if expectedU > |data| {
      return Failure(PixelsTruncated);
    }
    var stride := strideU;
    var alphaIsValid := false;
    if bitCount == 32 {
      alphaIsValid := ScanAlpha(data, pixelOffset, stride, width, absHeight);
    }
    var pix := Copy(data, pixelOffset, stride, width, absHeight, topDown, bitCount == 32, alphaIsValid);
    AlphaOnlyIn32(data, bitCount != 32 || !alphaIsValid, absHeight, width);
    DecodedIs(data);
    return Success(Decoding(width, absHeight, pix));
  }

  ghost predicate Laid(data: seq<Byte>, pixelOffset: int, stride: int, w: int, h: int) {
    && Accepts(data) && pixelOffset == PixelOffset(data) && stride == Stride(Width(data), BitCount(data))
    && w == Width(data) && h == Abs(Height(data))
  }

  lemma DecodedIs(data: seq<Byte>)
    requires Accepts(data)
    ensures Decoded(data) == PictureTop(data, AllAlphaZero(data), Abs(Height(data)), Width(data))
  {
  }

  // First pass: is any alpha byte set?
  method ScanAlpha(data: seq<Byte>, pixelOffset: int, stride: int, w: int, h: int) returns (valid: bool)
    requires Laid(data, pixelOffset, stride, w, h) && BitCount(data) == 32
    ensures valid <==> !AllAlphaZero(data)
  {
    valid := false;
    StrideHolds(w, 32);
    var y := 0;
    while y < h && !valid
      invariant 0 <= y <= h
      invariant valid ==> !AllAlphaZero(data)
      invariant !valid ==> forall row, x :: 0 <= row < y && 0 <= x < w ==> ByteAt(data, Base(data, row, x) + 3) == 0
      decreases h - y, !valid
    {
      var row := pixelOffset + y * stride;
      RowFits(data, y);
      var x := 0;
      while x < w
        invariant 0 <= x <= w && !valid
        invariant forall k :: 0 <= k < x ==> ByteAt(data, Base(data, y, k) + 3) == 0
      {
        BaseIs(data, y, x, 4);
        if data[row + x * 4 + 3] != 0 {
          assert ByteAt(data, Base(data, y, x) + 3) != 0;
          valid := true;
          break;
        }
        x := x + 1;
      }
      y := y + 1;
    }
  }

  lemma RowGrows(data: seq<Byte>, opaqueAlpha: bool, y: int, n: nat)
    ensures RowBytes(PictureRow(data, opaqueAlpha, y, n + 1)) ==
            RowBytes(PictureRow(data, opaqueAlpha, y, n)) + PixelBytes(PixelAt(data, opaqueAlpha, y, n))
  {
    var more, less := PictureRow(data, opaqueAlpha, y, n + 1), PictureRow(data, opaqueAlpha, y, n);
    hide PixelAt, PictureRow;
    var chunks := seq(n, x requires 0 <= x < n => PixelBytes(less[x]));
    assert chunks == seq(|less|, x requires 0 <= x < |less| => PixelBytes(less[x]));
    assert seq(|more|, x requires 0 <= x < |more| => PixelBytes(more[x])) ==
           chunks + [PixelBytes(PixelAt(data, opaqueAlpha, y, n))];
    FlatAppend(chunks, PixelBytes(PixelAt(data, opaqueAlpha, y, n)));
  }

  lemma PictureGrows(data: seq<Byte>, opaqueAlpha: bool, h: nat, w: nat)
    ensures PictureBytes(PictureTop(data, opaqueAlpha, h + 1, w)) ==
            PictureBytes(PictureTop(data, opaqueAlpha, h, w)) + RowBytes(PictureRow(data, opaqueAlpha, h, w))
  {
    var more, less := PictureTop(data, opaqueAlpha, h + 1, w), PictureTop(data, opaqueAlpha, h, w);
    var last := RowBytes(PictureRow(data, opaqueAlpha, h, w));
    hide RowBytes, PictureTop, PictureRow;
    var chunks := seq(h, y requires 0 <= y < h => RowBytes(less[y]));
    assert chunks == seq(|less|, y requires 0 <= y < |less| => RowBytes(less[y]));
    assert seq(|more|, y requires 0 <= y < |more| => RowBytes(more[y])) == chunks + [last];
    FlatAppend(chunks, last);
  }

  // For 24 bits a pixel the alpha flag plays no part.
  lemma AlphaOnlyIn32(data: seq<Byte>, opaqueAlpha: bool, h: nat, w: nat)
    requires BitCount(data) == 24 || opaqueAlpha == AllAlphaZero(data)
    ensures PictureTop(data, opaqueAlpha, h, w) == PictureTop(data, AllAlphaZero(data), h, w)
  {
    var other := AllAlphaZero(data);
    hide AllAlphaZero;
    forall y | 0 <= y < h ensures PictureRow(data, opaqueAlpha, y, w) == PictureRow(data, other, y, w) {
      forall x | 0 <= x < w ensures PixelAt(data, opaqueAlpha, y, x) == PixelAt(data, other, y, x) {
        if BitCount(data) == 24 {
          assert BitCount(data) / 8 == 3;
        }
      }
    }
  }

  // `done` is what the image holds before the pixel.
  method StorePixel(img: array<Byte>, at: nat, p: Pixel, ghost done: seq<Byte>)
    requires at + 4 <= img.Length && img[..at] == done
    modifies img
    ensures img[..at + 4] == done + PixelBytes(p)
  {
    img[at], img[at + 1], img[at + 2], img[at + 3] := p.r, p.g, p.b, p.a;
  }

  // A stored row lies within the input.
  lemma RowFits(data: seq<Byte>, row: int)
    requires Accepts(data) && 0 <= row < Abs(Height(data))
    ensures var at := Base(data, row, 0);
            && 0 <= at
            && (BitCount(data) == 32 ==> at + Width(data) * 4 <= |data|)
            && (BitCount(data) == 24 ==> at + Width(data) * 3 <= |data|)
  {
    StrideHolds(Width(data), BitCount(data));
    var o, h, stride, at := PixelOffset(data), Abs(Height(data)), Stride(Width(data), BitCount(data)), Base(data, row, 0);
    assert o >= 0 && o + stride * h <= |data| && at == o + row * stride;
    assert BitCount(data) == 32 ==> Width(data) * 4 <= stride;
    assert BitCount(data) == 24 ==> Width(data) * 3 <= stride;
    hide *;
    MulStep(row, h, stride);
  }

  lemma BaseIs(data: seq<Byte>, row: int, x: int, bytes: int)
    requires BitCount(data) == bytes * 8 && (bytes == 3 || bytes == 4)
    ensures Base(data, row, x) == Base(data, row, 0) + x * bytes
  {
  }

  lemma RowGrowsAfter(before: seq<Byte>, data: seq<Byte>, opaqueAlpha: bool, y: int, n: nat)
    ensures before + RowBytes(PictureRow(data, opaqueAlpha, y, n)) + PixelBytes(PixelAt(data, opaqueAlpha, y, n)) ==
            before + RowBytes(PictureRow(data, opaqueAlpha, y, n + 1))
  {
    RowGrows(data, opaqueAlpha, y, n);
  }

  // The pixel of 32 bits, or of 24, at one place of the input.
  method LoadPixel(data: seq<Byte>, at: nat, is32: bool, alphaIsValid: bool) returns (p: Pixel)
    requires at + (if is32 then 4 else 3) <= |data|
    ensures p == StoredPixel(data, at, if is32 then 4 else 3, !is32 || !alphaIsValid)
  {
    if is32 {
      var b, g, r, a := data[at], data[at + 1], data[at + 2], data[at + 3];
      if !alphaIsValid {
        a := 255;
      }
      p := Pixel(r, g, b, a);
    } else {
      var b, g, r := data[at], data[at + 1], data[at + 2];
      p := Pixel(r, g, b, 255);
    }
  }

  lemma PixelIs(data: seq<Byte>, opaqueAlpha: bool, y: int, row: int, x: int, bytes: int)
    requires row == StoredRow(Height(data), y) && BitCount(data) == bytes * 8 && (bytes == 3 || bytes == 4)
    ensures PixelAt(data, opaqueAlpha, y, x) == StoredPixel(data, Base(data, row, 0) + x * bytes, bytes, opaqueAlpha)
  {
    BaseIs(data, row, x, bytes);
    hide Base, StoredRow, Height, At;
  }

  // One row, written from offset `d` of the image.
  method CopyRow(img: array<Byte>, d: nat, data: seq<Byte>, src: nat, srcRow: int, w: nat, y: int,
                 is32: bool, alphaIsValid: bool)
    requires srcRow == StoredRow(Height(data), y) && src == Base(data, srcRow, 0)
    requires BitCount(data) == if is32 then 32 else 24
    requires src + w * (if is32 then 4 else 3) <= |data| && d + w * 4 <= img.Length
    modifies img
    ensures img[..d + w * 4] == old(img[..d]) + RowBytes(PictureRow(data, !is32 || !alphaIsValid, y, w))
  {
    var opaqueAlpha := !is32 || !alphaIsValid;
    ghost var before := img[..d];
    ghost var done := before + RowBytes(PictureRow(data, opaqueAlpha, y, 0));
    assert done == before;
    hide *;
    var x, from, to := 0, src, d;
    while x < w
      invariant 0 <= x <= w && to == d + x * 4 && from == src + (if is32 then x * 4 else x * 3)
      invariant img[..to] == done && done == before + RowBytes(PictureRow(data, opaqueAlpha, y, x))
    {
      if is32 {
        PixelIs(data, opaqueAlpha, y, srcRow, x, 4);
      } else {
        PixelIs(data, opaqueAlpha, y, srcRow, x, 3);
      }
      var p := LoadPixel(data, from, is32, alphaIsValid);
      StorePixel(img, to, p, done);
      RowGrowsAfter(before, data, opaqueAlpha, y, x);
      done := done + PixelBytes(p);
      x, from, to := x + 1, from + (if is32 then 4 else 3), to + 4;
    }
  }

  // Second pass: the rows, flipped unless the bitmap is top-down, from BGR(A) to RGBA.
  method Copy(data: seq<Byte>, pixelOffset: int, stride: int, w: int, h: int, topDown: bool,
              is32: bool, alphaIsValid: bool)
    returns (pix: seq<Byte>)
    requires Laid(data, pixelOffset, stride, w, h) && topDown == (Height(data) < 0) && is32 == (BitCount(data) == 32)
    ensures pix == PictureBytes(PictureTop(data, !is32 || !alphaIsValid, h, w))
  {
    assert h >= 1 && w >= 1 && BitCount(data) == if is32 then 32 else 24;
    hide Laid, Accepts, BitCount, Width, Height, Stride, PictureTop, PictureBytes, PictureRow, RowBytes, PixelOffset, Base, StoredRow;
    var opaqueAlpha := !is32 || !alphaIsValid;
    var n := w * 4;
    assert 0 <= h * n;
    var img := new Byte[h * n];
    NoRows(data, opaqueAlpha, w);
    var y, d := 0, 0;
    while y < h
      invariant 0 <= y <= h && d == y * n && d <= img.Length
      invariant img[..d] == PictureBytes(PictureTop(data, opaqueAlpha, y, w))
    {
      MulStep(y, h, n);
      var srcRow := if topDown then y else h - 1 - y;
      SourceRow(data, pixelOffset, stride, w, h, y, srcRow);
      CopyRow(img, d, data, pixelOffset + srcRow * stride, srcRow, w, y, is32, alphaIsValid);
      PictureGrows(data, opaqueAlpha, y, w);
      y, d := y + 1, d + n;
    }
    pix := img[..];
    assert img[..d] == pix;
  }

  // Where the row for output line y is stored, and that it is all there.
  lemma SourceRow(data: seq<Byte>, pixelOffset: int, stride: int, w: int, h: int, y: int, srcRow: int)
    requires Laid(data, pixelOffset, stride, w, h) && 0 <= y < h
    requires srcRow == if Height(data) < 0 then y else h - 1 - y
    ensures srcRow == StoredRow(Height(data), y) && pixelOffset + srcRow * stride == Base(data, srcRow, 0)
    ensures 0 <= Base(data, srcRow, 0)
    ensures Base(data, srcRow, 0) + w * (if BitCount(data) == 32 then 4 else 3) <= |data|
  {
    RowFits(data, srcRow);
  }

  lemma NoRows(data: seq<Byte>, opaqueAlpha: bool, w: nat)
    ensures PictureBytes(PictureTop(data, opaqueAlpha, 0, w)) == []
  {
  }
}
