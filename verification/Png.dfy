/**
 The screenshot encoder: a binary PPM framebuffer to a PNG file.  CRC-32 and
 zlib are parameters; only that decompression undoes compression is used.
 */
module Png {
  import opened Outcomes
  import opened Octets

  const WORD := 0x1_0000_0000

  /** `struct.pack(">I", n)`. */
  function Pack(n: nat): (r: Bytes)
    requires n < WORD
    ensures |r| == 4
  {
    [n / 0x100_0000, n / 0x1_0000 % 0x100, n / 0x100 % 0x100, n % 0x100]
  }

  function Unpack(b: Bytes): (n: nat)
    requires |b| == 4
    ensures n < WORD
  {
    b[0] as int * 0x100_0000 + b[1] as int * 0x1_0000 + b[2] as int * 0x100 + b[3] as int
  }

  // ---- the PPM header ---------------------------------------------------------------

  predicate IsSpace(b: Byte) { 9 <= b <= 13 || b == 32 }

  predicate IsDigit(b: Byte) { 48 <= b <= 57 }

  function SpaceRun(s: Bytes): (n: nat)
    ensures n <= |s|
  {
    if |s| > 0 && IsSpace(s[0]) then 1 + SpaceRun(s[1..]) else 0
  }

  function DigitRun(s: Bytes): (n: nat)
    ensures n <= |s| && forall i :: 0 <= i < n ==> IsDigit(s[i])
  {
    if |s| > 0 && IsDigit(s[0]) then 1 + DigitRun(s[1..]) else 0
  }

  function DecimalOf(digits: Bytes): nat
    requires forall i :: 0 <= i < |digits| ==> IsDigit(digits[i])
  {
    if |digits| == 0 then 0
    else
      assert IsDigit(digits[|digits| - 1]);
      DecimalOf(digits[..|digits| - 1]) * 10 + (digits[|digits| - 1] - 48)
  }

  /** `\s+(\d+)` and the text behind it. */
  function SpacedNumber(s: Bytes): Option<(nat, Bytes)> {
    var k := SpaceRun(s);
    var t := s[k..];
    var d := DigitRun(t);
    if k == 0 || d == 0 then None else Some((DecimalOf(t[..d]), t[d..]))
  }

  datatype Ppm = Ppm(width: nat, height: nat, maximum: nat, pixels: Bytes)

  /** `P6\s+(\d+)\s+(\d+)\s+(\d+)\s`, then the pixel bytes. */
  function ParsePpm(data: Bytes): Option<Ppm> {
    if |data| < 2 || data[0] != 80 || data[1] != 54 then None
    else
      match SpacedNumber(data[2..])
      case None => None
      case Some((width, t1)) =>
        match SpacedNumber(t1)
        case None => None
        case Some((height, t2)) =>
          match SpacedNumber(t2)
          case None => None
          case Some((maximum, t3)) =>
            if |t3| == 0 || !IsSpace(t3[0]) then None else Some(Ppm(width, height, maximum, t3[1..]))
  }

  // ---- the encoder --------------------------------------------------------------------

  /** Every row of the image behind a filter-type byte 0. */
  function Scanlines(pixels: Bytes, stride: nat, height: nat): (r: Bytes)
    requires |pixels| == height * stride
    ensures |r| == height * (stride + 1)
    decreases height
  {
    if height == 0 then []
    else
      RowFits(height, stride);
      [0] + pixels[..stride] + Scanlines(pixels[stride..], stride, height - 1)
  }

  lemma RowFits(height: nat, stride: nat)
    requires height > 0
    ensures stride <= height * stride
    ensures height * stride - stride == (height - 1) * stride
    ensures height * (stride + 1) == 1 + stride + (height - 1) * (stride + 1)
  {
  }

  type Crc = Bytes -> nat

  const SIGNATURE: Bytes := [0x89, 80, 78, 71, 13, 10, 26, 10]
  const IHDR: Bytes := [73, 72, 68, 82]
  const IDAT: Bytes := [73, 68, 65, 84]
  const IEND: Bytes := [73, 69, 78, 68]

  datatype Chunk = Chunk(tag: Bytes, payload: Bytes)

  predicate Fits(c: Chunk) {
    |c.tag| == 4 && |c.payload| < WORD
  }

  function ChunkBytes(crc: Crc, c: Chunk): Bytes
    requires Fits(c)
  {
    Pack(|c.payload|) + c.tag + c.payload + Pack(crc(c.tag + c.payload) % WORD)
  }

  function Header(width: nat, height: nat): (r: Bytes)
    requires width < WORD && height < WORD
    ensures |r| == 13
  {
    Pack(width) + Pack(height) + [8, 2, 0, 0, 0]
  }

  function Encoded(crc: Crc, compress: Bytes -> Bytes, width: nat, height: nat, raw: Bytes): Result<Bytes> {
    if width >= WORD || height >= WORD then Err("struct.error")
    else if |compress(raw)| >= WORD then Err("struct.error")
    else
      Ok(SIGNATURE + ChunkBytes(crc, Chunk(IHDR, Header(width, height))) + ChunkBytes(crc, Chunk(IDAT, compress(raw)))
         + ChunkBytes(crc, Chunk(IEND, [])))
  }

  /** `ppm_to_png`, with the file contents as values. */
  function PpmToPng(crc: Crc, compress: Bytes -> Bytes, data: Bytes): Result<Bytes> {
    match ParsePpm(data)
    case None => Err("not a binary PPM framebuffer")
    case Some(ppm) =>
      if ppm.maximum != 255 then Err("unsupported PPM maximum value")
      else if |ppm.pixels| != ppm.width * ppm.height * 3 then Err("truncated framebuffer")
      else
        StrideFits(ppm.width, ppm.height);
        Encoded(crc, compress, ppm.width, ppm.height, Scanlines(ppm.pixels, ppm.width * 3, ppm.height))
  }

  lemma StrideFits(width: nat, height: nat)
    ensures width * height * 3 == height * (width * 3)
  {
  }

  /** Growing the raw buffer row by row, as the encoder does. */
  method BuildRaw(pixels: Bytes, width: nat, height: nat) returns (raw: Bytes)
    requires |pixels| == height * (width * 3)
    ensures raw == Scanlines(pixels, width * 3, height)
  {
    raw := [];
    var stride := width * 3;
    var row := 0;
    assert pixels[0..] == pixels;
    while row < height
      invariant row <= height && row * stride <= |pixels|
      invariant |pixels[row * stride..]| == (height - row) * stride
      invariant Scanlines(pixels, stride, height) == raw + Scanlines(pixels[row * stride..], stride, height - row)
    {
      RowFits(height - row, stride);
      NextRow(row, stride, height);
      ghost var rest := pixels[row * stride..];
      var line := pixels[row * stride..(row + 1) * stride];
      assert line == rest[..stride] && pixels[(row + 1) * stride..] == rest[stride..];
      raw := raw + [0];
      raw := raw + line;
      row := row + 1;
    }
    assert raw + [] == raw;
  }

  lemma NextRow(row: nat, stride: nat, height: nat)
    requires row < height
    ensures (row + 1) * stride == row * stride + stride
    ensures (row + 1) * stride <= height * stride
    ensures (height - row) * stride == stride + (height - row - 1) * stride
    ensures height * stride - (row + 1) * stride == (height - row - 1) * stride
  {
    var a, b := row + 1, height - row - 1;
    assert height == a + b;
    assert (a + b) * stride == a * stride + b * stride;
  }

  // ---- a decoder for what PNG says the file means -------------------------------------------

  /** The chunks of a PNG stream: length, type, data and a checksum that must match. */
  function ParseChunks(crc: Crc, s: Bytes): (r: Option<seq<Chunk>>)
    decreases |s|
  {
    if |s| == 0 then Some([])
    else if |s| < 12 then None
    else
      var n := Unpack(s[..4]);
      if |s| < n + 12 then None
      else
        var c := Chunk(s[4..8], s[8..8 + n]);
        if Unpack(s[8 + n..12 + n]) != crc(c.tag + c.payload) % WORD then None
        else
          match ParseChunks(crc, s[12 + n..])
          case None => None
          case Some(rest) => Some([c] + rest)
  }

  /** Removes the filter bytes; only filter type 0 is understood. */
  function Unfiltered(raw: Bytes, stride: nat, height: nat): Option<Bytes>
    decreases height
  {
    if height == 0 then (if |raw| == 0 then Some([]) else None)
    else if |raw| < stride + 1 || raw[0] != 0 then None
    else
      match Unfiltered(raw[stride + 1..], stride, height - 1)
      case None => None
      case Some(rest) => Some(raw[1..stride + 1] + rest)
  }

  datatype Image = Image(width: nat, height: nat, pixels: Bytes)

  /** An 8-bit RGB, non-interlaced image in one IDAT chunk. */
  function Decode(crc: Crc, decompress: Bytes -> Bytes, file: Bytes): Option<Image> {
    if |file| < 8 || file[..8] != SIGNATURE then None
    else
      match ParseChunks(crc, file[8..])
      case None => None
      case Some(chunks) =>
        if |chunks| != 3 || chunks[0].tag != IHDR || chunks[1].tag != IDAT || chunks[2] != Chunk(IEND, []) then None
        else if |chunks[0].payload| != 13 || chunks[0].payload[8..] != [8, 2, 0, 0, 0] then None
        else
          var width, height := Unpack(chunks[0].payload[..4]), Unpack(chunks[0].payload[4..8]);
          match Unfiltered(decompress(chunks[1].payload), width * 3, height)
          case None => None
          case Some(pixels) => Some(Image(width, height, pixels))
  }

  // ---- round trip ------------------------------------------------------------------------------

  lemma PackRoundTrip(n: nat)
    requires n < WORD
    ensures Unpack(Pack(n)) == n
  {
    assert n / 0x100 / 0x100 == n / 0x1_0000 && n / 0x1_0000 / 0x100 == n / 0x100_0000;
  }

  /** The first chunk of a stream that starts with one. */
  lemma ChunkInFront(crc: Crc, c: Chunk, rest: Bytes)
    requires Fits(c)
    ensures var s, n := ChunkBytes(crc, c) + rest, |c.payload|;
      && |s| >= n + 12 && Unpack(s[..4]) == n
      && s[4..8] == c.tag && s[8..8 + n] == c.payload
      && Unpack(s[8 + n..12 + n]) == crc(c.tag + c.payload) % WORD
      && s[12 + n..] == rest
  {
    var s, n := ChunkBytes(crc, c) + rest, |c.payload|;
    var sum := Pack(crc(c.tag + c.payload) % WORD);
    PackRoundTrip(n);
    PackRoundTrip(crc(c.tag + c.payload) % WORD);
    assert s[..4] == Pack(n);
    assert s[8 + n..12 + n] == sum;
  }

  function StreamOf(crc: Crc, chunks: seq<Chunk>): Bytes
    requires forall i :: 0 <= i < |chunks| ==> Fits(chunks[i])
  {
    if |chunks| == 0 then [] else ChunkBytes(crc, chunks[0]) + StreamOf(crc, chunks[1..])
  }

  /** A chunk stream parses to its chunks and to nothing else. */
  lemma {:induction false} ChunksRoundTrip(crc: Crc, chunks: seq<Chunk>)
    requires forall i :: 0 <= i < |chunks| ==> Fits(chunks[i])
    ensures ParseChunks(crc, StreamOf(crc, chunks)) == Some(chunks)
  {
    if |chunks| > 0 {
      var rest := StreamOf(crc, chunks[1..]);
      ChunkInFront(crc, chunks[0], rest);
      ChunksRoundTrip(crc, chunks[1..]);
      assert chunks == [chunks[0]] + chunks[1..];
    }
  }

  lemma {:induction false} ScanlinesRoundTrip(pixels: Bytes, stride: nat, height: nat)
    requires |pixels| == height * stride
    ensures Unfiltered(Scanlines(pixels, stride, height), stride, height) == Some(pixels)
    decreases height
  {
    if height > 0 {
      RowFits(height, stride);
      var raw, rest := Scanlines(pixels, stride, height), Scanlines(pixels[stride..], stride, height - 1);
      assert raw[stride + 1..] == rest && raw[1..stride + 1] == pixels[..stride];
      ScanlinesRoundTrip(pixels[stride..], stride, height - 1);
      assert pixels == pixels[..stride] + pixels[stride..];
    }
  }

  lemma ThreeChunks(crc: Crc, a: Chunk, b: Chunk, c: Chunk)
    requires Fits(a) && Fits(b) && Fits(c)
    ensures ParseChunks(crc, ChunkBytes(crc, a) + ChunkBytes(crc, b) + ChunkBytes(crc, c)) == Some([a, b, c])
  {
    ChunksRoundTrip(crc, [a, b, c]);
    assert [a, b, c][1..] == [b, c] && [b, c][1..] == [c] && [c][1..] == [];
    assert StreamOf(crc, [c]) == ChunkBytes(crc, c) + [];
    assert StreamOf(crc, [a, b, c]) == ChunkBytes(crc, a) + (ChunkBytes(crc, b) + ChunkBytes(crc, c));
    assert ChunkBytes(crc, a) + (ChunkBytes(crc, b) + ChunkBytes(crc, c))
      == ChunkBytes(crc, a) + ChunkBytes(crc, b) + ChunkBytes(crc, c);
  }

  lemma HeaderRoundTrip(width: nat, height: nat)
    requires width < WORD && height < WORD
    ensures Unpack(Header(width, height)[..4]) == width
    ensures Unpack(Header(width, height)[4..8]) == height
    ensures Header(width, height)[8..] == [8, 2, 0, 0, 0]
  {
    PackRoundTrip(width);
    PackRoundTrip(height);
    assert Header(width, height)[..4] == Pack(width) && Header(width, height)[4..8] == Pack(height);
  }

  /** A file of these three chunks decodes to what its header and its data say. */
  lemma FileRoundTrip(crc: Crc, decompress: Bytes -> Bytes, width: nat, height: nat, data: Bytes, pixels: Bytes)
    requires width < WORD && height < WORD && |data| < WORD
    requires Unfiltered(decompress(data), width * 3, height) == Some(pixels)
    ensures Decode(crc, decompress, SIGNATURE + ChunkBytes(crc, Chunk(IHDR, Header(width, height)))
      + ChunkBytes(crc, Chunk(IDAT, data))
                                    + ChunkBytes(crc, Chunk(IEND, []))) == Some(Image(width, height, pixels))
  {
    var a, b, c := Chunk(IHDR, Header(width, height)), Chunk(IDAT, data), Chunk(IEND, []);
    var stream := ChunkBytes(crc, a) + ChunkBytes(crc, b) + ChunkBytes(crc, c);
    var file := SIGNATURE + ChunkBytes(crc, a) + ChunkBytes(crc, b) + ChunkBytes(crc, c);
    assert file == SIGNATURE + stream;
    assert file[..8] == SIGNATURE && file[8..] == stream;
    ThreeChunks(crc, a, b, c);
    HeaderRoundTrip(width, height);
  }

  lemma RawLength(pixels: Bytes, width: nat, height: nat)
    requires |pixels| == height * (width * 3)
    ensures |Scanlines(pixels, width * 3, height)| == height * (3 * width + 1)
  {
    assert width * 3 + 1 == 3 * width + 1;
  }

  lemma EncodedDecodes(crc: Crc, compress: Bytes -> Bytes, decompress: Bytes -> Bytes, width: nat, height: nat,
          pixels: Bytes, raw: Bytes)
    requires Unfiltered(raw, width * 3, height) == Some(pixels) && decompress(compress(raw)) == raw
    ensures var r := Encoded(crc, compress, width, height, raw);
      r.Ok? ==> Decode(crc, decompress, r.value) == Some(Image(width, height, pixels))
  {
    if width < WORD && height < WORD && |compress(raw)| < WORD {
      FileRoundTrip(crc, decompress, width, height, compress(raw), pixels);
    }
  }

  /** Encoding succeeds exactly within PNG's length fields, and decoding gives the image back. */
  lemma EncodedRoundTrip(crc: Crc, compress: Bytes -> Bytes, decompress: Bytes -> Bytes, width: nat, height: nat,
          pixels: Bytes)
    requires |pixels| == height * (width * 3)
    requires decompress(compress(Scanlines(pixels, width * 3, height))) == Scanlines(pixels, width * 3, height)
    ensures var raw := Scanlines(pixels, width * 3, height); var r := Encoded(crc, compress, width, height, raw);
      && (r.Ok? <==> width < WORD && height < WORD && |compress(raw)| < WORD)
      && |raw| == height * (3 * width + 1)
      && (r.Ok? ==> Decode(crc, decompress, r.value) == Some(Image(width, height, pixels)))
  {
    ScanlinesRoundTrip(pixels, width * 3, height);
    RawLength(pixels, width, height);
    EncodedDecodes(crc, compress, decompress, width, height, pixels, Scanlines(pixels, width * 3, height));
  }

  /** Every framebuffer the encoder accepts comes back whole: its size and every pixel. */
  lemma PngRoundTrip(crc: Crc, compress: Bytes -> Bytes, decompress: Bytes -> Bytes, data: Bytes)
    requires forall b: Bytes :: decompress(compress(b)) == b
    requires PpmToPng(crc, compress, data).Ok?
    ensures ParsePpm(data).Some?
    ensures var ppm := ParsePpm(data).value;
      Decode(crc, decompress, PpmToPng(crc, compress, data).value) == Some(Image(ppm.width, ppm.height, ppm.pixels))
  {
    var ppm := ParsePpm(data).value;
    StrideFits(ppm.width, ppm.height);
    EncodedRoundTrip(crc, compress, decompress, ppm.width, ppm.height, ppm.pixels);
  }

  // ---- framebuffers as they are written ------------------------------------------------------

  /** `n` in decimal digits. */
  function Digits(n: nat): (r: Bytes)
    ensures |r| > 0 && forall i :: 0 <= i < |r| ==> 48 <= r[i] <= 57
  {
    if n < 10 then [48 + n] else Digits(n / 10) + [48 + n % 10]
  }

  predicate Spaces(s: Bytes) {
    forall i :: 0 <= i < |s| ==> s[i] in {9, 10, 11, 12, 13, 32}
  }

  lemma {:induction false} DecimalOfDigits(n: nat)
    ensures (forall i :: 0 <= i < |Digits(n)| ==> IsDigit(Digits(n)[i])) && DecimalOf(Digits(n)) == n
  {
    var ds := Digits(n);
    if n < 10 {
      assert ds[..0] == [] && DecimalOf(ds[..0]) == 0;
    } else {
      DecimalOfDigits(n / 10);
      assert ds[..|ds| - 1] == Digits(n / 10);
    }
  }

  lemma {:induction false} SpaceRunIs(spaces: Bytes, rest: Bytes)
    requires Spaces(spaces) && |rest| > 0 && !IsSpace(rest[0])
    ensures SpaceRun(spaces + rest) == |spaces|
  {
    if spaces == [] {
      assert spaces + rest == rest;
    } else {
      assert (spaces + rest)[1..] == spaces[1..] + rest;
      SpaceRunIs(spaces[1..], rest);
    }
  }

  lemma {:induction false} DigitRunIs(digits: Bytes, rest: Bytes)
    requires (forall i :: 0 <= i < |digits| ==> 48 <= digits[i] <= 57) && |rest| > 0 && !IsDigit(rest[0])
    ensures DigitRun(digits + rest) == |digits|
  {
    if digits == [] {
      assert digits + rest == rest;
    } else {
      assert (digits + rest)[1..] == digits[1..] + rest;
      DigitRunIs(digits[1..], rest);
    }
  }

  lemma NumberRead(spaces: Bytes, n: nat, rest: Bytes)
    requires Spaces(spaces) && spaces != [] && |rest| > 0 && !IsDigit(rest[0])
    ensures SpacedNumber(spaces + Digits(n) + rest) == Some((n, rest))
  {
    var s, behind := spaces + Digits(n) + rest, Digits(n) + rest;
    assert s == spaces + behind;
    SpaceRunIs(spaces, behind);
    assert s[|spaces|..] == behind;
    DigitRunIs(Digits(n), rest);
    assert behind[..|Digits(n)|] == Digits(n) && behind[|Digits(n)|..] == rest;
    DecimalOfDigits(n);
  }

  /** A framebuffer file: `P6`, three numbers behind white space, one white space, the pixels. */
  function Framebuffer(a: Bytes, width: nat, b: Bytes, height: nat, c: Bytes, maximum: nat, d: Byte,
          pixels: Bytes): Bytes
  {
    [80, 54] + (a + Digits(width) + (b + Digits(height) + (c + Digits(maximum) + ([d] + pixels))))
  }

  lemma NumbersRead(s: Bytes, width: nat, t1: Bytes, height: nat, t2: Bytes, maximum: nat, d: Byte, pixels: Bytes)
    requires SpacedNumber(s) == Some((width, t1)) && SpacedNumber(t1) == Some((height, t2))
    requires SpacedNumber(t2) == Some((maximum, [d] + pixels)) && Spaces([d])
    ensures ParsePpm([80, 54] + s) == Some(Ppm(width, height, maximum, pixels))
  {
    assert ([80, 54] + s)[2..] == s && ([d] + pixels)[1..] == pixels && [d][0] == d;
  }

  /** Such a file is read as what was written, whatever the white space and the pixels are. */
  lemma FramebufferRead(a: Bytes, width: nat, b: Bytes, height: nat, c: Bytes, maximum: nat, d: Byte, pixels: Bytes)
    requires Spaces(a) && Spaces(b) && Spaces(c) && Spaces([d]) && a != [] && b != [] && c != []
    ensures ParsePpm(Framebuffer(a, width, b, height, c, maximum, d, pixels))
         == Some(Ppm(width, height, maximum, pixels))
  {
    var t3 := [d] + pixels;
    var t2 := c + Digits(maximum) + t3;
    var t1 := b + Digits(height) + t2;
    assert [d][0] == t3[0] == d;
    NumberRead(a, width, t1);
    NumberRead(b, height, t2);
    NumberRead(c, maximum, t3);
    NumbersRead(a + Digits(width) + t1, width, t1, height, t2, maximum, d, pixels);
  }

  /**
   A written framebuffer is encoded exactly when its maximum is 255, it has all
   its pixels, and the length fields hold; the file then decodes to the image.
   */
  lemma FramebufferRoundTrip(crc: Crc, compress: Bytes -> Bytes, decompress: Bytes -> Bytes,
          a: Bytes, width: nat, b: Bytes, height: nat, c: Bytes, maximum: nat, d: Byte, pixels: Bytes)
    requires Spaces(a) && Spaces(b) && Spaces(c) && Spaces([d]) && a != [] && b != [] && c != []
    requires forall raw: Bytes :: decompress(compress(raw)) == raw
    ensures var r := PpmToPng(crc, compress, Framebuffer(a, width, b, height, c, maximum, d, pixels));
      && (r.Ok? <==> && maximum == 255 && |pixels| == width * height * 3 && width < WORD && height < WORD
                     && (StrideFits(width, height); |compress(Scanlines(pixels, width * 3, height))| < WORD))
      && (r.Ok? ==> Decode(crc, decompress, r.value) == Some(Image(width, height, pixels)))
  {
    FramebufferRead(a, width, b, height, c, maximum, d, pixels);
    if maximum == 255 && |pixels| == width * height * 3 {
      StrideFits(width, height);
      EncodedRoundTrip(crc, compress, decompress, width, height, pixels);
    }
  }

  /** `s` in ASCII. */
  function Ascii(s: string): (r: Bytes)
    requires forall i :: 0 <= i < |s| ==> s[i] as int < 128
    ensures |r| == |s| && forall i :: 0 <= i < |s| ==> r[i] == s[i] as int
  {
    if s == "" then [] else [s[0] as int] + Ascii(s[1..])
  }

  lemma AsciiIs(s: string, b: Bytes)
    requires forall i :: 0 <= i < |s| ==> s[i] as int < 128
    requires |b| == |s| && forall i :: 0 <= i < |s| ==> b[i] == s[i] as int
    ensures Ascii(s) == b
  {
  }

  /** The names that every file of the encoder starts with, and that its chunks have. */
  lemma NamesInTheFile()
    ensures SIGNATURE == [0x89] + Ascii("PNG") + [13, 10, 26, 10]
    ensures IHDR == Ascii("IHDR") && IDAT == Ascii("IDAT") && IEND == Ascii("IEND")
  {
    AsciiIs("PNG", [80, 78, 71]);
    AsciiIs("IHDR", IHDR);
    AsciiIs("IDAT", IDAT);
    AsciiIs("IEND", IEND);
  }

  // ---- what RFC 2083 allows ---------------------------------------------------------------------

  /** Chunk lengths, widths and heights stop at 2^31 - 1. */
  const LIMIT := 0x7FFF_FFFF

  /** Section 3.2: no chunk is too long.  Section 4.1.1: the first one is a header with dimensions that are allowed. */
  predicate LegalSizes(chunks: seq<Chunk>) {
    && (forall i :: 0 <= i < |chunks| ==> |chunks[i].payload| <= LIMIT)
    && |chunks| > 0 && chunks[0].tag == IHDR && |chunks[0].payload| == 13
    && 0 < Unpack(chunks[0].payload[..4]) <= LIMIT && 0 < Unpack(chunks[0].payload[4..8]) <= LIMIT
  }

  predicate IsLegal(crc: Crc, file: Bytes) {
    |file| >= 8 && file[..8] == SIGNATURE && ParseChunks(crc, file[8..]).Some?
        && LegalSizes(ParseChunks(crc, file[8..]).value)
  }

  /** The encoder stops at 2^32 - 1 and takes empty images, so not every file it writes is a legal PNG. */
  lemma LegalIff(crc: Crc, compress: Bytes -> Bytes, width: nat, height: nat, raw: Bytes)
    requires Encoded(crc, compress, width, height, raw).Ok?
    ensures IsLegal(crc, Encoded(crc, compress, width, height, raw).value)
       <==> 0 < width <= LIMIT && 0 < height <= LIMIT && |compress(raw)| <= LIMIT
  {
    var a, b, c := Chunk(IHDR, Header(width, height)), Chunk(IDAT, compress(raw)), Chunk(IEND, []);
    var stream := ChunkBytes(crc, a) + ChunkBytes(crc, b) + ChunkBytes(crc, c);
    var file := Encoded(crc, compress, width, height, raw).value;
    assert file == SIGNATURE + stream;
    assert file[..8] == SIGNATURE && file[8..] == stream;
    ThreeChunks(crc, a, b, c);
    HeaderRoundTrip(width, height);
    var chunks := [a, b, c];
    assert chunks[0] == a && chunks[1] == b && chunks[2] == c;
  }
}
