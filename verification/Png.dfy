/** Writing a solid-colour PNG: the raster buffer, chunk framing and the file layout of RFC 2083. */
module Png {
  import opened Common
  import opened Crc32
  import CrcCheck

  // ---- Chunks (section 3.2 of RFC 2083) ----

  /** Four bytes, most significant first. */
  function WriteUInt32BE(v: nat): (r: Bytes)
    requires v < TWO32
    ensures |r| == 4
  {
    [v / 0x100_0000, v / 0x1_0000 % 0x100, v / 0x100 % 0x100, v % 0x100]
  }

  function ReadUInt32BE(b: Bytes): nat
    requires |b| == 4
  {
    var b0: nat, b1: nat, b2: nat, b3: nat := b[0], b[1], b[2], b[3];
    b0 * 0x100_0000 + b1 * 0x1_0000 + b2 * 0x100 + b3
  }

  lemma UInt32RoundTrip(v: nat)
    requires v < TWO32
    ensures ReadUInt32BE(WriteUInt32BE(v)) == v
  {
    var high := v / 0x1_0000;
    assert v / 0x100_0000 == high / 0x100 && v / 0x100 % 0x100 == v % 0x1_0000 / 0x100;
    assert v == high * 0x1_0000 + v % 0x1_0000;
  }

  lemma UInt32PrintRoundTrip(b: Bytes)
    requires |b| == 4
    ensures ReadUInt32BE(b) < TWO32 && WriteUInt32BE(ReadUInt32BE(b)) == b
  {
    var v := ReadUInt32BE(b);
    var b0: nat, b1: nat, b2: nat, b3: nat := b[0], b[1], b[2], b[3];
    var high := b0 * 0x100 + b1;
    assert v == high * 0x1_0000 + (b2 * 0x100 + b3);
    assert v / 0x1_0000 == high && v / 0x100 == high * 0x100 + b2 && v / 0x100_0000 == b0;
  }

  lemma CrcIsWord(b: Bytes)
    ensures Crc(b) < TWO32
  {
    FoldKeepsWord(ALL_ONES, b);
    XorOfWords(Fold(ALL_ONES, b), ALL_ONES);
  }

  function Chunk(kind: Bytes, data: Bytes): Bytes
    requires |data| < TWO32
  {
    CrcIsWord(kind + data);
    WriteUInt32BE(|data|) + kind + data + WriteUInt32BE(Crc(kind + data))
  }

  datatype ParsedChunk = ParsedChunk(kind: Bytes, data: Bytes, rest: Bytes)

  /** Reads one chunk back: length, four type bytes, data, and a checksum that must match. */
  function ParseChunk(b: Bytes): Option<ParsedChunk> {
    if |b| < 12 || |b| < 12 + ReadUInt32BE(b[..4]) then None
    else
      var length := ReadUInt32BE(b[..4]);
      var body, crc, rest := b[4..8 + length], b[8 + length..12 + length], b[12 + length..];
      if ReadUInt32BE(crc) != Crc(body) then None else Some(ParsedChunk(body[..4], body[4..], rest))
  }

  lemma CutFour(length: Bytes, body: Bytes, crc: Bytes, rest: Bytes)
    requires |length| == 4 && |crc| == 4
    ensures var b, n := length + body + crc + rest, |body|;
            && |b| == 8 + n + |rest| && b[..4] == length && b[4..4 + n] == body
            && b[4 + n..8 + n] == crc && b[8 + n..] == rest
  {
  }

  lemma ChunkOfPieces(kind: Bytes, data: Bytes, length: Bytes, crc: Bytes)
    requires |data| < TWO32 && Crc(kind + data) < TWO32
    requires WriteUInt32BE(|data|) == length && WriteUInt32BE(Crc(kind + data)) == crc
    ensures Chunk(kind, data) == length + (kind + data) + crc
  {
  }

  lemma FourPieces(b: Bytes, n: nat)
    requires 12 + n <= |b|
    ensures b == b[..4] + b[4..8 + n] + b[8 + n..12 + n] + b[12 + n..]
  {
  }

  /** A chunk written in front of anything is read back whole. */
  lemma ChunkRoundTrip(kind: Bytes, data: Bytes, rest: Bytes)
    requires |kind| == 4 && |data| < TWO32
    ensures ParseChunk(Chunk(kind, data) + rest) == Some(ParsedChunk(kind, data, rest))
  {
    var body := kind + data;
    CrcIsWord(body);
    UInt32RoundTrip(|data|);
    UInt32RoundTrip(Crc(body));
    var length, crc := WriteUInt32BE(|data|), WriteUInt32BE(Crc(body));
    assert Chunk(kind, data) == length + body + crc;
    CutFour(length, body, crc, rest);
    assert body[..4] == kind && body[4..] == data;
  }

  /** Whatever is read as a chunk is exactly that chunk written out. */
  lemma ChunkPrintRoundTrip(b: Bytes)
    requires ParseChunk(b).Some?
    ensures var p := ParseChunk(b).value;
            |p.kind| == 4 && |p.data| < TWO32 && b == Chunk(p.kind, p.data) + p.rest
  {
    var p, length := ParseChunk(b).value, ReadUInt32BE(b[..4]);
    ParsedPieces(b);
    UInt32PrintRoundTrip(b[..4]);
    UInt32PrintRoundTrip(b[8 + length..12 + length]);
    ChunkOfPieces(p.kind, p.data, b[..4], b[8 + length..12 + length]);
    FourPieces(b, length);
  }

  lemma ParsedPieces(b: Bytes)
    requires ParseChunk(b).Some?
    ensures var p, length := ParseChunk(b).value, ReadUInt32BE(b[..4]);
            && 12 + length <= |b| && |p.kind| == 4 && |p.data| == length && p.rest == b[12 + length..]
            && p.kind + p.data == b[4..8 + length] && Crc(p.kind + p.data) == ReadUInt32BE(b[8 + length..12 + length])
  {
  }

  /** Damage to type and data confined to four consecutive bytes is never accepted. */
  lemma DamagedChunkIsRejected(kind: Bytes, data: Bytes, damaged: Bytes, at: nat, rest: Bytes)
    requires |kind| == 4 && |data| < TWO32
    requires |damaged| == 4 + |data| && damaged != kind + data
    requires forall i :: 0 <= i < |damaged| && !(at <= i < at + 4) ==> damaged[i] == (kind + data)[i]
    ensures Crc(kind + data) < TWO32
    ensures ParseChunk(WriteUInt32BE(|data|) + damaged + WriteUInt32BE(Crc(kind + data)) + rest) == None
  {
    CrcIsWord(kind + data);
    var length, crc := WriteUInt32BE(|data|), WriteUInt32BE(Crc(kind + data));
    UInt32RoundTrip(|data|);
    UInt32RoundTrip(Crc(kind + data));
    CutFour(length, damaged, crc, rest);
    NearbyErrorsAreDetected(damaged, kind + data, at);
  }

  // ---- The raster ----

  function Pixels(r: Byte, g: Byte, b: Byte, width: nat): (row: Bytes)
    ensures |row| == 3 * width
  {
    if width == 0 then [] else Pixels(r, g, b, width - 1) + [r, g, b]
  }

  /** One scan line: filter byte 0, then the pixels. */
  function ScanLine(r: Byte, g: Byte, b: Byte, width: nat): (row: Bytes)
    ensures |row| == 1 + 3 * width
  {
    [0] + Pixels(r, g, b, width)
  }

  function Raster(row: Bytes, height: nat): (raw: Bytes)
    ensures |raw| == height * |row|
  {
    if height == 0 then []
    else
      assert (height - 1) * |row| + |row| == height * |row|;
      Raster(row, height - 1) + row
  }

  lemma {:induction false} PixelAt(r: Byte, g: Byte, b: Byte, width: nat, x: nat)
    requires x < width
    ensures Pixels(r, g, b, width)[3 * x..3 * x + 3] == [r, g, b]
  {
    if x == width - 1 {
    } else {
      PixelAt(r, g, b, width - 1, x);
      assert Pixels(r, g, b, width)[3 * x..3 * x + 3] == Pixels(r, g, b, width - 1)[3 * x..3 * x + 3];
    }
  }

  lemma {:induction false} RowAt(row: Bytes, height: nat, y: nat)
    requires y < height
    ensures 0 <= y * |row| <= y * |row| + |row| <= height * |row|
    ensures Raster(row, height)[y * |row|..y * |row| + |row|] == row
  {
    assert (height - 1) * |row| + |row| == height * |row|;
    if y < height - 1 {
      RowAt(row, height - 1, y);
      var front := Raster(row, height - 1);
      assert Raster(row, height)[y * |row|..y * |row| + |row|] == front[y * |row|..y * |row| + |row|];
    }
  }

  lemma InsideSlice(raw: Bytes, start: nat, row: Bytes, from: nat, to: nat)
    requires start + |row| <= |raw| && raw[start..start + |row|] == row
    requires from < to <= |row|
    ensures raw[start + from..start + to] == row[from..to] && raw[start + from] == row[from]
  {
    forall k | 0 <= k < |row|
      ensures raw[start + k] == row[k]
    {
      assert raw[start..start + |row|][k] == raw[start + k];
    }
    var slice := raw[start + from..start + to];
    assert forall k :: 0 <= k < to - from ==> slice[k] == raw[start + (from + k)] == row[from..to][k];
  }

  lemma PixelInScanLine(r: Byte, g: Byte, b: Byte, width: nat, x: nat)
    requires x < width
    ensures ScanLine(r, g, b, width)[1 + 3 * x..4 + 3 * x] == [r, g, b]
  {
    var pixels := Pixels(r, g, b, width);
    PixelAt(r, g, b, width, x);
    assert ([0] + pixels)[1 + 3 * x..4 + 3 * x] == pixels[3 * x..3 * x + 3];
  }

  lemma ColourInRow(raw: Bytes, start: nat, row: Bytes, r: Byte, g: Byte, b: Byte, width: nat, x: nat)
    requires x < width && row == ScanLine(r, g, b, width)
    requires start + |row| <= |raw| && raw[start..start + |row|] == row
    ensures raw[start] == 0 && raw[start + 1 + 3 * x..start + 4 + 3 * x] == [r, g, b]
  {
    PixelInScanLine(r, g, b, width, x);
    InsideSlice(raw, start, row, 0, 1);
    InsideSlice(raw, start, row, 1 + 3 * x, 4 + 3 * x);
  }

  /** At every (x, y) the raw buffer holds the colour, after a zero filter byte at each row start. */
  lemma RasterIsSolid(r: Byte, g: Byte, b: Byte, width: nat, height: nat, x: nat, y: nat)
    requires x < width && y < height
    ensures var row, raw := ScanLine(r, g, b, width), Raster(ScanLine(r, g, b, width), height);
            var start := y * |row|;
            && 0 <= start && start + |row| <= |raw|
            && raw[start] == 0 && raw[start + 1 + 3 * x..start + 4 + 3 * x] == [r, g, b]
  {
    var row := ScanLine(r, g, b, width);
    RowAt(row, height, y);
    ColourInRow(Raster(row, height), y * |row|, row, r, g, b, width, x);
  }

  /** The row buffer, filled pixel by pixel. */
  method FillRow(r: Byte, g: Byte, b: Byte, width: nat) returns (row: array<Byte>)
    ensures fresh(row) && row[..] == ScanLine(r, g, b, width)
  {
    row := new Byte[1 + width * 3](_ => 0);
    for x := 0 to width
      invariant row[..1 + 3 * x] == ScanLine(r, g, b, x)
    {
      var o := 1 + x * 3;
      row[o] := r;
      row[o + 1] := g;
      row[o + 2] := b;
      assert row[..1 + 3 * (x + 1)] == row[..1 + 3 * x] + [r, g, b];
      assert ScanLine(r, g, b, x + 1) == ScanLine(r, g, b, x) + [r, g, b];
    }
    assert row[..] == row[..1 + 3 * width];
  }

  /** `source.copy(target, start)`. */
  method CopyInto(source: array<Byte>, target: array<Byte>, start: nat)
    requires source != target && start + source.Length <= target.Length
    modifies target
    ensures target[..start] == old(target[..start])
    ensures target[start..start + source.Length] == source[..]
  {
    for k := 0 to source.Length
      invariant target[..start] == old(target[..start])
      invariant target[start..start + k] == source[..k]
    {
      target[start + k] := source[k];
      assert target[start..start + k + 1] == target[start..start + k] + [source[k]];
    }
    assert source[..source.Length] == source[..];
  }

  /** The raw buffer: one copy of the row per line. */
  method FillRaster(r: Byte, g: Byte, b: Byte, width: nat, height: nat) returns (raw: array<Byte>)
    ensures raw[..] == Raster(ScanLine(r, g, b, width), height)
  {
    var row := FillRow(r, g, b, width);
    ghost var line := row[..];
    raw := new Byte[row.Length * height](_ => 0);
    for y := 0 to height
      invariant 0 <= y * row.Length <= raw.Length && row[..] == line
      invariant raw[..y * row.Length] == Raster(line, y)
    {
      MoreRows(row.Length, y, height);
      var start := y * row.Length;
      CopyInto(row, raw, start);
      assert raw[..start + row.Length] == raw[..start] + raw[start..start + row.Length];
    }
    assert raw[..] == raw[..height * row.Length];
  }

  lemma MoreRows(length: nat, y: nat, height: nat)
    requires y < height
    ensures y * length + length == (y + 1) * length <= length * height
  {
  }

  // ---- The file ----

  const SIGNATURE: Bytes := [137, 80, 78, 71, 13, 10, 26, 10]
  const IHDR: Bytes := [73, 72, 68, 82]
  const IDAT: Bytes := [73, 68, 65, 84]
  const IEND: Bytes := [73, 69, 78, 68]

  function Header(width: nat, height: nat): (r: Bytes)
    requires width < TWO32 && height < TWO32
    ensures |r| == 13
  {
    WriteUInt32BE(width) + WriteUInt32BE(height) + [8, 2, 0, 0, 0]
  }

  /** `deflated` stands for the compressed raster. */
  function PngFile(width: nat, height: nat, deflated: Bytes): Bytes
    requires width < TWO32 && height < TWO32 && |deflated| < TWO32
  {
    SIGNATURE + Chunk(IHDR, Header(width, height)) + Chunk(IDAT, deflated) + Chunk(IEND, [])
  }

  function ParseChunks(b: Bytes): Option<seq<(Bytes, Bytes)>>
    decreases |b|
  {
    if b == [] then Some([])
    else
      match ParseChunk(b)
      case None => None
      case Some(p) =>
        match ParseChunks(p.rest)
        case None => None
        case Some(more) => Some([(p.kind, p.data)] + more)
  }

  function ParsePng(b: Bytes): Option<seq<(Bytes, Bytes)>> {
    if |b| < 8 || b[..8] != SIGNATURE then None else ParseChunks(b[8..])
  }

  /** The file reads back as its three chunks, and the header carries the dimensions, 8-bit RGB. */
  lemma PngReadsBack(width: nat, height: nat, deflated: Bytes)
    requires width < TWO32 && height < TWO32 && |deflated| < TWO32
    ensures ParsePng(PngFile(width, height, deflated)) ==
            Some([([73, 72, 68, 82], Header(width, height)), ([73, 68, 65, 84], deflated), ([73, 69, 78, 68], [])])
    ensures var h := Header(width, height);
            ReadUInt32BE(h[..4]) == width && ReadUInt32BE(h[4..8]) == height && h[8..] == [8, 2, 0, 0, 0]
  {
    var chunks := [(IHDR, Header(width, height)), (IDAT, deflated), (IEND, [])];
    FileIsWritten(Header(width, height), deflated);
    var file := PngFile(width, height, deflated);
    assert file[..8] == SIGNATURE && file[8..] == Written(chunks);
    WrittenReadsBack(chunks);
    HeaderReadsBack(width, height);
  }

  ghost predicate Writable(chunks: seq<(Bytes, Bytes)>) {
    forall i :: 0 <= i < |chunks| ==> |chunks[i].0| == 4 && |chunks[i].1| < TWO32
  }

  /** Chunks one after the other. */
  function Written(chunks: seq<(Bytes, Bytes)>): Bytes
    requires Writable(chunks)
  {
    if chunks == [] then [] else Chunk(chunks[0].0, chunks[0].1) + Written(chunks[1..])
  }

  /** Any list of chunks, written out, is read back. */
  lemma {:induction false} WrittenReadsBack(chunks: seq<(Bytes, Bytes)>)
    requires Writable(chunks)
    ensures ParseChunks(Written(chunks)) == Some(chunks)
  {
    if chunks != [] {
      WrittenReadsBack(chunks[1..]);
      ChunkRoundTrip(chunks[0].0, chunks[0].1, Written(chunks[1..]));
      assert [chunks[0]] + chunks[1..] == chunks;
    }
  }

  lemma WrittenOfCons(chunk: (Bytes, Bytes), rest: seq<(Bytes, Bytes)>)
    requires |chunk.0| == 4 && |chunk.1| < TWO32 && Writable(rest)
    ensures Writable([chunk] + rest) && Written([chunk] + rest) == Chunk(chunk.0, chunk.1) + Written(rest)
  {
  }

  lemma FileIsWritten(header: Bytes, deflated: Bytes)
    requires |header| < TWO32 && |deflated| < TWO32
    ensures Writable([(IHDR, header), (IDAT, deflated), (IEND, [])])
    ensures SIGNATURE + Chunk(IHDR, header) + Chunk(IDAT, deflated) + Chunk(IEND, []) ==
            SIGNATURE + Written([(IHDR, header), (IDAT, deflated), (IEND, [])])
  {
    var first, second, third := Chunk(IHDR, header), Chunk(IDAT, deflated), Chunk(IEND, []);
    var one: seq<(Bytes, Bytes)> := [(IEND, [])];
    var two := [(IDAT, deflated), (IEND, [])];
    WrittenOfCons((IEND, []), []);
    assert one + [] == one;
    WrittenOfCons((IDAT, deflated), one);
    assert [(IDAT, deflated)] + one == two;
    WrittenOfCons((IHDR, header), two);
    assert [(IHDR, header)] + two == [(IHDR, header), (IDAT, deflated), (IEND, [])];
    FourInARow(SIGNATURE, first, second, third);
    assert third + [] == third;
  }

  lemma FourInARow(a: Bytes, b: Bytes, c: Bytes, d: Bytes)
    ensures a + b + c + d == a + (b + (c + d))
  {
  }

  lemma HeaderReadsBack(width: nat, height: nat)
    requires width < TWO32 && height < TWO32
    ensures var h := Header(width, height);
            ReadUInt32BE(h[..4]) == width && ReadUInt32BE(h[4..8]) == height && h[8..] == [8, 2, 0, 0, 0]
  {
    var header := Header(width, height);
    UInt32RoundTrip(width);
    UInt32RoundTrip(height);
    assert header[..4] == WriteUInt32BE(width) && header[4..8] == WriteUInt32BE(height);
  }

  lemma EmptyChunk(kind: Bytes, crc: nat, zero: Bytes, tail: Bytes)
    requires crc == Crc(kind) && crc < TWO32 && WriteUInt32BE(0) == zero && WriteUInt32BE(crc) == tail
    ensures Chunk(kind, []) == zero + kind + tail
  {
    var none: Bytes := [];
    assert kind + none == kind;
    ChunkOfPieces(kind, none, zero, tail);
  }

  lemma IendBytes()
    ensures WriteUInt32BE(0xae42_6082) == [0xae, 0x42, 0x60, 0x82] && WriteUInt32BE(0) == [0, 0, 0, 0]
    ensures WriteUInt32BE(13) == [0, 0, 0, 13]
  {
  }

  lemma ChunkStarts(kind: Bytes, data: Bytes, length: Bytes)
    requires |kind| == 4 && |data| < TWO32 && WriteUInt32BE(|data|) == length
    ensures |Chunk(kind, data)| == 12 + |data| && Chunk(kind, data)[..8] == length + kind
  {
  }

  lemma Framed(head: Bytes, first: Bytes, middle: Bytes, last: Bytes)
    requires |head| == 8 && |first| >= 8 && |last| == 12
    ensures var file := head + first + middle + last;
            |file| >= 28 && file[..16] == head + first[..8] && file[|file| - 12..] == last
  {
  }

  /** Byte for byte, every file begins and ends as sections 3.1, 4.1.1 and 4.1.4 of RFC 2083 say. */
  lemma FileIsFramed(width: nat, height: nat, deflated: Bytes)
    requires width < TWO32 && height < TWO32 && |deflated| < TWO32
    ensures var file := PngFile(width, height, deflated);
            && |file| >= 28
            && file[..16] == [137, 80, 78, 71, 13, 10, 26, 10] + [0, 0, 0, 13, 73, 72, 68, 82]
            && file[|file| - 12..] == [0, 0, 0, 0, 73, 69, 78, 68] + [0xae, 0x42, 0x60, 0x82]
  {
    var header := Header(width, height);
    CrcCheck.ChecksumOfIend();
    IendBytes();
    EmptyChunk(IEND, 0xae42_6082, [0, 0, 0, 0], [0xae, 0x42, 0x60, 0x82]);
    ChunkStarts(IHDR, header, [0, 0, 0, 13]);
    Framed(SIGNATURE, Chunk(IHDR, header), Chunk(IDAT, deflated), Chunk(IEND, []));
  }

  /** What `solidColorPng` returns, for a compression that is not looked into. */
  method SolidColorPng(r: Byte, g: Byte, b: Byte, width: nat, height: nat, deflate: Bytes -> Bytes) returns (file: Bytes)
    requires width < TWO32 && height < TWO32
    requires |deflate(Raster(ScanLine(r, g, b, width), height))| < TWO32
    ensures file == PngFile(width, height, deflate(Raster(ScanLine(r, g, b, width), height)))
  {
    var raw := FillRaster(r, g, b, width, height);
    file := PngFile(width, height, deflate(raw[..]));
  }

  /** A decoder that undoes the compression finds the colour at every (x, y) of the file. */
  lemma FileShowsTheColour(r: Byte, g: Byte, b: Byte, width: nat, height: nat, deflate: Bytes -> Bytes,
                           inflate: Bytes -> Bytes, x: nat, y: nat)
    requires width < TWO32 && height < TWO32 && x < width && y < height
    requires |deflate(Raster(ScanLine(r, g, b, width), height))| < TWO32
    requires forall raw :: inflate(deflate(raw)) == raw
    ensures var parsed := ParsePng(PngFile(width, height, deflate(Raster(ScanLine(r, g, b, width), height))));
            && parsed.Some? && |parsed.value| == 3 && parsed.value[1].0 == IDAT
            && ShowsAt(inflate(parsed.value[1].1), width, r, g, b, x, y)
  {
    var raw := Raster(ScanLine(r, g, b, width), height);
    PngReadsBack(width, height, deflate(raw));
    RasterIsSolid(r, g, b, width, height, x, y);
  }

  /** The raw buffer of an image `width` wide has filter byte 0 in row `y` and the colour at (x, y). */
  predicate ShowsAt(raw: Bytes, width: nat, r: Byte, g: Byte, b: Byte, x: nat, y: nat)
    requires x < width
  {
    var start := y * (1 + 3 * width);
    && 0 <= start && start + 1 + 3 * width <= |raw|
    && raw[start] == 0 && raw[start + 1 + 3 * x..start + 4 + 3 * x] == [r, g, b]
  }
}
