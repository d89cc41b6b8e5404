/** The PNG codec of `tools/website-capture-png.ts`: five row filters, chunk framing, and the
    encoder and decoder that undo each other. Deflate and inflate are a parameter. */
module Png {
  import opened Wrappers
  import opened Bytes
  import Crc32

  datatype Error =
    | BadSignature
    | TruncatedChunk
    | OutOfRange            // a DataView read past the end of the file
    | BitDepth
    | Interlaced
    | ColourType
    | NoHeader
    | NoEnd
    | InflateFailed
    | TruncatedImageData
    | BadFilter(filter: byte)
    | RowLength(y: nat)

  type Row = seq<byte>

  datatype Image = Image(width: nat, height: nat, colorType: Colour, channels: nat,
                         rows: seq<Row>, ancillary: seq<seq<byte>>)

  /** zlib as the program uses it: `None` is an exception from `inflateSync`. */
  datatype Zlib = Zlib(deflate: seq<byte> -> seq<byte>, inflate: seq<byte> -> Option<seq<byte>>) {
    ghost predicate Inverse() {
      forall x :: inflate(deflate(x)) == Some(x)
    }
  }

  const SIGNATURE: seq<byte> := [137, 80, 78, 71, 13, 10, 26, 10]
  const IHDR: seq<byte> := [73, 72, 68, 82]
  const IDAT: seq<byte> := [73, 68, 65, 84]
  const IEND: seq<byte> := [73, 69, 78, 68]
  const PLTE: seq<byte> := [80, 76, 84, 69]

  function Channels(colorType: byte): Option<nat> {
    if colorType == 0 then Some(1)
    else if colorType == 2 then Some(3)
    else if colorType == 4 then Some(2)
    else if colorType == 6 then Some(4)
    else None
  }

  /** A colour type the codec supports. */
  type Colour = c: byte | Channels(c).Some? witness 0

  // ----- filters

  function Abs(x: int): nat { if x < 0 then -x else x }

  function Paeth(a: byte, b: byte, c: byte): byte {
    var p: int := a + b - c;
    var pa := Abs(p - a);
    var pb := Abs(p - b);
    var pc := Abs(p - c);
    if pa <= pb && pa <= pc then a else if pb <= pc then b else c
  }

  function Predictor(filter: nat, a: byte, b: byte, c: byte): byte
    requires filter < 5
  {
    if filter == 0 then 0
    else if filter == 1 then a
    else if filter == 2 then b
    else if filter == 3 then (var s: int := a + b; s / 2)
    else Paeth(a, b, c)
  }

  /** The byte one pixel to the left of index `i`, zero at the left edge. */
  function Left(row: Row, i: nat, channels: nat): byte
    requires i <= |row|
  {
    if i >= channels > 0 then row[i - channels] else 0
  }

  /** The predictor for byte `i`, from the part of the row before `i` and the row above. */
  function PredictorAt(filter: nat, before: Row, previous: Row, channels: nat, i: nat): byte
    requires filter < 5 && i <= |before| && i < |previous|
  {
    Predictor(filter, Left(before, i, channels), previous[i], Left(previous, i, channels))
  }

  function FilterRow(filter: nat, row: Row, previous: Row, channels: nat): (r: Row)
    requires filter < 5 && |row| == |previous|
    ensures |r| == |row|
  {
    seq(|row|, i requires 0 <= i < |row| =>
      var x: int := row[i] - PredictorAt(filter, row, previous, channels, i); x % 256)
  }

  /** The first `n` bytes of the row, each rebuilt from those before it. */
  function UnfilterPrefix(filter: nat, line: Row, previous: Row, channels: nat, n: nat): (r: Row)
    requires filter < 5 && |line| == |previous| && n <= |line|
    ensures |r| == n
  {
    if n == 0 then [] else
      var before := UnfilterPrefix(filter, line, previous, channels, n - 1);
      var x: int := line[n - 1] + PredictorAt(filter, before, previous, channels, n - 1);
      before + [x % 256]
  }

  function UnfilterRow(filter: nat, line: Row, previous: Row, channels: nat): (r: Row)
    requires filter < 5 && |line| == |previous|
    ensures |r| == |line|
  {
    UnfilterPrefix(filter, line, previous, channels, |line|)
  }

  lemma ResidualRoundTrip(x: byte, p: byte)
    ensures ((x - p) % 256 + p) % 256 == x
  {}

  lemma {:induction false} UnfilterFilterPrefix(filter: nat, row: Row, previous: Row, channels: nat, n: nat)
    requires filter < 5 && |row| == |previous| && n <= |row|
    ensures UnfilterPrefix(filter, FilterRow(filter, row, previous, channels), previous, channels, n) == row[..n]
  {
    if n > 0 {
      UnfilterFilterPrefix(filter, row, previous, channels, n - 1);
      ResidualRoundTrip(row[n - 1], PredictorAt(filter, row, previous, channels, n - 1));
      assert Left(row[..n - 1], n - 1, channels) == Left(row, n - 1, channels);
      assert row[..n] == row[..n - 1] + [row[n - 1]];
    }
  }

  /** Every filter, on every row and row above, is undone byte for byte. */
  lemma UnfilterFilter(filter: nat, row: Row, previous: Row, channels: nat)
    requires filter < 5 && |row| == |previous|
    ensures UnfilterRow(filter, FilterRow(filter, row, previous, channels), previous, channels) == row
  {
    UnfilterFilterPrefix(filter, row, previous, channels, |row|);
    assert row[..|row|] == row;
  }

  // ----- all the scanlines

  predicate Strided(rows: seq<Row>, stride: nat) {
    forall y :: 0 <= y < |rows| ==> |rows[y]| == stride
  }

  function Black(stride: nat): (r: Row)
    ensures |r| == stride
  {
    seq(stride, i => 0)
  }

  /** Filter byte and filtered row, for every row in turn, whatever filters are chosen. */
  function Scanlines(filters: seq<nat>, rows: seq<Row>, previous: Row, channels: nat): seq<byte>
    requires |filters| == |rows| && (forall y :: 0 <= y < |filters| ==> filters[y] < 5)
    requires Strided(rows, |previous|)
  {
    if rows == [] then []
    else [filters[0]] + FilterRow(filters[0], rows[0], previous, channels)
         + Scanlines(filters[1..], rows[1..], rows[0], channels)
  }

  lemma {:induction false} ScanlinesLength(filters: seq<nat>, rows: seq<Row>, previous: Row, channels: nat)
    requires |filters| == |rows| && (forall y :: 0 <= y < |filters| ==> filters[y] < 5)
    requires Strided(rows, |previous|)
    ensures |Scanlines(filters, rows, previous, channels)| == |rows| * (|previous| + 1)
  {
    if rows != [] {
      ScanlinesLength(filters[1..], rows[1..], rows[0], channels);
      assert (|rows| - 1) * (|previous| + 1) + (|previous| + 1) == |rows| * (|previous| + 1);
    }
  }

  /** `height` rows read from `raw`. An unknown filter byte is an error only when the row holds a
      byte to be rebuilt. */
  function ReadRows(raw: seq<byte>, height: nat, previous: Row, channels: nat): Result<seq<Row>, Error>
    requires |raw| >= height * (|previous| + 1)
    decreases height
  {
    if height == 0 then Ok([])
    else
      var stride := |previous|;
      assert height * (stride + 1) == (height - 1) * (stride + 1) + (stride + 1);
      if raw[0] >= 5 && stride > 0 then Err(BadFilter(raw[0]))
      else
        var row := if raw[0] < 5 then UnfilterRow(raw[0], raw[1..1 + stride], previous, channels) else [];
        match ReadRows(raw[1 + stride..], height - 1, row, channels)
        case Err(e) => Err(e)
        case Ok(rows) => Ok([row] + rows)
  }

  lemma StridedRest(rows: seq<Row>, stride: nat)
    requires Strided(rows, stride) && rows != []
    ensures |rows[0]| == stride && Strided(rows[1..], stride)
  {}

  lemma {:induction false} ReadScanlines(filters: seq<nat>, rows: seq<Row>, previous: Row, channels: nat)
    requires |filters| == |rows| && (forall y :: 0 <= y < |filters| ==> filters[y] < 5)
    requires Strided(rows, |previous|)
    ensures |Scanlines(filters, rows, previous, channels)| == |rows| * (|previous| + 1)
    ensures ReadRows(Scanlines(filters, rows, previous, channels), |rows|, previous, channels) == Ok(rows)
  {
    ScanlinesLength(filters, rows, previous, channels);
    hide Strided;
    if rows != [] {
      StridedRest(rows, |previous|);
      var raw := Scanlines(filters, rows, previous, channels);
      var line := FilterRow(filters[0], rows[0], previous, channels);
      var rest := Scanlines(filters[1..], rows[1..], rows[0], channels);
      assert raw == [filters[0]] + line + rest;
      assert raw[1..1 + |previous|] == line;
      assert raw[1 + |previous|..] == rest;
      UnfilterFilter(filters[0], rows[0], previous, channels);
      ReadScanlines(filters[1..], rows[1..], rows[0], channels);
      assert [rows[0]] + rows[1..] == rows;
    }
  }

  lemma {:induction false} ReadRowsStrided(raw: seq<byte>, height: nat, previous: Row, channels: nat)
    requires |raw| >= height * (|previous| + 1)
    ensures ReadRows(raw, height, previous, channels).Ok? ==>
              var rows := ReadRows(raw, height, previous, channels).value;
              |rows| == height && Strided(rows, |previous|)
    decreases height
  {
    if height > 0 {
      var stride := |previous|;
      assert height * (stride + 1) == (height - 1) * (stride + 1) + (stride + 1);
      if !(raw[0] >= 5 && stride > 0) {
        var row := if raw[0] < 5 then UnfilterRow(raw[0], raw[1..1 + stride], previous, channels) else [];
        ReadRowsStrided(raw[1 + stride..], height - 1, row, channels);
      }
    }
  }

  // ----- chunks

  /** A chunk as the encoder writes it: length, type, data, CRC of type and data. */
  function Chunk(kind: seq<byte>, data: seq<byte>): (r: seq<byte>)
    requires |kind| == 4
    ensures |r| == 12 + |data|
  {
    PutU32(|data|) + kind + data + PutU32(Crc32.Number(Crc32.Reference(kind + data)))
  }

  /** A whole raw chunk of a kind the decoder carries along verbatim. */
  predicate Ancillary(c: seq<byte>) {
    |c| >= 12 && GetU32(c[0..4]) == |c| - 12 && c[4..8] !in {IHDR, IDAT, IEND, PLTE}
  }

  datatype Header = Header(width: nat, height: nat, colorType: Colour)

  /** What the chunk loop has gathered. */
  datatype Gathered = Gathered(header: Option<Header>, idat: seq<seq<byte>>, ancillary: seq<seq<byte>>)

  /** The byte at index `i`, or -1 for JavaScript's `undefined`. */
  function At(data: seq<byte>, i: nat): int {
    if i < |data| then data[i] else -1
  }

  /** The IHDR branch: `rest` starts at the chunk, `data` is its payload. */
  function ReadHeader(rest: seq<byte>, data: seq<byte>): (r: Result<Header, Error>)
    ensures r.Ok? ==> r.value.width < TWO_TO_THE_32 && r.value.height < TWO_TO_THE_32
  {
    if |rest| < 16 then Err(OutOfRange)
    else if At(data, 8) != 8 then Err(BitDepth)
    else if At(data, 12) != 0 then Err(Interlaced)
    else if Channels(data[9]).None? then Err(ColourType)
    else Ok(Header(GetU32(rest[8..12]), GetU32(rest[12..16]), data[9]))
  }

  /** One turn of the chunk loop on the whole chunk `rest[..end]` that is not IEND. */
  function TakeChunk(rest: seq<byte>, end: nat, g: Gathered): Result<Gathered, Error>
    requires 12 <= end <= |rest|
  {
    var kind := rest[4..8];
    var data := rest[8..end - 4];
    if kind == IHDR then
      match ReadHeader(rest, data)
      case Err(e) => Err(e)
      case Ok(h) => Ok(g.(header := Some(h)))
    else if kind == IDAT then Ok(g.(idat := g.idat + [data]))
    else if g.idat == [] && kind != PLTE then Ok(g.(ancillary := g.ancillary + [rest[..end]]))
    else Ok(g)
  }

  /** The chunk loop on the file from some offset on. `NoEnd` also stands for running out of file;
      the missing header is reported first, as the program does. */
  function ReadChunks(rest: seq<byte>, g: Gathered): (r: Result<Gathered, Error>)
    ensures r.Ok? ==> r.value.header.Some?
    decreases |rest|
  {
    if rest == [] then Err(if g.header.None? then NoHeader else NoEnd)
    else if |rest| < 12 then Err(TruncatedChunk)
    else
      var end := 12 + GetU32(rest[0..4]);
      if end > |rest| then Err(TruncatedChunk)
      else if rest[4..8] == IEND then (if g.header.None? then Err(NoHeader) else Ok(g))
      else
        match TakeChunk(rest, end, g)
        case Err(e) => Err(e)
        case Ok(g') => ReadChunks(rest[end..], g')
  }

  function Decode(z: Zlib, bytes: seq<byte>): Result<Image, Error> {
    if |bytes| < 8 || bytes[..8] != SIGNATURE then Err(BadSignature)
    else
      match ReadChunks(bytes[8..], Gathered(None, [], []))
      case Err(e) => Err(e)
      case Ok(g) => DecodeImage(z, g.header.value, g)
  }

  function DecodeImage(z: Zlib, h: Header, g: Gathered): Result<Image, Error> {
    var channels := Channels(h.colorType).value;
    var stride := h.width * channels;
    match z.inflate(Concat(g.idat))
    case None => Err(InflateFailed)
    case Some(raw) =>
      if |raw| < (stride + 1) * h.height then Err(TruncatedImageData)
      else
        match ReadRows(raw, h.height, Black(stride), channels)
        case Err(e) => Err(e)
        case Ok(rows) => Ok(Image(h.width, h.height, h.colorType, channels, rows, g.ancillary))
  }

  // ----- the encoder's output, and the round trip

  function HeaderData(width: nat, height: nat, colorType: byte): (r: seq<byte>)
    ensures |r| == 13
  {
    PutU32(width) + PutU32(height) + [8, colorType, 0, 0, 0]
  }

  /** What the encoder accepts: a known colour type, every row as long as the stride, and every
      number that goes into a four-byte field small enough for it. */
  ghost predicate Encodable(z: Zlib, width: nat, colorType: byte, rows: seq<Row>, ancillary: seq<seq<byte>>,
                            filters: seq<nat>)
  {
    && Channels(colorType).Some?
    && Strided(rows, width * Channels(colorType).value)
    && |filters| == |rows| && (forall y :: 0 <= y < |filters| ==> filters[y] < 5)
    && (forall i :: 0 <= i < |ancillary| ==> Ancillary(ancillary[i]))
    && width < TWO_TO_THE_32 && |rows| < TWO_TO_THE_32
    && |z.deflate(Scanlines(filters, rows, Black(width * Channels(colorType).value),
                            Channels(colorType).value))| < TWO_TO_THE_32
  }

  /** The file for a given choice of filters. */
  function File(z: Zlib, width: nat, colorType: byte, rows: seq<Row>, ancillary: seq<seq<byte>>,
                filters: seq<nat>): seq<byte>
    requires Channels(colorType).Some? && Strided(rows, width * Channels(colorType).value)
    requires |filters| == |rows| && (forall y :: 0 <= y < |filters| ==> filters[y] < 5)
  {
    var channels := Channels(colorType).value;
    SIGNATURE + Chunk(IHDR, HeaderData(width, |rows|, colorType)) + Concat(ancillary)
    + Chunk(IDAT, z.deflate(Scanlines(filters, rows, Black(width * channels), channels)))
    + Chunk(IEND, [])
  }

  /** `c` is a chunk of the given kind and data; its checksum is not looked at. */
  predicate Framed(c: seq<byte>, kind: seq<byte>, data: seq<byte>) {
    |c| == 12 + |data| && GetU32(c[0..4]) == |data| && c[4..8] == kind && c[8..8 + |data|] == data
  }

  lemma ChunkFramed(kind: seq<byte>, data: seq<byte>)
    requires |kind| == 4 && |data| < TWO_TO_THE_32
    ensures Framed(Chunk(kind, data), kind, data)
  {
    hide Crc32.Reference, Crc32.Number, PutU32, GetU32;
    Split(PutU32(|data|) + kind, data, PutU32(Crc32.Number(Crc32.Reference(kind + data))));
    assert Chunk(kind, data)[0..4] == PutU32(|data|);
    U32RoundTrip(|data|);
  }

  /** A framed chunk at the head of the file is what the loop takes next. */
  lemma TakeFramed(c: seq<byte>, kind: seq<byte>, data: seq<byte>, tail: seq<byte>)
    requires Framed(c, kind, data)
    ensures var rest := c + tail;
            && GetU32(rest[0..4]) == |data| && rest[4..8] == kind && rest[8..8 + |data|] == data
            && rest[..|c|] == c && rest[|c|..] == tail
  {
    var rest := c + tail;
    assert rest[0..4] == c[0..4] && rest[4..8] == c[4..8] && rest[8..8 + |data|] == c[8..8 + |data|];
  }

  lemma SliceOfSlice(s: seq<byte>, i: nat, j: nat, k: nat, l: nat)
    requires i <= j <= |s| && k <= l <= j - i
    ensures s[i..j][k..l] == s[i + k..i + l]
  {
    assert forall m :: 0 <= m < l - k ==> s[i..j][k..l][m] == s[i + k..i + l][m];
  }

  lemma ReadHeaderData(rest: seq<byte>, width: nat, height: nat, colorType: byte)
    requires width < TWO_TO_THE_32 && height < TWO_TO_THE_32 && Channels(colorType).Some?
    requires |rest| >= 25 && rest[8..21] == HeaderData(width, height, colorType)
    ensures ReadHeader(rest, HeaderData(width, height, colorType)) == Ok(Header(width, height, colorType))
  {
    var data := HeaderData(width, height, colorType);
    SliceOfSlice(rest, 8, 21, 0, 4);
    SliceOfSlice(rest, 8, 21, 4, 8);
    assert data[0..4] == PutU32(width) && data[4..8] == PutU32(height);
    U32RoundTrip(width);
    U32RoundTrip(height);
  }

  lemma {:induction false} ReadAncillary(ancillary: seq<seq<byte>>, tail: seq<byte>, g: Gathered)
    requires forall i :: 0 <= i < |ancillary| ==> Ancillary(ancillary[i])
    requires g.idat == []
    ensures ReadChunks(Concat(ancillary) + tail, g) == ReadChunks(tail, g.(ancillary := g.ancillary + ancillary))
    decreases |ancillary|
  {
    hide ReadChunks;
    if ancillary == [] {
      assert Concat(ancillary) + tail == tail && g.ancillary + [] == g.ancillary;
    } else {
      var c := ancillary[0];
      var more := Concat(ancillary[1..]) + tail;
      assert Concat(ancillary) + tail == c + more;
      ReadOneAncillary(c, more, g);
      ReadAncillary(ancillary[1..], tail, g.(ancillary := g.ancillary + [c]));
      assert g.ancillary + [c] + ancillary[1..] == g.ancillary + ancillary;
    }
  }

  lemma ReadOneAncillary(c: seq<byte>, tail: seq<byte>, g: Gathered)
    requires Ancillary(c) && g.idat == []
    ensures ReadChunks(c + tail, g) == ReadChunks(tail, g.(ancillary := g.ancillary + [c]))
  {
    TakeFramed(c, c[4..8], c[8..|c| - 4], tail);
  }

  lemma ReadHeaderChunk(c: seq<byte>, width: nat, height: nat, colorType: byte, tail: seq<byte>, g: Gathered)
    requires width < TWO_TO_THE_32 && height < TWO_TO_THE_32 && Channels(colorType).Some?
    requires Framed(c, IHDR, HeaderData(width, height, colorType))
    ensures ReadChunks(c + tail, g) == ReadChunks(tail, g.(header := Some(Header(width, height, colorType))))
  {
    var data := HeaderData(width, height, colorType);
    TakeFramed(c, IHDR, data, tail);
    ReadHeaderData(c + tail, width, height, colorType);
  }

  lemma ReadImageData(c: seq<byte>, compressed: seq<byte>, ending: seq<byte>, g: Gathered)
    requires Framed(c, IDAT, compressed) && Framed(ending, IEND, []) && g.header.Some?
    ensures ReadChunks(c + ending, g) == Ok(g.(idat := g.idat + [compressed]))
  {
    TakeFramed(c, IDAT, compressed, ending);
    TakeFramed(ending, IEND, [], []);
    assert ending + [] == ending;
  }

  lemma ReadFile(head: seq<byte>, image: seq<byte>, ending: seq<byte>, compressed: seq<byte>,
                 width: nat, height: nat, colorType: byte, ancillary: seq<seq<byte>>)
    requires width < TWO_TO_THE_32 && height < TWO_TO_THE_32 && Channels(colorType).Some?
    requires forall i :: 0 <= i < |ancillary| ==> Ancillary(ancillary[i])
    requires Framed(head, IHDR, HeaderData(width, height, colorType))
    requires Framed(image, IDAT, compressed) && Framed(ending, IEND, [])
    ensures ReadChunks(head + (Concat(ancillary) + (image + ending)), Gathered(None, [], []))
            == Ok(Gathered(Some(Header(width, height, colorType)), [compressed], ancillary))
  {
    hide ReadChunks, Framed, HeaderData, Ancillary;
    var tail := image + ending;
    var g := Gathered(Some(Header(width, height, colorType)), [], []);
    ReadHeaderChunk(head, width, height, colorType, Concat(ancillary) + tail, Gathered(None, [], []));
    ReadAncillary(ancillary, tail, g);
    assert [] + ancillary == ancillary && [] + [compressed] == [compressed];
    ReadImageData(image, compressed, ending, g.(ancillary := ancillary));
  }

  lemma SignedFile(body: seq<byte>)
    ensures (SIGNATURE + body)[..8] == SIGNATURE && (SIGNATURE + body)[8..] == body
  {}

  lemma Regroup(a: seq<byte>, b: seq<byte>, c: seq<byte>, d: seq<byte>, e: seq<byte>)
    ensures a + b + c + d + e == a + (b + (c + (d + e)))
  {}

  /** Whatever filter is chosen per row, decoding the encoded file gives the image back. */
  lemma RoundTrip(z: Zlib, width: nat, colorType: byte, rows: seq<Row>, ancillary: seq<seq<byte>>, filters: seq<nat>)
    requires z.Inverse() && Encodable(z, width, colorType, rows, ancillary, filters)
    ensures Decode(z, File(z, width, colorType, rows, ancillary, filters))
         == Ok(Image(width, |rows|, colorType, Channels(colorType).value, rows, ancillary))
  {
    var channels := Channels(colorType).value;
    var stride := width * channels;
    var raw := Scanlines(filters, rows, Black(stride), channels);
    var compressed := z.deflate(raw);
    var head := Chunk(IHDR, HeaderData(width, |rows|, colorType));
    var image := Chunk(IDAT, compressed);
    var ending := Chunk(IEND, []);
    ChunkFramed(IHDR, HeaderData(width, |rows|, colorType));
    ChunkFramed(IDAT, compressed);
    ChunkFramed(IEND, []);
    var body := head + (Concat(ancillary) + (image + ending));
    Regroup(SIGNATURE, head, Concat(ancillary), image, ending);
    SignedFile(body);
    ReadFile(head, image, ending, compressed, width, |rows|, colorType, ancillary);
    DecodeImageData(z, width, colorType, rows, ancillary, filters);
  }

  lemma DecodeImageData(z: Zlib, width: nat, colorType: byte, rows: seq<Row>, ancillary: seq<seq<byte>>,
                        filters: seq<nat>)
    requires z.Inverse() && Encodable(z, width, colorType, rows, ancillary, filters)
    ensures var channels := Channels(colorType).value;
            var raw := Scanlines(filters, rows, Black(width * channels), channels);
            var g := Gathered(Some(Header(width, |rows|, colorType)), [z.deflate(raw)], ancillary);
            DecodeImage(z, g.header.value, g) == Ok(Image(width, |rows|, colorType, channels, rows, ancillary))
  {
    var channels := Channels(colorType).value;
    var raw := Scanlines(filters, rows, Black(width * channels), channels);
    assert Concat([z.deflate(raw)]) == z.deflate(raw);
    assert z.inflate(z.deflate(raw)) == Some(raw);
    ReadScanlines(filters, rows, Black(width * channels), channels);
    assert (width * channels + 1) * |rows| == |rows| * (width * channels + 1);
  }

  // ----- every decoded image can be encoded again

  lemma {:induction false} GatheredChunks(rest: seq<byte>, g: Gathered)
    requires forall i :: 0 <= i < |g.ancillary| ==> Ancillary(g.ancillary[i])
    requires g.header.Some? ==> g.header.value.width < TWO_TO_THE_32 && g.header.value.height < TWO_TO_THE_32
    ensures ReadChunks(rest, g).Ok? ==>
              var r := ReadChunks(rest, g).value;
              && (forall i :: 0 <= i < |r.ancillary| ==> Ancillary(r.ancillary[i]))
              && r.header.value.width < TWO_TO_THE_32 && r.header.value.height < TWO_TO_THE_32
    decreases |rest|
  {
    if |rest| >= 12 {
      var end := 12 + GetU32(rest[0..4]);
      if end <= |rest| && rest[4..8] != IEND {
        var next := TakeChunk(rest, end, g);
        if next.Ok? {
          var c := rest[..end];
          assert c[0..4] == rest[0..4] && c[4..8] == rest[4..8];
          GatheredChunks(rest[end..], next.value);
        }
      }
    }
  }

  ghost predicate WellFormed(img: Image) {
    && Channels(img.colorType) == Some(img.channels)
    && |img.rows| == img.height && Strided(img.rows, img.width * img.channels)
    && img.width < TWO_TO_THE_32 && img.height < TWO_TO_THE_32
    && (forall i :: 0 <= i < |img.ancillary| ==> Ancillary(img.ancillary[i]))
  }

  /** What the decoder promises about any image it returns. */
  lemma DecodedWellFormed(z: Zlib, bytes: seq<byte>)
    ensures Decode(z, bytes).Ok? ==> WellFormed(Decode(z, bytes).value)
  {
    if Decode(z, bytes).Err? { return; }
    var g0 := Gathered(None, [], []);
    GatheredChunks(bytes[8..], g0);
    var g := ReadChunks(bytes[8..], g0).value;
    var h := g.header.value;
    var stride := h.width * Channels(h.colorType).value;
    var raw := z.inflate(Concat(g.idat)).value;
    assert (stride + 1) * h.height == h.height * (stride + 1);
    ReadRowsStrided(raw, h.height, Black(stride), Channels(h.colorType).value);
  }

  lemma Split(a: seq<byte>, b: seq<byte>, c: seq<byte>)
    ensures (a + b + c)[|a|..|a| + |b|] == b && (a + b + c)[|a| + |b|..] == c
  {}

  /** Every chunk the encoder frames ends in the CRC of its type and data. */
  lemma ChunkChecksum(kind: seq<byte>, data: seq<byte>)
    requires |kind| == 4
    ensures var c := Chunk(kind, data);
            GetU32(c[8 + |data|..]) == Crc32.Number(Crc32.Reference(c[4..8 + |data|]))
  {
    var signed := kind + data;
    var crc := Crc32.Number(Crc32.Reference(signed));
    hide Crc32.Reference, Crc32.Number, PutU32, GetU32;
    var head := PutU32(|data|);
    assert Chunk(kind, data) == head + signed + PutU32(crc);
    Split(head, signed, PutU32(crc));
    Crc32.WordBound(Crc32.Reference(signed));
    U32RoundTrip(crc);
  }
}
