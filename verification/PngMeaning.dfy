/** What the codec's parts mean, said apart from how they are computed: in the terms of RFC 2083 (sections
    2.2, 3.1 to 3.3, 4.1.1 and 6). */
module PngMeaning {
  import opened Wrappers
  import opened Bytes
  import opened Png
  import Crc32

  // ----- names and colour types

  /** The seven bits of each character. */
  function Ascii(text: string): (r: seq<byte>)
    ensures |r| == |text|
  {
    seq(|text|, i requires 0 <= i < |text| => text[i] as int % 128)
  }

  /** The file's signature and the chunk types, as the standard spells them. */
  lemma NamesSpelled()
    ensures SIGNATURE == [0x89] + Ascii("PNG\r\n") + [0x1a] + Ascii("\n")
    ensures IHDR == Ascii("IHDR") && PLTE == Ascii("PLTE") && IDAT == Ascii("IDAT") && IEND == Ascii("IEND")
  {}

  predicate HasBit(n: nat, bit: nat)
    requires bit > 0
  {
    n / bit % 2 == 1
  }

  /** A colour type is a sum of 1 (palette), 2 (colour) and 4 (alpha). The codec supports those without
      a palette: one channel, or three in colour, and one more with alpha. */
  lemma ChannelsMean(colorType: byte)
    ensures Channels(colorType) ==
              if colorType < 8 && !HasBit(colorType, 1) then
                Some((if HasBit(colorType, 2) then 3 else 1) + (if HasBit(colorType, 4) then 1 else 0))
              else None
  {}

  // ----- the filters

  function Distance(x: int, y: int): nat { if x < y then y - x else x - y }

  /** `p` is the nearest of left, above and upper left to `left + above - upperLeft`; of equally near
      ones left comes first, and then above. */
  ghost predicate IsNearest(left: byte, above: byte, upperLeft: byte, p: byte) {
    var target: int := left + above - upperLeft;
    var least := Distance(target, p);
    && p in {left, above, upperLeft}
    && (forall q :: q in {left, above, upperLeft} ==> least <= Distance(target, q))
    && (Distance(target, left) == least ==> p == left)
    && (Distance(target, left) != least && Distance(target, above) == least ==> p == above)
  }

  /** What a filter predicts: nothing, left, above, their mean rounded down, or the nearest. */
  ghost predicate IsPredicted(filter: nat, left: byte, above: byte, upperLeft: byte, p: byte) {
    match filter
    case 0 => p == 0
    case 1 => p == left
    case 2 => p == above
    case 3 => 2 * p <= left + above < 2 * p + 2
    case 4 => IsNearest(left, above, upperLeft, p)
    case _ => false
  }

  lemma PaethNearest(left: byte, above: byte, upperLeft: byte)
    ensures IsNearest(left, above, upperLeft, Paeth(left, above, upperLeft))
  {}

  lemma PredictorMeans(filter: nat, left: byte, above: byte, upperLeft: byte, p: byte)
    requires filter < 5
    ensures IsPredicted(filter, left, above, upperLeft, p) <==> p == Predictor(filter, left, above, upperLeft)
  {
    PaethNearest(left, above, upperLeft);
  }

  /** Byte `i` of a row, zero to the left of it and where there is no row. */
  function ByteAt(row: Row, i: int): byte {
    if 0 <= i < |row| then row[i] else 0
  }

  /** Byte `x` of the row is the coded byte plus what the filter predicts from the byte a pixel to its
      left and the two above those, modulo 256. */
  ghost predicate IsRebuilt(filter: byte, coded: byte, above: Row, row: Row, channels: nat, x: nat)
    requires x < |row|
  {
    IsSum(filter, coded, ByteAt(row, x - channels), ByteAt(above, x), ByteAt(above, x - channels), row[x])
  }

  ghost predicate IsSum(filter: byte, coded: byte, left: byte, above: byte, upperLeft: byte, value: byte) {
    exists p: byte :: IsPredicted(filter, left, above, upperLeft, p) && value == (coded + p) % 256
  }

  lemma {:induction false} PrefixAt(filter: nat, line: Row, previous: Row, channels: nat, n: nat, x: nat)
    requires filter < 5 && |line| == |previous| && x < n <= |line|
    ensures var all := UnfilterPrefix(filter, line, previous, channels, n);
            all[x] == (line[x] + PredictorAt(filter, all, previous, channels, x)) % 256
  {
    var before := UnfilterPrefix(filter, line, previous, channels, n - 1);
    var all := UnfilterPrefix(filter, line, previous, channels, n);
    assert before == all[..n - 1];
    assert Left(before, x, channels) == Left(all, x, channels);
    if x < n - 1 {
      PrefixAt(filter, line, previous, channels, n - 1, x);
    }
  }

  /** A row that was read, against the line it was read from and the row above. */
  lemma RowRebuilt(filter: byte, line: Row, previous: Row, channels: nat, x: nat)
    requires filter < 5 && |line| == |previous| && x < |line| && channels > 0
    ensures IsRebuilt(filter, line[x], previous, UnfilterRow(filter, line, previous, channels), channels, x)
  {
    var row := UnfilterRow(filter, line, previous, channels);
    PrefixAt(filter, line, previous, channels, |line|, x);
    var p := PredictorAt(filter, row, previous, channels, x);
    assert Left(row, x, channels) == ByteAt(row, x - channels)
           && Left(previous, x, channels) == ByteAt(previous, x - channels);
    hide Predictor, UnfilterPrefix;
    PredictorMeans(filter, ByteAt(row, x - channels), previous[x], ByteAt(previous, x - channels), p);
  }

  lemma {:induction false} RowsRebuilt(raw: seq<byte>, height: nat, previous: Row, channels: nat, rows: seq<Row>,
                                       y: nat, x: nat)
    requires channels > 0 && |raw| >= height * (|previous| + 1) && ReadRows(raw, height, previous, channels) == Ok(rows)
    requires y < |rows| && x < |previous|
    ensures |rows[y]| == |previous| && RebuiltAt(raw, |previous|, previous, channels, rows, y, x)
    decreases height
  {
    hide IsRebuilt, UnfilterRow, ReadRows;
    var stride := |previous|;
    ReadRowsCons(raw, height, previous, channels, rows);
    if y == 0 {
      RowRebuilt(raw[0], raw[1..1 + stride], previous, channels, x);
    } else {
      var rest := raw[1 + stride..];
      RowsRebuilt(rest, height - 1, rows[0], channels, rows[1..], y - 1, x);
      LineOf(raw, rest, stride, y, x);
    }
  }

  lemma LineOf(raw: seq<byte>, rest: seq<byte>, stride: nat, y: nat, x: nat)
    requires y > 0 && 1 + stride <= |raw| && rest == raw[1 + stride..] && (y - 1) * (stride + 1) + 1 + x < |rest|
    ensures var line := y * (stride + 1);
            line + 1 + x < |raw| && raw[line] == rest[(y - 1) * (stride + 1)]
                && raw[line + 1 + x] == rest[(y - 1) * (stride + 1) + 1 + x]
  {
    assert y * (stride + 1) == (y - 1) * (stride + 1) + (stride + 1);
  }

  lemma ReadRowsCons(raw: seq<byte>, height: nat, previous: Row, channels: nat, rows: seq<Row>)
    requires |raw| >= height * (|previous| + 1) && ReadRows(raw, height, previous, channels) == Ok(rows)
    requires rows != [] && previous != []
    ensures height > 0 && |raw| >= 1 + |previous| && raw[0] < 5
              && |raw| - 1 - |previous| >= (height - 1) * (|previous| + 1)
    ensures rows[0] == UnfilterRow(raw[0], raw[1..1 + |previous|], previous, channels)
    ensures ReadRows(raw[1 + |previous|..], height - 1, rows[0], channels) == Ok(rows[1..])
  {
    hide UnfilterRow;
    assert height * (|previous| + 1) == (height - 1) * (|previous| + 1) + (|previous| + 1);
  }

  /** The byte is where the image data says, in a row of its own line. */
  ghost predicate IsDecoded(raw: seq<byte>, stride: nat, channels: nat, rows: seq<Row>, y: nat, x: nat) {
    RebuiltAt(raw, stride, [], channels, rows, y, x)
  }

  ghost predicate RebuiltAt(raw: seq<byte>, stride: nat, above: Row, channels: nat, rows: seq<Row>, y: nat, x: nat) {
    var line := y * (stride + 1);
    && y < |rows| && x < |rows[y]| && line + 1 + x < |raw|
    && IsRebuilt(raw[line], raw[line + 1 + x], if y == 0 then above else rows[y - 1], rows[y], channels, x)
  }

  /** Only one row can be rebuilt from a line. */
  lemma {:induction false} RebuiltPrefix(filter: byte, line: Row, previous: Row, channels: nat, row: Row, n: nat)
    requires n <= |row| == |line| == |previous| && filter < 5 && channels > 0
    requires forall x: nat :: x < |row| ==> IsRebuilt(filter, line[x], previous, row, channels, x)
    ensures UnfilterPrefix(filter, line, previous, channels, n) == row[..n]
  {
    hide Predictor, IsPredicted;
    if n > 0 {
      var x := n - 1;
      RebuiltPrefix(filter, line, previous, channels, row, x);
      assert IsRebuilt(filter, line[x], previous, row, channels, x);
      var left, upperLeft := ByteAt(row, x - channels), ByteAt(previous, x - channels);
      var p: byte :| IsPredicted(filter, left, previous[x], upperLeft, p) && row[x] == (line[x] + p) % 256;
      PredictorMeans(filter, left, previous[x], upperLeft, p);
      assert Left(row[..x], x, channels) == left && Left(previous, x, channels) == upperLeft;
      assert row[..n] == row[..x] + [row[x]];
    }
  }

  lemma RowOnce(filter: byte, line: Row, previous: Row, channels: nat, row: Row)
    requires |row| == |line| == |previous| && channels > 0
    requires forall x: nat :: x < |row| ==> IsRebuilt(filter, line[x], previous, row, channels, x)
    ensures row != [] ==> filter < 5
    ensures filter < 5 ==> UnfilterRow(filter, line, previous, channels) == row
  {
    if row != [] {
      assert IsRebuilt(filter, line[0], previous, row, channels, 0);
    }
    if filter < 5 {
      RebuiltPrefix(filter, line, previous, channels, row, |row|);
      assert row[..|row|] == row;
    }
  }

  /** Rows that are rebuilt from the data byte by byte are what is read from it. */
  lemma {:induction false} RebuiltRead(raw: seq<byte>, previous: Row, channels: nat, rows: seq<Row>)
    requires channels > 0 && |raw| >= |rows| * (|previous| + 1) && Strided(rows, |previous|)
    requires forall y: nat, x: nat :: y < |rows| && x < |previous| ==>
               RebuiltAt(raw, |previous|, previous, channels, rows, y, x)
    ensures ReadRows(raw, |rows|, previous, channels) == Ok(rows)
  {
    hide IsRebuilt, UnfilterRow;
    if rows != [] {
      var stride := |previous|;
      assert |rows| * (stride + 1) == (|rows| - 1) * (stride + 1) + (stride + 1);
      var line, rest := raw[1..1 + stride], raw[1 + stride..];
      forall x: nat | x < stride ensures IsRebuilt(raw[0], line[x], previous, rows[0], channels, x) {
        assert RebuiltAt(raw, stride, previous, channels, rows, 0, x);
      }
      RowOnce(raw[0], line, previous, channels, rows[0]);
      forall y: nat, x: nat | y < |rows| - 1 && x < stride
        ensures RebuiltAt(rest, stride, rows[0], channels, rows[1..], y, x)
      {
        assert RebuiltAt(raw, stride, previous, channels, rows, y + 1, x);
        LineBefore(raw, rest, stride, y + 1, x);
      }
      RebuiltRead(rest, rows[0], channels, rows[1..]);
      assert [rows[0]] + rows[1..] == rows;
    }
  }

  lemma LineBefore(raw: seq<byte>, rest: seq<byte>, stride: nat, y: nat, x: nat)
    requires y > 0 && 1 + stride <= |raw| && rest == raw[1 + stride..] && y * (stride + 1) + 1 + x < |raw|
    ensures var line := (y - 1) * (stride + 1);
            0 <= line && line + 1 + x < |rest| && rest[line] == raw[y * (stride + 1)]
                && rest[line + 1 + x] == raw[y * (stride + 1) + 1 + x]
  {
    assert y * (stride + 1) == (y - 1) * (stride + 1) + (stride + 1);
  }

  lemma NoneAbove(raw: seq<byte>, black: Row, channels: nat, rows: seq<Row>, y: nat, x: nat)
    requires black == Black(|black|)
    ensures IsDecoded(raw, |black|, channels, rows, y, x) <==> RebuiltAt(raw, |black|, black, channels, rows, y, x)
  {
    hide IsPredicted;
    assert ByteAt(black, x) == ByteAt([], x) && ByteAt(black, x - channels) == ByteAt([], x - channels);
  }

  // ----- the chunks

  /** A whole chunk: a length, four letters, so many bytes of data, and four of checksum. */
  predicate IsChunk(c: seq<byte>) {
    |c| >= 12 && GetU32(c[..4]) == |c| - 12
  }

  type Piece = c: seq<byte> | IsChunk(c) witness [0, 0, 0, 0, 0, 0, 0, 0, 0, 0, 0, 0]

  function Kind(c: Piece): seq<byte> { c[4..8] }

  function Payload(c: Piece): seq<byte> { c[8..|c| - 4] }

  /** A header the codec supports: two sizes, eight bits a sample, a colour type without a palette, and
      no interlacing. Compression and filter method are not looked at. */
  ghost predicate IsHeader(data: seq<byte>, h: Header) {
    && |data| >= 13 && h.width == GetU32(data[..4]) && h.height == GetU32(data[4..8])
    && data[8] == 8 && data[9] == h.colorType && data[12] == 0
  }

  lemma ReadHeaderMeans(c: Piece, tail: seq<byte>, h: Header)
    ensures ReadHeader(c + tail, Payload(c)) == Ok(h) <==> IsHeader(Payload(c), h)
  {
    var rest, data := c + tail, Payload(c);
    hide GetU32;
    if |data| >= 13 {
      assert forall i :: 0 <= i < 8 ==> rest[8 + i] == data[i];
      assert rest[8..12] == data[..4] && rest[12..16] == data[4..8];
    }
  }

  /** Why a header is refused: sizes past the end of the file, then its depth, its interlacing and its
      colour type, a missing byte counting as a wrong one. */
  lemma HeaderRefused(rest: seq<byte>, data: seq<byte>)
    ensures var r := ReadHeader(rest, data);
            var deep := |data| > 8 && data[8] == 8;
            var plain := |data| > 12 && data[12] == 0;
            && (r == Err(OutOfRange) <==> |rest| <= 15)
            && (r == Err(BitDepth) <==> |rest| > 15 && !deep)
            && (r == Err(Interlaced) <==> |rest| > 15 && deep && !plain)
            && (r == Err(ColourType) <==> |rest| > 15 && deep && plain && data[9] !in {0, 2, 4, 6})
  {
    hide GetU32;
  }

  /** The data of every IDAT chunk. */
  function ImageData(chunks: seq<Piece>): seq<seq<byte>> {
    if chunks == [] then []
    else
      var last := chunks[|chunks| - 1];
      ImageData(chunks[..|chunks| - 1]) + if Kind(last) == Ascii("IDAT") then [Payload(last)] else []
  }

  ghost predicate HasKind(chunks: seq<Piece>, kind: seq<byte>) {
    exists c :: c in chunks && Kind(c) == kind
  }

  /** Every chunk before the first IDAT that is neither a header nor a palette. */
  ghost function Carried(chunks: seq<Piece>): seq<seq<byte>> {
    if chunks == [] then []
    else
      var front, last := chunks[..|chunks| - 1], chunks[|chunks| - 1];
      Carried(front) + if HasKind(front, Ascii("IDAT")) || Kind(last) in {Ascii("IHDR"), Ascii("PLTE"), Ascii("IDAT")}
                       then [] else [last]
  }

  /** The last chunk of the kind. */
  function LastOf(chunks: seq<Piece>, kind: seq<byte>): Option<Piece> {
    if chunks == [] then None
    else if Kind(chunks[|chunks| - 1]) == kind then Some(chunks[|chunks| - 1])
    else LastOf(chunks[..|chunks| - 1], kind)
  }

  /** The header is that of the last IHDR chunk, and every one before it is supported as well. */
  ghost predicate IsLastHeader(chunks: seq<Piece>, header: Option<Header>) {
    && (forall c :: c in chunks && Kind(c) == Ascii("IHDR") ==> exists h :: IsHeader(Payload(c), h))
    && match LastOf(chunks, Ascii("IHDR"))
       case None => header.None?
       case Some(c) => header.Some? && IsHeader(Payload(c), header.value)
  }

  /** What the chunks before the end hold. */
  ghost predicate IsGathered(chunks: seq<Piece>, g: Gathered) {
    IsLastHeader(chunks, g.header) && g.idat == ImageData(chunks) && g.ancillary == Carried(chunks)
  }

  lemma {:induction false} PicturedIff(chunks: seq<Piece>)
    ensures ImageData(chunks) != [] <==> HasKind(chunks, Ascii("IDAT"))
  {
    if chunks != [] {
      var front, last := chunks[..|chunks| - 1], chunks[|chunks| - 1];
      PicturedIff(front);
      assert chunks == front + [last];
    }
  }

  lemma HeaderStep(front: seq<Piece>, last: Piece, was: Option<Header>, header: Option<Header>)
    requires IsLastHeader(front, was)
    ensures Kind(last) != Ascii("IHDR") ==> (IsLastHeader(front + [last], header) <==> header == was)
    ensures Kind(last) == Ascii("IHDR") ==>
              (IsLastHeader(front + [last], header) <==> header.Some? && IsHeader(Payload(last), header.value))
  {
    var all := front + [last];
    assert all[..|front|] == front && all[|front|] == last;
    assert LastOf(all, Ascii("IHDR"))
        == if Kind(last) == Ascii("IHDR") then Some(last) else LastOf(front, Ascii("IHDR"));
    assert forall c :: c in all <==> c in front || c == last;
    if h :| IsHeader(Payload(last), h) {
      assert forall k :: IsHeader(Payload(last), k) ==> k == h;
    }
    hide LastOf, IsHeader, Kind, Payload, Ascii;
  }

  lemma DataStep(front: seq<Piece>, last: Piece)
    ensures ImageData(front + [last])
         == ImageData(front) + if Kind(last) == Ascii("IDAT") then [Payload(last)] else []
    ensures Carried(front + [last])
         == Carried(front)
             + if HasKind(front, Ascii("IDAT")) || Kind(last) in {Ascii("IHDR"), Ascii("PLTE"), Ascii("IDAT")}
                             then [] else [last]
  {
    assert (front + [last])[..|front|] == front;
  }

  ghost predicate IsTurn(c: Piece, was: Gathered, g: Gathered) {
    if Kind(c) == IHDR then g.header.Some? && IsHeader(Payload(c), g.header.value) && g == was.(header := g.header)
    else if Kind(c) == IDAT then g == was.(idat := was.idat + [Payload(c)])
    else if was.idat == [] && Kind(c) != PLTE then g == was.(ancillary := was.ancillary + [c])
    else g == was
  }

  lemma TakeIsTurn(c: Piece, tail: seq<byte>, was: Gathered, g: Gathered)
    ensures TakeChunk(c + tail, |c|, was) == Ok(g) <==> IsTurn(c, was, g)
  {
    var rest := c + tail;
    assert rest[4..8] == Kind(c) && rest[8..|c| - 4] == Payload(c) && rest[..|c|] == c;
    if g.header.Some? {
      ReadHeaderMeans(c, tail, g.header.value);
    }
    hide Kind, Payload, IsHeader, ReadHeader, IsChunk;
  }

  /** One turn of the loop, on a chunk that is not the end. */
  lemma TurnMeans(front: seq<Piece>, c: Piece, was: Gathered, g: Gathered)
    requires IsGathered(front, was)
    ensures IsTurn(c, was, g) <==> IsGathered(front + [c], g)
  {
    NamesSpelled();
    PicturedIff(front);
    HeaderStep(front, c, was.header, g.header);
    DataStep(front, c);
    assert IHDR != PLTE && PLTE != IDAT && IDAT != IHDR by {
      assert IHDR[1] == 72 && PLTE[1] == 76 && IDAT[1] == 68;
    }
    hide Ascii, Kind, Payload, ImageData, Carried, IsLastHeader, HasKind, IsHeader, IsChunk;
  }

  /** The bytes are chunks up to the first that ends the image, and anything after that. */
  ghost predicate IsFramed(rest: seq<byte>, chunks: seq<Piece>, end: Piece, tail: seq<byte>) {
    rest == Concat(chunks) + end + tail && Kind(end) == Ascii("IEND") && !HasKind(chunks, Ascii("IEND"))
  }

  ghost predicate IsRead(rest: seq<byte>, front: seq<Piece>, chunks: seq<Piece>, g: Gathered) {
    IsGathered(front + chunks, g) && exists end, tail :: IsFramed(rest, chunks, end, tail)
  }

  lemma ReadOne(rest: seq<byte>, was: Gathered, c: Piece, tail: seq<byte>)
    requires rest == c + tail
    ensures Kind(c) == Ascii("IEND") ==> ReadChunks(rest, was) == if was.header.None? then Err(NoHeader) else Ok(was)
    ensures Kind(c) != Ascii("IEND") ==>
              var next := TakeChunk(rest, |c|, was);
              ReadChunks(rest, was) == if next.Err? then Err(next.error) else ReadChunks(tail, next.value)
  {
    NamesSpelled();
    assert rest[0..4] == c[..4] && rest[4..8] == Kind(c) && rest[|c|..] == tail;
    hide TakeChunk, GetU32;
  }

  lemma FirstPiece(rest: seq<byte>)
    requires |rest| >= 12 && 12 + GetU32(rest[0..4]) <= |rest|
    ensures IsChunk(rest[..12 + GetU32(rest[0..4])])
  {
    var c := rest[..12 + GetU32(rest[0..4])];
    assert c[..4] == rest[0..4];
  }

  lemma FramedCons(rest: seq<byte>, c: Piece, more: seq<byte>, chunks: seq<Piece>, end: Piece, tail: seq<byte>)
    requires rest == c + more && Kind(c) != Ascii("IEND") && IsFramed(more, chunks, end, tail)
    ensures IsFramed(rest, [c] + chunks, end, tail)
  {
    assert Concat([c] + chunks) == c + Concat(chunks);
    hide Kind, Ascii, Concat;
  }

  lemma EndIsRead(front: seq<Piece>, rest: seq<byte>, c: Piece, tail: seq<byte>, g: Gathered)
    requires rest == c + tail && Kind(c) == Ascii("IEND") && IsGathered(front, g)
    ensures IsRead(rest, front, [], g)
  {
    hide IsGathered, Kind, Ascii;
    assert front + [] == front && Concat([]) + c + tail == rest;
    assert IsFramed(rest, [], c, tail);
  }

  lemma ChunkIsRead(front: seq<Piece>, rest: seq<byte>, c: Piece, tail: seq<byte>, chunks: seq<Piece>, g: Gathered)
    requires rest == c + tail && Kind(c) != Ascii("IEND") && IsRead(tail, front + [c], chunks, g)
    ensures IsRead(rest, front, [c] + chunks, g)
  {
    hide IsGathered, Kind, Ascii, IsFramed;
    var end, after :| IsFramed(tail, chunks, end, after);
    FramedCons(rest, c, tail, chunks, end, after);
    assert front + [c] + chunks == front + ([c] + chunks);
  }

  lemma ChunkAhead(rest: seq<byte>, was: Gathered, g: Gathered)
    requires ReadChunks(rest, was) == Ok(g)
    ensures |rest| >= 12 && 12 + GetU32(rest[0..4]) <= |rest|
  {
    hide TakeChunk, GetU32;
  }

  lemma Halves(rest: seq<byte>, n: nat)
    requires n <= |rest|
    ensures rest == rest[..n] + rest[n..]
  {}

  /** What was read is what the chunks hold. */
  lemma {:induction false} ReadIsFramed(front: seq<Piece>, rest: seq<byte>, was: Gathered, g: Gathered)
    requires IsGathered(front, was) && ReadChunks(rest, was) == Ok(g)
    ensures exists chunks :: IsRead(rest, front, chunks, g)
    decreases |rest|
  {
    hide *;
    ChunkAhead(rest, was, g);
    FirstPiece(rest);
    var n := 12 + GetU32(rest[0..4]);
    var c: Piece, tail := rest[..n], rest[n..];
    Halves(rest, n);
    ReadOne(rest, was, c, tail);
    if Kind(c) == Ascii("IEND") {
      EndIsRead(front, rest, c, tail, g);
    } else {
      var next := TakeChunk(rest, n, was).value;
      TakeIsTurn(c, tail, was, next);
      TurnMeans(front, c, was, next);
      ReadIsFramed(front + [c], tail, next, g);
      var chunks :| IsRead(tail, front + [c], chunks, g);
      ChunkIsRead(front, rest, c, tail, chunks, g);
    }
  }

  lemma GatheredOnce(chunks: seq<Piece>, g: Gathered, h: Gathered)
    requires IsGathered(chunks, g) && IsGathered(chunks, h)
    ensures g == h
  {}

  lemma SomeTurn(chunks: seq<Piece>, c: Piece, was: Gathered, g: Gathered) returns (next: Gathered)
    requires c in chunks && IsGathered(chunks, g)
    ensures IsTurn(c, was, next)
  {
    NamesSpelled();
    var h :| Kind(c) == IHDR ==> IsHeader(Payload(c), h);
    next := if Kind(c) == IHDR then was.(header := Some(h))
            else if Kind(c) == IDAT then was.(idat := was.idat + [Payload(c)])
            else if was.idat == [] && Kind(c) != PLTE then was.(ancillary := was.ancillary + [c])
            else was;
  }

  lemma FramedRest(rest: seq<byte>, chunks: seq<Piece>, end: Piece, tail: seq<byte>)
    requires chunks != [] && IsFramed(rest, chunks, end, tail)
    ensures Kind(chunks[0]) != Ascii("IEND") && |chunks[0]| <= |rest|
    ensures rest == chunks[0] + rest[|chunks[0]|..] && IsFramed(rest[|chunks[0]|..], chunks[1..], end, tail)
  {
    var c, more := chunks[0], Concat(chunks[1..]) + end + tail;
    assert rest == c + more;
    hide Kind, Ascii;
  }

  /** What the chunks hold is read. */
  lemma {:induction false} FramedIsRead(front: seq<Piece>, rest: seq<byte>, was: Gathered, chunks: seq<Piece>,
                                        g: Gathered)
    requires IsGathered(front, was) && IsRead(rest, front, chunks, g) && g.header.Some?
    ensures ReadChunks(rest, was) == Ok(g)
    decreases |chunks|
  {
    hide IsGathered, Kind, Ascii, TakeChunk, HasKind, IsTurn, ReadChunks;
    var end, tail :| IsFramed(rest, chunks, end, tail);
    if chunks == [] {
      assert front + chunks == front && Concat(chunks) + end + tail == end + tail;
      GatheredOnce(front, was, g);
      ReadOne(rest, was, end, tail);
    } else {
      var c := chunks[0];
      FramedRest(rest, chunks, end, tail);
      var more := rest[|c|..];
      var next := SomeTurn(front + chunks, c, was, g);
      TakeIsTurn(c, more, was, next);
      TurnMeans(front, c, was, next);
      ReadOne(rest, was, c, more);
      assert front + chunks == front + [c] + chunks[1..];
      FramedIsRead(front + [c], more, next, chunks[1..], g);
    }
  }

  /** A file is read, with this result, exactly when it is a list of chunks up to an IEND that hold it
      and at least a header among them. */
  lemma ReadIff(rest: seq<byte>, g: Gathered)
    ensures ReadChunks(rest, Gathered(None, [], [])) == Ok(g)
       <==> g.header.Some? && exists chunks, end, tail :: IsFramed(rest, chunks, end, tail) && IsGathered(chunks, g)
  {
    hide *;
    var none := Gathered(None, [], []);
    NothingGathered();
    if ReadChunks(rest, none) == Ok(g) {
      ReadIsFramed([], rest, none, g);
      var chunks :| IsRead(rest, [], chunks, g);
      FromNothing(rest, chunks, g);
    }
    if chunks, end, tail :| g.header.Some? && IsFramed(rest, chunks, end, tail) && IsGathered(chunks, g) {
      FromNothing(rest, chunks, g);
      FramedIsRead([], rest, none, chunks, g);
    }
  }

  lemma NothingGathered()
    ensures IsGathered([], Gathered(None, [], []))
  {}

  lemma FromNothing(rest: seq<byte>, chunks: seq<Piece>, g: Gathered)
    ensures IsRead(rest, [], chunks, g)
       <==> IsGathered(chunks, g) && exists end, tail :: IsFramed(rest, chunks, end, tail)
  {
    hide IsGathered, IsFramed;
    assert [] + chunks == chunks;
  }

  // ----- the whole file

  /** The data has a line for every row, and every byte of the rows is rebuilt from it. */
  ghost predicate HoldsRows(data: seq<byte>, stride: nat, channels: nat, height: nat, rows: seq<Row>) {
    && |data| >= (stride + 1) * height && |rows| == height && Strided(rows, stride)
    && forall y: nat, x: nat :: y < height && x < stride ==> IsDecoded(data, stride, channels, rows, y, x)
  }

  /** The file is the signature and chunks up to an IEND, `data` is what their image data inflates to,
      and the image has the size, the colour and the carried chunks they hold, and the rows of the data. */
  ghost predicate IsImage(z: Zlib, bytes: seq<byte>, chunks: seq<Piece>, data: seq<byte>, img: Image) {
    && |bytes| >= 8 && bytes[..8] == [0x89] + Ascii("PNG\r\n") + [0x1a] + Ascii("\n")
    && (exists end, tail :: IsFramed(bytes[8..], chunks, end, tail))
    && IsLastHeader(chunks, Some(Header(img.width, img.height, img.colorType)))
    && Channels(img.colorType) == Some(img.channels) && img.ancillary == Carried(chunks)
    && z.inflate(Concat(ImageData(chunks))) == Some(data)
    && HoldsRows(data, img.width * img.channels, img.channels, img.height, img.rows)
  }

  /** Decoding gives an image exactly when the file is one of it. */
  lemma DecodedIff(z: Zlib, bytes: seq<byte>, img: Image)
    ensures Decode(z, bytes) == Ok(img) <==> exists chunks, data :: IsImage(z, bytes, chunks, data, img)
  {
    hide IsImage;
    if Decode(z, bytes) == Ok(img) {
      DecodedIsImage(z, bytes, img);
    }
    if chunks, data :| IsImage(z, bytes, chunks, data, img) {
      ImageIsDecoded(z, bytes, chunks, data, img);
    }
  }

  lemma DecodedIsImage(z: Zlib, bytes: seq<byte>, img: Image)
    requires Decode(z, bytes) == Ok(img)
    ensures exists chunks, data :: IsImage(z, bytes, chunks, data, img)
  {
    hide IsFramed, IsDecoded, ReadChunks, ReadRows, RebuiltAt, IsLastHeader, Carried, ImageData, Strided;
    NamesSpelled();
    var g := ReadChunks(bytes[8..], Gathered(None, [], [])).value;
    ReadIff(bytes[8..], g);
    var chunks, end, tail :| IsFramed(bytes[8..], chunks, end, tail) && IsGathered(chunks, g);
    var data := z.inflate(Concat(g.idat)).value;
    var stride := img.width * img.channels;
    DecodedWellFormed(z, bytes);
    assert (stride + 1) * img.height == img.height * (stride + 1);
    forall y: nat, x: nat | y < img.height && x < stride
      ensures IsDecoded(data, stride, img.channels, img.rows, y, x)
    {
      RowsRebuilt(data, img.height, Black(stride), img.channels, img.rows, y, x);
      NoneAbove(data, Black(stride), img.channels, img.rows, y, x);
    }
    assert IsImage(z, bytes, chunks, data, img);
  }

  lemma ImageIsDecoded(z: Zlib, bytes: seq<byte>, chunks: seq<Piece>, data: seq<byte>, img: Image)
    requires IsImage(z, bytes, chunks, data, img)
    ensures Decode(z, bytes) == Ok(img)
  {
    hide IsFramed, IsDecoded, ReadChunks, ReadRows, RebuiltAt, IsLastHeader, Carried, ImageData;
    NamesSpelled();
    var g := Gathered(Some(Header(img.width, img.height, img.colorType)), ImageData(chunks), Carried(chunks));
    ReadIff(bytes[8..], g);
    var stride := img.width * img.channels;
    assert (stride + 1) * img.height == img.height * (stride + 1);
    forall y: nat, x: nat | y < img.height && x < stride
      ensures RebuiltAt(data, stride, Black(stride), img.channels, img.rows, y, x)
    {
      assert IsDecoded(data, stride, img.channels, img.rows, y, x);
      NoneAbove(data, Black(stride), img.channels, img.rows, y, x);
    }
    RebuiltRead(data, Black(stride), img.channels, img.rows);
  }

  lemma ChunkParts(length: seq<byte>, kind: seq<byte>, data: seq<byte>, crc: seq<byte>)
    requires |length| == |kind| == |crc| == 4
    ensures var c := length + kind + data + crc;
            c[..4] == length && c[4..8] == kind && c[8..8 + |data|] == data
  {}

  lemma HeaderParts(width: nat, height: nat, colorType: byte)
    requires width < TWO_TO_THE_32 && height < TWO_TO_THE_32
    ensures var data := HeaderData(width, height, colorType);
            GetU32(data[..4]) == width && GetU32(data[4..8]) == height && data[8..] == [8, colorType, 0, 0, 0]
  {
    U32RoundTrip(width);
    U32RoundTrip(height);
    hide PutU32, GetU32;
    var data := HeaderData(width, height, colorType);
    assert data[..4] == PutU32(width) && data[4..8] == PutU32(height);
  }

  /** The encoder's header chunk holds thirteen bytes: the two sizes, eight bits a sample, the colour
      type, and the only compression, filter method and lack of interlacing there are. */
  lemma EncodedHeader(width: nat, height: nat, colorType: byte)
    requires width < TWO_TO_THE_32 && height < TWO_TO_THE_32
    ensures var c := Chunk(IHDR, HeaderData(width, height, colorType));
            c[..4] == [0, 0, 0, 13] && c[4..8] == Ascii("IHDR")
    ensures var data := Chunk(IHDR, HeaderData(width, height, colorType))[8..21];
            GetU32(data[..4]) == width && GetU32(data[4..8]) == height && data[8..] == [8, colorType, 0, 0, 0]
  {
    var data := HeaderData(width, height, colorType);
    assert PutU32(13) == [0, 0, 0, 13];
    HeaderParts(width, height, colorType);
    NamesSpelled();
    hide Ascii, GetU32, Crc32.Reference, Crc32.Number, PutU32, HeaderData;
    ChunkParts(PutU32(13), IHDR, data, PutU32(Crc32.Number(Crc32.Reference(IHDR + data))));
  }
}
