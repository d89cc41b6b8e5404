/** `encodePng` and `decodePng` as the program runs them: candidate rows overwritten in place, one
    output buffer filled row by row, an offset walking over the chunks. Each is proved equal to its
    specification in `Png`. */
module PngCodec {
  import opened Wrappers
  import opened Bytes
  import opened Png

  // ----- which filter the encoder picks

  /** The sum of the residuals read as signed bytes, without their signs. */
  function Score(line: Row): nat {
    if line == [] then 0
    else (var v: int := line[|line| - 1]; Score(line[..|line| - 1]) + if v < 128 then v else 256 - v)
  }

  function ScoreOf(filter: nat, row: Row, previous: Row, channels: nat): nat
    requires filter < 5 && |row| == |previous|
  {
    Score(FilterRow(filter, row, previous, channels))
  }

  /** The first of the filters below `n` with the least score. */
  function BestOf(n: nat, row: Row, previous: Row, channels: nat): (best: nat)
    requires 1 <= n <= 5 && |row| == |previous|
    ensures best < n
    ensures forall f :: 0 <= f < n ==> ScoreOf(best, row, previous, channels) <= ScoreOf(f, row, previous, channels)
    ensures forall f :: 0 <= f < best ==> ScoreOf(best, row, previous, channels) < ScoreOf(f, row, previous, channels)
  {
    if n == 1 then 0 else
      var b := BestOf(n - 1, row, previous, channels);
      if ScoreOf(n - 1, row, previous, channels) < ScoreOf(b, row, previous, channels) then n - 1 else b
  }

  /** The encoder's choice for every row. */
  function BestFilters(rows: seq<Row>, previous: Row, channels: nat): (r: seq<nat>)
    requires Strided(rows, |previous|)
    ensures |r| == |rows| && forall y :: 0 <= y < |r| ==> r[y] < 5
  {
    if rows == [] then []
    else [BestOf(5, rows[0], previous, channels)] + BestFilters(rows[1..], rows[0], channels)
  }

  /** The filtered image the encoder compresses. */
  function Filtered(rows: seq<Row>, previous: Row, channels: nat): seq<byte>
    requires Strided(rows, |previous|)
  {
    Scanlines(BestFilters(rows, previous, channels), rows, previous, channels)
  }

  lemma FilteredStep(rows: seq<Row>, previous: Row, channels: nat)
    requires Strided(rows, |previous|) && rows != []
    ensures var best := BestOf(5, rows[0], previous, channels);
            Filtered(rows, previous, channels)
            == [best] + FilterRow(best, rows[0], previous, channels) + Filtered(rows[1..], rows[0], channels)
  {
    var f := BestFilters(rows, previous, channels);
    assert f[1..] == BestFilters(rows[1..], rows[0], channels);
  }

  method TryFilter(filter: nat, row: Row, previous: Row, channels: nat, out: array<byte>) returns (score: nat)
    requires filter < 5 && |row| == |previous| == out.Length
    modifies out
    ensures out[..] == FilterRow(filter, row, previous, channels)
    ensures score == ScoreOf(filter, row, previous, channels)
  {
    score := 0;
    ghost var line := FilterRow(filter, row, previous, channels);
    for i := 0 to |row|
      invariant out[..i] == line[..i]
      invariant score == Score(line[..i])
    {
      var value: int := (row[i] - PredictorAt(filter, row, previous, channels, i)) % 256;
      out[i] := value;
      score := score + if value < 128 then value else 256 - value;
      assert line[..i + 1][..i] == line[..i];
    }
    assert line[..|row|] == line;
    assert out[..|row|] == out[..];
  }

  ghost predicate Distinct(candidates: seq<array<byte>>, stride: nat) {
    && |candidates| == 5
    && (forall f :: 0 <= f < 5 ==> candidates[f].Length == stride)
    && (forall f, g :: 0 <= f < g < 5 ==> candidates[f] != candidates[g])
  }

  method ChooseFilter(row: Row, previous: Row, channels: nat, candidates: seq<array<byte>>) returns (best: nat)
    requires |row| == |previous| && Distinct(candidates, |row|)
    modifies candidates
    ensures best == BestOf(5, row, previous, channels)
    ensures candidates[best][..] == FilterRow(best, row, previous, channels)
  {
    best := 0;
    var bestScore := TryFilter(0, row, previous, channels, candidates[0]);
    for filter := 1 to 5
      invariant best == BestOf(filter, row, previous, channels)
      invariant bestScore == ScoreOf(best, row, previous, channels)
      invariant forall f :: 0 <= f < filter ==> candidates[f][..] == FilterRow(f, row, previous, channels)
    {
      var score := TryFilter(filter, row, previous, channels, candidates[filter]);
      if score < bestScore {
        bestScore := score;
        best := filter;
      }
    }
  }

  /** The best filter of one row, and the row filtered by it written after what is there. */
  method WriteRow(row: Row, previous: Row, channels: nat, candidates: seq<array<byte>>, filtered: array<byte>,
                  start: nat)
    requires |row| == |previous| && Distinct(candidates, |row|)
    requires start + 1 + |row| <= filtered.Length && filtered !in candidates
    modifies candidates, filtered
    ensures var best := BestOf(5, row, previous, channels);
            filtered[..start + 1 + |row|] == old(filtered[..start])
                + ([best] + FilterRow(best, row, previous, channels))
  {
    var best := ChooseFilter(row, previous, channels, candidates);
    var candidate := candidates[best];
    filtered[start] := best;
    forall i | 0 <= i < candidate.Length {
      filtered[start + 1 + i] := candidate[i];
    }
    assert filtered[start + 1..start + 1 + |row|] == candidate[..];
  }

  method NewCandidates(stride: nat) returns (candidates: seq<array<byte>>)
    ensures Distinct(candidates, stride) && fresh(candidates)
  {
    candidates := [];
    for f := 0 to 5
      invariant |candidates| == f && fresh(candidates)
      invariant forall g :: 0 <= g < f ==> candidates[g].Length == stride
      invariant forall g, h :: 0 <= g < h < f ==> candidates[g] != candidates[h]
    {
      var c := new byte[stride];
      candidates := candidates + [c];
    }
  }

  /** Row `y` is the first whose length is not the stride. */
  ghost predicate FirstBadRow(rows: seq<Row>, stride: nat, y: nat) {
    y < |rows| && |rows[y]| != stride && forall k :: 0 <= k < y ==> |rows[k]| == stride
  }

  /** The row loop, filling the output buffer. */
  method FilterRows(rows: seq<Row>, stride: nat, channels: nat, candidates: seq<array<byte>>, filtered: array<byte>)
    returns (bad: Option<nat>)
    requires Distinct(candidates, stride) && filtered !in candidates && filtered.Length == |rows| * (stride + 1)
    modifies candidates, filtered
    ensures bad.None? ==> Strided(rows, stride) && filtered[..] == Filtered(rows, Black(stride), channels)
    ensures bad.Some? ==> FirstBadRow(rows, stride, bad.value)
  {
    hide Filtered, FilterRow, BestOf;
    var previous := Black(stride);
    var start := 0;
    assert rows[0..] == rows;
    for y := 0 to |rows|
      invariant |previous| == stride && forall k :: 0 <= k < y ==> |rows[k]| == stride
      invariant start == y * (stride + 1) <= filtered.Length
      invariant Strided(rows, stride) ==>
                  filtered[..start] + Filtered(rows[y..], previous, channels) == Filtered(rows, Black(stride), channels)
    {
      var row := rows[y];
      if |row| != stride {
        bad := Some(y);
        return;
      }
      RowFits(y, |rows|, stride);
      ghost var done := filtered[..start];
      WriteRow(row, previous, channels, candidates, filtered, start);
      FilteredRest(rows, y, previous, channels, done, filtered[..start + 1 + stride]);
      start := start + 1 + stride;
      previous := row;
    }
    bad := None;
    FilteredNothing(previous, channels);
    assert rows[|rows|..] == [];
    assert filtered[..start] == filtered[..] == filtered[..start] + [];
  }

  /** The filtered image, or the exception naming the first row whose length is not the stride. */
  method FilterImage(rows: seq<Row>, stride: nat, channels: nat) returns (r: Result<seq<byte>, Error>)
    ensures Strided(rows, stride) ==> r == Ok(Filtered(rows, Black(stride), channels))
    ensures !Strided(rows, stride) ==> r.Err? && r.error.RowLength? && FirstBadRow(rows, stride, r.error.y)
  {
    var filtered := new byte[|rows| * (stride + 1)];
    var candidates := NewCandidates(stride);
    var bad := FilterRows(rows, stride, channels, candidates, filtered);
    r := match bad
      case Some(y) => Err(RowLength(y))
      case None => Ok(filtered[..]);
  }

  lemma FilteredNothing(previous: Row, channels: nat)
    ensures Filtered([], previous, channels) == []
  {}

  lemma FilteredRest(rows: seq<Row>, y: nat, previous: Row, channels: nat, done: seq<byte>, now: seq<byte>)
    requires y < |rows| && |rows[y]| == |previous|
    requires var best := BestOf(5, rows[y], previous, channels);
             now == done + ([best] + FilterRow(best, rows[y], previous, channels))
    ensures Strided(rows, |previous|) ==>
              now + Filtered(rows[y + 1..], rows[y], channels) == done + Filtered(rows[y..], previous, channels)
  {
    if !Strided(rows, |previous|) { return; }
    FilteredStep(rows[y..], previous, channels);
    assert rows[y..][1..] == rows[y + 1..];
  }

  lemma RowFits(y: nat, n: nat, stride: nat)
    requires y < n
    ensures (y + 1) * (stride + 1) == y * (stride + 1) + stride + 1 <= n * (stride + 1)
  {
    assert (n - (y + 1)) * (stride + 1) >= 0;
  }

  /** `encodePng`: the file of the image with the best filter on every row, or the exception. */
  method EncodePng(z: Zlib, width: nat, colorType: byte, rows: seq<Row>, ancillary: seq<seq<byte>>)
    returns (r: Result<seq<byte>, Error>)
    ensures r == Err(ColourType) <==> Channels(colorType).None?
    ensures r.Ok? <==> Channels(colorType).Some? && Strided(rows, width * Channels(colorType).value)
    ensures r.Ok? ==> r.value == Encoded(z, width, colorType, rows, ancillary)
  {
    if Channels(colorType).None? {
      r := Err(ColourType);
      return;
    }
    var channels := Channels(colorType).value;
    var raw := FilterImage(rows, width * channels, channels);
    if raw.Err? {
      r := Err(raw.error);
      return;
    }
    var head := Chunk(IHDR, HeaderData(width, |rows|, colorType));
    r := Ok(SIGNATURE + head + Concat(ancillary) + Chunk(IDAT, z.deflate(raw.value)) + Chunk(IEND, []));
  }

  function Encoded(z: Zlib, width: nat, colorType: byte, rows: seq<Row>, ancillary: seq<seq<byte>>): seq<byte>
    requires Channels(colorType).Some? && Strided(rows, width * Channels(colorType).value)
  {
    var channels := Channels(colorType).value;
    File(z, width, colorType, rows, ancillary, BestFilters(rows, Black(width * channels), channels))
  }

  // ----- decoding

  function Prepend(done: seq<Row>, more: Result<seq<Row>, Error>): Result<seq<Row>, Error> {
    match more
    case Err(e) => Err(e)
    case Ok(rows) => Ok(done + rows)
  }

  /** One row rebuilt in place, each byte from those already written. */
  method RebuildRow(filter: nat, line: Row, previous: Row, channels: nat) returns (row: array<byte>)
    requires filter < 5 && |line| == |previous|
    ensures fresh(row) && row[..] == UnfilterRow(filter, line, previous, channels)
  {
    row := new byte[|line|];
    for i := 0 to |line|
      invariant row[..i] == UnfilterPrefix(filter, line, previous, channels, i)
    {
      ghost var before := row[..i];
      var a := if i >= channels > 0 then row[i - channels] else 0;
      assert a == Left(before, i, channels);
      var predictor: int := Predictor(filter, a, previous[i], Left(previous, i, channels));
      row[i] := (line[i] + predictor) % 256;
      assert row[..i + 1] == before + [row[i]];
    }
    assert row[..|line|] == row[..];
  }

  /** What one turn of the row loop reads. */
  method RebuildNext(rest: seq<byte>, height: nat, previous: Row, channels: nat) returns (r: Result<Row, Error>)
    requires height > 0 && |rest| >= height * (|previous| + 1)
    ensures |rest| >= 1 + |previous| && |rest| - 1 - |previous| >= (height - 1) * (|previous| + 1)
    ensures r.Ok? ==> |r.value| == |previous|
    ensures r.Ok? ==> (var more := ReadRows(rest[1 + |previous|..], height - 1, r.value, channels);
                       ReadRows(rest, height, previous, channels) == Prepend([r.value], more))
    ensures r.Err? ==> ReadRows(rest, height, previous, channels) == Err(r.error)
  {
    var stride := |previous|;
    assert height * (stride + 1) == (height - 1) * (stride + 1) + (stride + 1);
    var filter := rest[0];
    if filter < 5 {
      var row := RebuildRow(filter, rest[1..1 + stride], previous, channels);
      r := Ok(row[..]);
    } else if stride > 0 {
      r := Err(BadFilter(filter));
    } else {
      r := Ok([]);
    }
  }

  lemma PrependNothing(more: Result<seq<Row>, Error>)
    ensures Prepend([], more) == more
  {
    if more.Ok? {
      assert [] + more.value == more.value;
    }
  }

  lemma PrependTwice(a: seq<Row>, row: Row, more: Result<seq<Row>, Error>)
    ensures Prepend(a, Prepend([row], more)) == Prepend(a + [row], more)
  {
    if more.Ok? {
      assert a + ([row] + more.value) == a + [row] + more.value;
    }
  }

  method RebuildRows(raw: seq<byte>, height: nat, stride: nat, channels: nat) returns (r: Result<seq<Row>, Error>)
    requires |raw| >= height * (stride + 1)
    ensures r == ReadRows(raw, height, Black(stride), channels)
  {
    hide ReadRows;
    var rows: seq<Row> := [];
    var previous := Black(stride);
    var rest := raw;
    PrependNothing(ReadRows(raw, height, previous, channels));
    for y := 0 to height
      invariant |previous| == stride && |rest| >= (height - y) * (stride + 1)
      invariant ReadRows(raw, height, Black(stride), channels)
             == Prepend(rows, ReadRows(rest, height - y, previous, channels))
    {
      var row := RebuildNext(rest, height - y, previous, channels);
      if row.Err? {
        r := Err(row.error);
        return;
      }
      rest := rest[1 + stride..];
      PrependTwice(rows, row.value, ReadRows(rest, height - y - 1, row.value, channels));
      rows := rows + [row.value];
      previous := row.value;
    }
    ReadNoRows(rest, previous, channels, rows);
    r := Ok(rows);
  }

  lemma ReadNoRows(rest: seq<byte>, previous: Row, channels: nat, rows: seq<Row>)
    ensures Prepend(rows, ReadRows(rest, 0, previous, channels)) == Ok(rows)
  {
    assert rows + [] == rows;
  }

  /** The chunk loop, from the offset after the signature. */
  method GatherChunks(bytes: seq<byte>, start: nat) returns (r: Result<Gathered, Error>)
    requires start <= |bytes|
    ensures r == ReadChunks(bytes[start..], Gathered(None, [], []))
  {
    hide TakeChunk, GetU32;
    var offset := start;
    var g := Gathered(None, [], []);
    while offset < |bytes|
      invariant start <= offset <= |bytes|
      invariant ReadChunks(bytes[start..], Gathered(None, [], [])) == ReadChunks(bytes[offset..], g)
    {
      var rest := bytes[offset..];
      if |rest| < 12 {
        r := Err(TruncatedChunk);
        return;
      }
      var end := 12 + GetU32(rest[0..4]);
      if end > |rest| {
        r := Err(TruncatedChunk);
        return;
      }
      if rest[4..8] == IEND {
        r := if g.header.None? then Err(NoHeader) else Ok(g);
        return;
      }
      var next := TakeChunk(rest, end, g);
      if next.Err? {
        r := Err(next.error);
        return;
      }
      g := next.value;
      assert rest[end..] == bytes[offset + end..];
      offset := offset + end;
    }
    r := Err(if g.header.None? then NoHeader else NoEnd);
  }

  /** `decodePng`. */
  method DecodePng(z: Zlib, bytes: seq<byte>) returns (r: Result<Image, Error>)
    ensures r == Decode(z, bytes)
  {
    if |bytes| < 8 || bytes[..8] != SIGNATURE {
      r := Err(BadSignature);
      return;
    }
    var gathered := GatherChunks(bytes, 8);
    if gathered.Err? {
      r := Err(gathered.error);
      return;
    }
    var g := gathered.value;
    var h := g.header.value;
    var channels := Channels(h.colorType).value;
    var stride := h.width * channels;
    var raw := z.inflate(Concat(g.idat));
    if raw.None? {
      r := Err(InflateFailed);
      return;
    }
    if |raw.value| < (stride + 1) * h.height {
      r := Err(TruncatedImageData);
      return;
    }
    assert (stride + 1) * h.height == h.height * (stride + 1);
    var rows := RebuildRows(raw.value, h.height, stride, channels);
    r := match rows
      case Err(e) => Err(e)
      case Ok(rs) => Ok(Image(h.width, h.height, h.colorType, channels, rs, g.ancillary));
  }
}
