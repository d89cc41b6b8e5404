/** `tilePng`: a PNG over the size limit cut into full-width strips that each fit. */
module PngTiler {
  import opened Wrappers
  import opened Bytes
  import opened Png
  import opened PngCodec

  datatype Tile = Tile(index: nat, count: nat, top: nat, height: nat, bytes: seq<byte>)

  datatype TileError = Undecodable(error: Error) | StripTooLarge

  // ----- the geometry of a cut into `count` strips

  function Height(total: nat, count: nat, i: nat): nat
    requires count > 0
  {
    total / count + if i < total % count then 1 else 0
  }

  function Top(total: nat, count: nat, i: nat): nat
    requires count > 0
  {
    if i == 0 then 0 else Top(total, count, i - 1) + Height(total, count, i - 1)
  }

  lemma {:induction false} TopClosedForm(total: nat, count: nat, i: nat)
    requires count > 0
    ensures Top(total, count, i) == i * (total / count) + if i < total % count then i else total % count
  {
    if i > 0 {
      TopClosedForm(total, count, i - 1);
      assert i * (total / count) == (i - 1) * (total / count) + total / count;
    }
  }

  lemma {:induction false} TopMonotone(total: nat, count: nat, i: nat, j: nat)
    requires count > 0 && i <= j
    ensures Top(total, count, i) <= Top(total, count, j)
  {
    if i < j {
      TopMonotone(total, count, i, j - 1);
    }
  }

  /** The strips cover the image exactly, are not empty, and differ in height by at most one row. */
  lemma StripsPartition(total: nat, count: nat)
    requires 0 < count <= total
    ensures Top(total, count, count) == total
    ensures forall i :: 0 <= i < count ==> Height(total, count, i) >= 1
    ensures forall i :: 0 <= i < count ==> Top(total, count, i) + Height(total, count, i) <= total
    ensures forall i, j :: 0 <= i < count && 0 <= j < count ==> Height(total, count, i) <= Height(total, count, j) + 1
  {
    TopClosedForm(total, count, count);
    assert count * (total / count) + total % count == total;
    assert total / count >= 1;
    forall i | 0 <= i < count ensures Top(total, count, i) + Height(total, count, i) <= total {
      TopMonotone(total, count, i + 1, count);
    }
  }

  // ----- the strips of an image

  /** `rows.slice(top, top + n)`. */
  function Slice(rows: seq<Row>, top: nat, n: nat): (r: seq<Row>)
    ensures forall stride :: Strided(rows, stride) ==> Strided(r, stride)
  {
    if top + n <= |rows| then rows[top..top + n] else if top <= |rows| then rows[top..] else []
  }

  function StripRows(img: Image, count: nat, i: nat): (r: seq<Row>)
    requires count > 0
    ensures forall stride :: Strided(img.rows, stride) ==> Strided(r, stride)
  {
    Slice(img.rows, Top(img.height, count, i), Height(img.height, count, i))
  }

  function StripBytes(z: Zlib, img: Image, count: nat, i: nat): seq<byte>
    requires WellFormed(img) && count > 0
  {
    Encoded(z, img.width, img.colorType, StripRows(img, count, i), img.ancillary)
  }

  ghost predicate AllFit(z: Zlib, img: Image, count: nat, max: int)
    requires WellFormed(img) && count > 0
  {
    count <= img.height && forall i :: 0 <= i < count ==> |StripBytes(z, img, count, i)| <= max
  }

  /** `Math.max(2, Math.ceil(bytes / max))`. A limit of zero divides to infinity and a negative one
      to a number below two; no strip fits either. */
  function StartCount(size: nat, max: int): (n: nat)
    ensures n >= 2 && (max <= 0 ==> n == 2)
    ensures max > 0 ==> n * max >= size && (n > 2 ==> (n - 1) * max < size)
  {
    if max <= 0 then 2 else
      var ceiling := (size + max - 1) / max;
      CeilingBounds(size, max);
      if ceiling > 2 then ceiling else (assert 2 * max >= ceiling * max; 2)
  }

  lemma CeilingBounds(size: nat, max: int)
    requires max > 0
    ensures var c := (size + max - 1) / max; c * max >= size && (c - 1) * max < size
  {
    var c := (size + max - 1) / max;
    assert size + max - 1 == c * max + (size + max - 1) % max;
  }

  /** The tiles are exactly the strips of the cut into `count`, in order. */
  ghost predicate IsTiling(z: Zlib, img: Image, count: nat, tiles: seq<Tile>)
    requires WellFormed(img) && count > 0
  {
    |tiles| == count && forall i :: 0 <= i < count ==> tiles[i] == TileAt(z, img, count, i)
  }

  ghost function TileAt(z: Zlib, img: Image, count: nat, i: nat): Tile
    requires WellFormed(img) && count > 0
  {
    Tile(i + 1, count, Top(img.height, count, i), Height(img.height, count, i), StripBytes(z, img, count, i))
  }

  method EncodeStrip(z: Zlib, img: Image, ghost count: nat, ghost i: nat, top: nat, height: nat) returns (r: seq<byte>)
    requires WellFormed(img) && count > 0 && top == Top(img.height, count, i) && height == Height(img.height, count, i)
    ensures r == StripBytes(z, img, count, i)
  {
    var encoded := EncodePng(z, img.width, img.colorType, Slice(img.rows, top, height), img.ancillary);
    r := encoded.value;
  }

  /** One try with a given count, stopping at the first strip over the limit. */
  method TryCount(z: Zlib, img: Image, count: nat, max: int) returns (tiles: seq<Tile>)
    requires WellFormed(img) && 0 < count <= img.height
    ensures |tiles| == count <==> AllFit(z, img, count, max)
    ensures |tiles| == count ==> IsTiling(z, img, count, tiles)
  {
    hide WellFormed, Strided, Slice, Encoded, StripBytes;
    var base := img.height / count;
    var extra := img.height % count;
    tiles := [];
    var top := 0;
    for i := 0 to count
      invariant |tiles| == i && top == Top(img.height, count, i)
      invariant forall k :: 0 <= k < i ==> tiles[k] == TileAt(z, img, count, k) && |StripBytes(z, img, count, k)| <= max
    {
      var height := base + if i < extra then 1 else 0;
      assert height == Height(img.height, count, i);
      var encoded := EncodeStrip(z, img, count, i, top, height);
      if |encoded| > max {
        return;
      }
      tiles := tiles + [Tile(i + 1, count, top, height, encoded)];
      top := top + height;
    }
  }

  /** `None` for a file already within the limit; otherwise the strips of the least count that
      fits, from the starting count up to one row per strip, or the exception when none does. The
      size of an encoded strip need not shrink with its height. */
  method TilePng(z: Zlib, bytes: seq<byte>, max: int) returns (r: Result<Option<seq<Tile>>, TileError>)
    ensures r == Ok(None) <==> |bytes| <= max
    ensures |bytes| > max && Decode(z, bytes).Err? ==> r == Err(Undecodable(Decode(z, bytes).error))
    ensures |bytes| > max && Decode(z, bytes).Ok? ==> WellFormed(Decode(z, bytes).value)
    ensures |bytes| > max && Decode(z, bytes).Ok? && r.Ok? ==>
              var img := Decode(z, bytes).value;
              var count := |r.value.value|;
              && count >= StartCount(|bytes|, max) && AllFit(z, img, count, max)
              && (forall c: nat :: StartCount(|bytes|, max) <= c < count ==> !AllFit(z, img, c, max))
              && IsTiling(z, img, count, r.value.value)
    ensures |bytes| > max && Decode(z, bytes).Ok? && r.Err? ==>
              && r == Err(StripTooLarge)
              && forall c: nat :: StartCount(|bytes|, max) <= c ==> !AllFit(z, Decode(z, bytes).value, c, max)
  {
    hide Decode, WellFormed, AllFit, IsTiling, StartCount;
    if |bytes| <= max {
      r := Ok(None);
      return;
    }
    var decoded := DecodePng(z, bytes);
    if decoded.Err? {
      r := Err(Undecodable(decoded.error));
      return;
    }
    var img := decoded.value;
    DecodedWellFormed(z, bytes);
    var count := StartCount(|bytes|, max);
    while count <= img.height
      invariant count >= StartCount(|bytes|, max)
      invariant forall c: nat :: StartCount(|bytes|, max) <= c < count ==> !AllFit(z, img, c, max)
      decreases img.height + 1 - count
    {
      var tiles := TryCount(z, img, count, max);
      if |tiles| == count {
        r := Ok(Some(tiles));
        return;
      }
      count := count + 1;
    }
    NoStripForEachCount(z, img, max);
    r := Err(StripTooLarge);
  }

  lemma NoStripForEachCount(z: Zlib, img: Image, max: int)
    requires WellFormed(img)
    ensures forall c: nat :: c > img.height ==> !AllFit(z, img, c, max)
  {}

  // ----- the strips put back together

  lemma FileHoldsImageData(z: Zlib, img: Image, rows: seq<Row>)
    requires Strided(rows, img.width * Channels(img.colorType).value)
    ensures var channels := Channels(img.colorType).value;
            |z.deflate(Filtered(rows, Black(img.width * channels), channels))|
            <= |Encoded(z, img.width, img.colorType, rows, img.ancillary)|
  {}

  /** Each strip of a tiling decodes to its own rows, with the width, colour type and ancillary
      chunks of the whole. */
  lemma StripDecodes(z: Zlib, img: Image, count: nat, max: int, i: nat)
    requires z.Inverse() && WellFormed(img) && i < count
    requires AllFit(z, img, count, max) && max < TWO_TO_THE_32
    ensures Decode(z, StripBytes(z, img, count, i))
         == Ok(Image(img.width, Height(img.height, count, i), img.colorType, img.channels, StripRows(img, count, i),
                     img.ancillary))
  {
    var rows := StripRows(img, count, i);
    StripHeight(img, count, i);
    assert |StripBytes(z, img, count, i)| <= max;
    EncodedDecodes(z, img, rows);
  }

  lemma EncodedDecodes(z: Zlib, img: Image, rows: seq<Row>)
    requires z.Inverse() && WellFormed(img) && Strided(rows, img.width * img.channels) && |rows| < TWO_TO_THE_32
    requires |Encoded(z, img.width, img.colorType, rows, img.ancillary)| < TWO_TO_THE_32
    ensures Decode(z, Encoded(z, img.width, img.colorType, rows, img.ancillary))
         == Ok(Image(img.width, |rows|, img.colorType, img.channels, rows, img.ancillary))
  {
    hide Decode, File, Scanlines, BestFilters;
    FileHoldsImageData(z, img, rows);
    RoundTrip(z, img.width, img.colorType, rows, img.ancillary,
              BestFilters(rows, Black(img.width * img.channels), img.channels));
  }

  lemma StripHeight(img: Image, count: nat, i: nat)
    requires 0 < count <= |img.rows| == img.height && i < count
    ensures |StripRows(img, count, i)| == Height(img.height, count, i) <= img.height
    ensures Top(img.height, count, i + 1) <= img.height
    ensures StripRows(img, count, i) == img.rows[Top(img.height, count, i)..Top(img.height, count, i + 1)]
  {
    StripsPartition(img.height, count);
    hide Height;
    assert Top(img.height, count, i) + Height(img.height, count, i) <= img.height;
  }

  /** The rows of the first `n` strips, in order. */
  ghost function FirstRows(img: Image, count: nat, n: nat): seq<Row>
    requires 0 < count <= |img.rows| == img.height && n <= count
  {
    if n == 0 then [] else FirstRows(img, count, n - 1) + StripRows(img, count, n - 1)
  }

  lemma {:induction false} FirstRowsPrefix(img: Image, count: nat, n: nat)
    requires 0 < count <= |img.rows| == img.height && n <= count
    ensures Top(img.height, count, n) <= img.height
    ensures FirstRows(img, count, n) == img.rows[..Top(img.height, count, n)]
  {
    hide Height, StripRows;
    if n > 0 {
      FirstRowsPrefix(img, count, n - 1);
      StripHeight(img, count, n - 1);
    }
  }

  /** The decoded rows of all the strips, one after another, are the rows of the original. */
  lemma StripsRebuild(img: Image, count: nat)
    requires 0 < count <= |img.rows| == img.height
    ensures FirstRows(img, count, count) == img.rows
  {
    FirstRowsPrefix(img, count, count);
    StripsPartition(img.height, count);
    hide Height;
  }
}
