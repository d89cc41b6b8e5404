/** Bytes and the fixed-width integers stored in them: big-endian for PNG, little-endian for ELF. */
module Bytes {

  type byte = x: int | 0 <= x < 256

  const TWO_TO_THE_32: nat := 0x1_0000_0000

  /** `DataView.setUint32` in big-endian order; a wider value is stored modulo 2^32. */
  function PutU32(n: nat): (r: seq<byte>)
    ensures |r| == 4
  {
    [n / 0x100_0000 % 256, n / 0x1_0000 % 256, n / 0x100 % 256, n % 256]
  }

  /** `DataView.getUint32` in big-endian order. */
  function GetU32(s: seq<byte>): (n: nat)
    requires |s| == 4
    ensures n < TWO_TO_THE_32
  {
    var a: int, b: int, c: int, d: int := s[0], s[1], s[2], s[3];
    a * 0x100_0000 + b * 0x1_0000 + c * 0x100 + d
  }

  lemma U32RoundTrip(n: nat)
    requires n < TWO_TO_THE_32
    ensures GetU32(PutU32(n)) == n
  {
    var h := n / 0x100;
    var hh := h / 0x100;
    assert n / 0x1_0000 == hh;
    assert n / 0x100_0000 == hh / 0x100;
  }

  /** An unsigned little-endian integer of any width. */
  function GetLE(s: seq<byte>): (n: nat)
  {
    if s == [] then 0 else s[0] + 256 * GetLE(s[1..])
  }

  function Concat<T>(parts: seq<seq<T>>): (r: seq<T>)
  {
    if parts == [] then [] else parts[0] + Concat(parts[1..])
  }

  lemma {:induction false} ConcatAppend<T>(a: seq<seq<T>>, b: seq<seq<T>>)
    ensures Concat(a + b) == Concat(a) + Concat(b)
  {
    if a == [] {
      assert a + b == b;
    } else {
      assert (a + b)[1..] == a[1..] + b;
      calc {
        Concat(a + b);
        a[0] + Concat(a[1..] + b);
        { ConcatAppend(a[1..], b); }
        a[0] + (Concat(a[1..]) + Concat(b));
        (a[0] + Concat(a[1..])) + Concat(b);
      }
    }
  }

  lemma ConcatSnoc<T>(a: seq<seq<T>>, x: seq<T>)
    ensures Concat(a + [x]) == Concat(a) + x
  {
    ConcatAppend(a, [x]);
    assert Concat([x]) == x;
  }
}
