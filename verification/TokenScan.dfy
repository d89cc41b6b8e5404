/** The guest scanner of `tools/chatgpt-live-proof.ts`: a rolling 32-bit hash filters candidate
    windows, SHA-256 confirms them, and a file is read in chunks with a carried tail. */
module TokenScan {
  import opened Bytes

  const MODULUS: nat := 0x1_0000_0000
  const CHUNK_MAX: nat := 65536
  const TOTAL_MAX: nat := 8 * 1024 * 1024 * 1024

  type Digest = seq<byte>
  type Sha = seq<byte> -> Digest

  ghost predicate Injective(sha: Sha) {
    forall x, y :: sha(x) == sha(y) ==> x == y
  }

  // ----- 32-bit arithmetic

  /** `x >>> 0`. */
  function Unsigned(x: int): nat { x % MODULUS }

  /** The signed reading of the low 32 bits. */
  function Signed(p: int): int {
    if Unsigned(p) >= MODULUS / 2 then Unsigned(p) - MODULUS else Unsigned(p)
  }

  /** The one number of 32 bits, sign included, that is the same modulo 2^32. */
  lemma SignedMeans(p: int)
    ensures -0x8000_0000 <= Signed(p) < 0x8000_0000 && (Signed(p) - p) % 0x1_0000_0000 == 0
  {
    UnsignedShift(0, p / MODULUS);
    UnsignedShift(0, p / MODULUS + 1);
    assert p == p / MODULUS * MODULUS + Unsigned(p);
    assert Signed(p) - p in {0 - p / MODULUS * MODULUS, 0 - (p / MODULUS + 1) * MODULUS};
    UnsignedShift(0, -(p / MODULUS));
    UnsignedShift(0, -(p / MODULUS + 1));
  }

  /** `Math.imul`: the product's low 32 bits as a signed number. */
  function Imul(a: int, b: int): int { Signed(a * b) }

  lemma UnsignedShift(x: int, k: int)
    ensures Unsigned(x + k * MODULUS) == Unsigned(x)
  {}

  /** Only the low 32 bits of a term matter to the low 32 bits of a sum. */
  lemma LowBitsOnly(c: int, p: int)
    ensures Unsigned(c + Signed(p)) == Unsigned(c + Unsigned(p)) == Unsigned(c + p)
    ensures Unsigned(c - Signed(p)) == Unsigned(c - Unsigned(p)) == Unsigned(c - p)
  {
    var q := p / MODULUS;
    assert p == q * MODULUS + Unsigned(p);
    UnsignedShift(c + Unsigned(p), q);
    UnsignedShift(c - Unsigned(p), -q);
    UnsignedShift(c + Unsigned(p), -1);
    UnsignedShift(c - Unsigned(p), 1);
  }

  /** Replacing a factor by its low 32 bits does not change a product's low 32 bits. */
  lemma ReduceFactor(c: int, x: int, p: int)
    ensures Unsigned(c + Imul(Unsigned(p), x)) == Unsigned(c + p * x)
    ensures Unsigned(c - Imul(x, Unsigned(p))) == Unsigned(c - x * p)
  {
    var q := p / MODULUS;
    assert p == q * MODULUS + Unsigned(p);
    assert x * p == x * (q * MODULUS) + x * Unsigned(p) == (x * q) * MODULUS + x * Unsigned(p);
    LowBitsOnly(c, x * Unsigned(p));
    UnsignedShift(c + x * Unsigned(p), x * q);
    UnsignedShift(c - x * Unsigned(p), -(x * q));
  }

  // ----- the hash

  /** `roll`: every byte in turn, base 257, wrapping at 32 bits. */
  function Roll(value: seq<byte>): (hash: nat)
    ensures hash < MODULUS
  {
    if value == [] then 0
    else (var b: int := value[|value| - 1]; Unsigned(Imul(Roll(value[..|value| - 1]), 257) + b))
  }

  /** The same hash without wrap-around. */
  function Polynomial(value: seq<byte>): nat {
    if value == [] then 0 else 257 * Polynomial(value[..|value| - 1]) + value[|value| - 1]
  }

  function Power(k: nat): nat { if k == 0 then 1 else 257 * Power(k - 1) }

  lemma {:induction false} RollPolynomial(value: seq<byte>)
    ensures Roll(value) == Polynomial(value) % 0x1_0000_0000
  {
    if value != [] {
      var front := value[..|value| - 1];
      var b: int := value[|value| - 1];
      RollPolynomial(front);
      ReduceFactor(b, 257, Polynomial(front));
    }
  }

  /** Taking off the first byte takes off its weight. */
  lemma {:induction false} PolynomialFirst(value: seq<byte>)
    requires value != []
    ensures Polynomial(value) == value[0] * Power(|value| - 1) + Polynomial(value[1..])
  {
    var n := |value|;
    if n == 1 {
      assert value[..0] == [] && value[1..] == [];
    } else {
      var front := value[..n - 1];
      PolynomialFirst(front);
      assert front[1..] == value[1..][..n - 2];
      var a: int := value[0];
      assert 257 * (a * Power(n - 2)) == a * Power(n - 1);
    }
  }

  lemma SubtractWeight(total: int, b: int, weight: int, rest: int)
    requires total == b * weight + rest
    ensures Unsigned(Unsigned(total) - Imul(b, Unsigned(weight))) == Unsigned(rest)
  {
    ReduceFactor(Unsigned(total), b, weight);
    LowBitsOnly(-(b * weight), total);
  }

  /** The update that drops the byte leaving the window. */
  lemma RollDrop(window: seq<byte>, power: nat)
    requires window != [] && power == Unsigned(Power(|window| - 1))
    ensures Unsigned(Roll(window) - Imul(window[0], power)) == Roll(window[1..])
  {
    RollPolynomial(window);
    RollPolynomial(window[1..]);
    PolynomialFirst(window);
    hide Roll, Polynomial, Imul, Unsigned;
    SubtractWeight(Polynomial(window), window[0], Power(|window| - 1), Polynomial(window[1..]));
  }

  /** Where the window that ends before `end` starts. */
  function From(end: nat, length: nat): nat {
    if end < length then 0 else end - length
  }

  /** The running hash is `roll` of the current window at every index. */
  lemma Slide(bytes: seq<byte>, i: nat, length: nat, power: nat)
    requires i < |bytes| && length >= 1 && power == Unsigned(Power(length - 1))
    ensures var before := Roll(bytes[From(i, length)..i]);
            var dropped := if i >= length then Unsigned(before - Imul(bytes[i - length], power)) else before;
            Unsigned(Imul(dropped, 257) + bytes[i]) == Roll(bytes[From(i + 1, length)..i + 1])
  {
    var window := bytes[From(i, length)..i];
    var next := bytes[From(i + 1, length)..i + 1];
    WindowMoves(bytes, i, length);
    RollSnoc(next);
    hide Imul, Unsigned, Roll;
    if i >= length {
      RollDrop(window, power);
    }
  }

  lemma WindowMoves(bytes: seq<byte>, i: nat, length: nat)
    requires i < |bytes| && length >= 1
    ensures var window, next := bytes[From(i, length)..i], bytes[From(i + 1, length)..i + 1];
            && next != [] && next[|next| - 1] == bytes[i]
            && if i >= length then |window| == length && window[0] == bytes[i - length]
                 && next[..|next| - 1] == window[1..]
               else next[..|next| - 1] == window
  {}

  lemma RollSnoc(next: seq<byte>)
    requires next != []
    ensures Roll(next) == Unsigned(Imul(Roll(next[..|next| - 1]), 257) + next[|next| - 1])
  {
    hide Imul, Unsigned;
  }

  method ComputeRoll(value: seq<byte>) returns (hash: nat)
    ensures hash == Roll(value)
  {
    hash := 0;
    for i := 0 to |value|
      invariant hash == Roll(value[..i])
    {
      hash := Unsigned(Imul(hash, 257) + value[i]);
      assert value[..i + 1][..i] == value[..i];
    }
    assert value[..|value|] == value;
  }

  // ----- needles and where they are found

  datatype Needle = Needle(length: nat, roll: nat, sha: Digest)

  function NeedleOf(value: seq<byte>, sha: Sha): Needle {
    Needle(|value|, Roll(value), sha(value))
  }

  ghost predicate Occurs(value: seq<byte>, bytes: seq<byte>) {
    exists i: nat :: OccursAt(value, bytes, i)
  }

  ghost predicate OccursAt(value: seq<byte>, bytes: seq<byte>, i: nat) {
    i + |value| <= |bytes| && bytes[i..i + |value|] == value
  }

  /** The window of the needle's length that ends before `end` passes both tests. */
  ghost predicate HitAt(n: Needle, sha: Sha, bytes: seq<byte>, end: nat) {
    n.length <= end <= |bytes|
    && Roll(bytes[end - n.length..end]) == n.roll && sha(bytes[end - n.length..end]) == n.sha
  }

  ghost predicate Hits(needles: seq<Needle>, sha: Sha, bytes: seq<byte>) {
    exists k: nat, end: nat :: k < |needles| && HitAt(needles[k], sha, bytes, end)
  }

  /** Every token the program scans for is at least one byte long. */
  ghost predicate Usable(needles: seq<Needle>) {
    forall k :: 0 <= k < |needles| ==> needles[k].length >= 1
  }

  /** The needles the script is built with. */
  function NeedlesOf(values: seq<seq<byte>>, sha: Sha): (r: seq<Needle>)
    ensures |r| == |values|
  {
    seq(|values|, k requires 0 <= k < |values| => NeedleOf(values[k], sha))
  }

  lemma HitIsOccurrence(value: seq<byte>, sha: Sha, bytes: seq<byte>, end: nat)
    requires |value| <= end
    ensures OccursAt(value, bytes, end - |value|) ==> HitAt(NeedleOf(value, sha), sha, bytes, end)
    ensures Injective(sha) && HitAt(NeedleOf(value, sha), sha, bytes, end) ==> OccursAt(value, bytes, end - |value|)
  {
    hide Roll;
  }

  /** What occurs is always hit; with no digest collision, what is hit occurs. */
  lemma HitsAreOccurrences(values: seq<seq<byte>>, sha: Sha, bytes: seq<byte>)
    ensures (exists k: nat :: k < |values| && Occurs(values[k], bytes)) ==> Hits(NeedlesOf(values, sha), sha, bytes)
    ensures Injective(sha) && Hits(NeedlesOf(values, sha), sha, bytes) ==>
              exists k: nat :: k < |values| && Occurs(values[k], bytes)
  {
    hide HitAt, OccursAt, Injective;
    var needles := NeedlesOf(values, sha);
    forall k: nat, i: nat | k < |values| && OccursAt(values[k], bytes, i)
      ensures HitAt(needles[k], sha, bytes, i + |values[k]|)
    {
      HitIsOccurrence(values[k], sha, bytes, i + |values[k]|);
    }
    if Injective(sha) && Hits(needles, sha, bytes) {
      var k: nat, end: nat :| k < |needles| && HitAt(needles[k], sha, bytes, end);
      HitLongEnough(needles[k], sha, bytes, end);
      HitIsOccurrence(values[k], sha, bytes, end);
      assert Occurs(values[k], bytes);
    }
  }

  lemma HitLongEnough(n: Needle, sha: Sha, bytes: seq<byte>, end: nat)
    requires HitAt(n, sha, bytes, end)
    ensures n.length <= end
  {}

  // ----- the carried tail

  /** `max - 1` bytes are carried from one read to the next. */
  function Keep(needles: seq<Needle>): nat {
    if needles == [] then 0 else
      var rest := Keep(needles[1..]);
      if needles[0].length > rest then needles[0].length - 1 else rest
  }

  lemma {:induction false} KeepCovers(needles: seq<Needle>, k: nat)
    requires k < |needles|
    ensures needles[k].length <= Keep(needles) + 1
  {
    if k > 0 {
      KeepCovers(needles[1..], k - 1);
    }
  }

  /** No more is carried than that: the longest needle is one byte longer. */
  lemma {:induction false} KeepReached(needles: seq<Needle>)
    requires Usable(needles)
    ensures if needles == [] then Keep(needles) == 0
            else exists k :: 0 <= k < |needles| && needles[k].length == Keep(needles) + 1
  {
    if needles != [] {
      KeepReached(needles[1..]);
      if needles[0].length <= Keep(needles[1..]) && needles[1..] != [] {
        var k :| 0 <= k < |needles[1..]| && needles[1..][k].length == Keep(needles[1..]) + 1;
        assert needles[k + 1].length == Keep(needles) + 1;
      }
    }
  }

  function Tail(bytes: seq<byte>, keep: nat): seq<byte> {
    if |bytes| <= keep then bytes else bytes[|bytes| - keep..]
  }

  lemma SameWindow(n: Needle, sha: Sha, a: seq<byte>, endA: nat, b: seq<byte>, endB: nat)
    requires n.length <= endA <= |a| && n.length <= endB <= |b|
    requires a[endA - n.length..endA] == b[endB - n.length..endB]
    ensures HitAt(n, sha, a, endA) == HitAt(n, sha, b, endB)
  {}

  lemma Window(seen: seq<byte>, next: seq<byte>, cut: nat, from: nat, to: nat)
    requires cut <= |seen| && from <= to <= |seen| - cut + |next|
    ensures (seen + next)[cut + from..cut + to] == (seen[cut..] + next)[from..to]
  {}

  /** Scanning the tail and the next read finds what the longer stream has and the shorter had not. */
  lemma ScanWithTail(needles: seq<Needle>, sha: Sha, seen: seq<byte>, next: seq<byte>)
    requires Usable(needles)
    ensures Hits(needles, sha, seen + next)
       <==> Hits(needles, sha, seen) || Hits(needles, sha, Tail(seen, Keep(needles)) + next)
  {
    hide Roll, HitAt;
    var tail := Tail(seen, Keep(needles));
    var cut := |seen| - |tail|;
    assert tail == seen[cut..];
    forall k: nat, end: nat | k < |needles| && HitAt(needles[k], sha, seen, end)
      ensures HitAt(needles[k], sha, seen + next, end)
    {
      HitInPrefix(needles[k], sha, seen, next, end);
    }
    forall k: nat, end: nat | k < |needles| && HitAt(needles[k], sha, tail + next, end)
      ensures HitAt(needles[k], sha, seen + next, cut + end)
    {
      HitInSuffix(needles[k], sha, seen, next, cut, end);
    }
    forall k: nat, end: nat | k < |needles| && HitAt(needles[k], sha, seen + next, end)
      ensures Hits(needles, sha, seen) || Hits(needles, sha, tail + next)
    {
      KeepCovers(needles, k);
      HitSplits(needles[k], sha, seen, next, cut, end);
    }
  }

  lemma HitInPrefix(n: Needle, sha: Sha, seen: seq<byte>, next: seq<byte>, end: nat)
    requires HitAt(n, sha, seen, end)
    ensures HitAt(n, sha, seen + next, end)
  {
    Window(seen, next, 0, end - n.length, end);
    assert (seen + next)[end - n.length..end] == seen[end - n.length..end];
  }

  lemma HitInSuffix(n: Needle, sha: Sha, seen: seq<byte>, next: seq<byte>, cut: nat, end: nat)
    requires cut <= |seen| && HitAt(n, sha, seen[cut..] + next, end)
    ensures HitAt(n, sha, seen + next, cut + end)
  {
    Window(seen, next, cut, end - n.length, end);
    SameWindow(n, sha, seen[cut..] + next, end, seen + next, cut + end);
  }

  lemma HitSplits(n: Needle, sha: Sha, seen: seq<byte>, next: seq<byte>, cut: nat, end: nat)
    requires cut <= |seen| && HitAt(n, sha, seen + next, end) && n.length >= 1
    requires cut == 0 || |seen| - cut >= n.length - 1
    ensures HitAt(n, sha, seen, end) || (cut <= end && HitAt(n, sha, seen[cut..] + next, end - cut))
  {
    if end <= |seen| {
      assert (seen + next)[end - n.length..end] == seen[end - n.length..end];
    } else {
      Window(seen, next, cut, end - cut - n.length, end - cut);
      SameWindow(n, sha, seen[cut..] + next, end - cut, seen + next, end);
    }
  }

  lemma TailOfTail(seen: seq<byte>, next: seq<byte>, keep: nat)
    ensures Tail(Tail(seen, keep) + next, keep) == Tail(seen + next, keep)
  {}

  ghost predicate HitsBefore(n: Needle, sha: Sha, bytes: seq<byte>, i: nat) {
    exists end: nat :: end <= i && HitAt(n, sha, bytes, end)
  }

  lemma HitsBeforeSteps(n: Needle, sha: Sha, bytes: seq<byte>)
    requires n.length >= 1
    ensures !HitsBefore(n, sha, bytes, 0)
    ensures forall i: nat :: HitsBefore(n, sha, bytes, i + 1)
              <==> HitsBefore(n, sha, bytes, i) || HitAt(n, sha, bytes, i + 1)
  {
    hide Roll;
  }

  lemma HitsAnywhere(needles: seq<Needle>, sha: Sha, bytes: seq<byte>)
    ensures Hits(needles, sha, bytes) <==> exists j: nat :: j < |needles| && HitsBefore(needles[j], sha, bytes, |bytes|)
  {
    hide Roll;
    forall k: nat, end: nat | k < |needles| && HitAt(needles[k], sha, bytes, end)
      ensures HitsBefore(needles[k], sha, bytes, |bytes|)
    {}
  }

  lemma RollNothing()
    ensures Roll([]) == 0
  {}

  /** `power`: the weight of the byte that leaves the window. */
  method LeadingWeight(length: nat) returns (power: nat)
    requires length >= 1
    ensures power == Unsigned(Power(length - 1))
  {
    power := 1;
    for j := 1 to length
      invariant power == Unsigned(Power(j - 1))
    {
      ReduceFactor(0, 257, Power(j - 1));
      power := Unsigned(Imul(power, 257));
    }
  }

  // ----- the scanner

  /** One file as the program meets it. */
  datatype FileRead =
    | Unreadable(expired: bool)
      // `openSync` throws: the file is skipped, unless the deadline had passed before
    | Reads(chunks: seq<seq<byte>>, failed: bool, late: seq<bool>)
      // the non-empty reads, whether a later read throws, and whether the deadline had passed before
      // the opening and at each read

  ghost predicate ValidFile(f: FileRead) {
    f.Reads? ==> |f.late| == |f.chunks| + 1 && forall i :: 0 <= i < |f.chunks| ==> 0 < |f.chunks[i]| <= CHUNK_MAX
  }

  /** Nothing but the size limit can make this file throw. */
  predicate IsCompleted(f: FileRead) {
    match f
    case Unreadable(expired) => !expired
    case Reads(_, failed, late) => !failed && forall j :: 0 <= j < |late| ==> !late[j]
  }

  /** How many reads are scanned: those before the first that takes the sizes over the limit or comes
      after the deadline, and none when the deadline had passed before the opening. */
  ghost predicate StopsAt(f: FileRead, total: nat, n: nat)
    requires ValidFile(f) && f.Reads?
  {
    if f.late[0] then n == 0
    else
      && n <= |f.chunks| && (forall j :: 0 <= j <= n ==> !f.late[j]) && total + |Concat(f.chunks[..n])| <= TOTAL_MAX
      && (n < |f.chunks| ==> f.late[n + 1] || total + |Concat(f.chunks[..n + 1])| > TOTAL_MAX)
  }

  function Size(f: FileRead): nat {
    match f
    case Unreadable(_) => 0
    case Reads(chunks, _, _) => |Concat(chunks)|
  }

  /** A read past the limit or the deadline: the file is not read to its end. */
  lemma StoppedAt(f: FileRead, total: nat, i: nat)
    requires ValidFile(f) && f.Reads? && i < |f.chunks|
    requires (forall j :: 0 <= j <= i ==> !f.late[j]) && total + |Concat(f.chunks[..i])| <= TOTAL_MAX
    requires f.late[i + 1] || total + |Concat(f.chunks[..i + 1])| > TOTAL_MAX
    ensures StopsAt(f, total, i) && !(IsCompleted(f) && total + Size(f) <= TOTAL_MAX)
  {
    ConcatSuffix(f.chunks, i + 1);
  }

  lemma ReadThrough(f: FileRead, total: nat)
    requires ValidFile(f) && f.Reads? && forall j :: 0 <= j < |f.late| ==> !f.late[j]
    requires total + |Concat(f.chunks)| <= TOTAL_MAX
    ensures StopsAt(f, total, |f.chunks|) && (IsCompleted(f) <==> !f.failed) && Size(f) == |Concat(f.chunks)|
  {
    assert f.chunks[..|f.chunks|] == f.chunks;
  }

  function TotalSize(files: seq<FileRead>): nat {
    if files == [] then 0 else TotalSize(files[..|files| - 1]) + Size(files[|files| - 1])
  }

  class Scanner {
    const needles: seq<Needle>
    const sha: Sha
    var found: bool
    var total: nat

    constructor (needles: seq<Needle>, sha: Sha)
      ensures this.needles == needles && this.sha == sha && !found && total == 0
    {
      this.needles := needles;
      this.sha := sha;
      found, total := false, 0;
    }

    /** One needle slid over the bytes. */
    method ScanOne(n: Needle, bytes: seq<byte>)
      requires n.length >= 1
      modifies this`found
      ensures found <==> old(found) || HitsBefore(n, sha, bytes, |bytes|)
    {
      hide Imul, Unsigned, Roll, HitsBefore;
      var power := LeadingWeight(n.length);
      var hash := 0;
      HitsBeforeSteps(n, sha, bytes);
      assert bytes[0..0] == [];
      assert Roll([]) == 0 by { RollNothing(); }
      for i := 0 to |bytes|
        invariant hash == Roll(bytes[From(i, n.length)..i])
        invariant found <==> old(found) || HitsBefore(n, sha, bytes, i)
      {
        Slide(bytes, i, n.length, power);
        if i >= n.length {
          hash := Unsigned(hash - Imul(bytes[i - n.length], power));
        }
        hash := Unsigned(Imul(hash, 257) + bytes[i]);
        if i + 1 >= n.length && hash == n.roll && sha(bytes[i + 1 - n.length..i + 1]) == n.sha {
          found := true;
        }
      }
    }

    /** `scan`. */
    method Scan(bytes: seq<byte>)
      requires Usable(needles)
      modifies this`found
      ensures found <==> old(found) || Hits(needles, sha, bytes)
    {
      HitsAnywhere(needles, sha, bytes);
      hide HitAt, Hits, HitsBefore;
      for k := 0 to |needles|
        invariant found <==> old(found) || exists j: nat :: j < k && HitsBefore(needles[j], sha, bytes, |bytes|)
      {
        ScanOne(needles[k], bytes);
      }
    }

    /** One read of `file`, scanned behind the tail that is carried from `seen`. */
    method ScanRead(tail: seq<byte>, read: seq<byte>, ghost seen: seq<byte>) returns (next: seq<byte>)
      requires Usable(needles) && tail == Tail(seen, Keep(needles))
      modifies this`found
      ensures next == Tail(seen + read, Keep(needles))
      ensures found <==> old(found) || Hits(needles, sha, tail + read)
      ensures Hits(needles, sha, seen + read) <==> Hits(needles, sha, seen) || Hits(needles, sha, tail + read)
    {
      hide Hits, Tail, Keep, Usable;
      var bytes := tail + read;
      Scan(bytes);
      ScanWithTail(needles, sha, seen, read);
      TailOfTail(seen, read, Keep(needles));
      next := Tail(bytes, Keep(needles));
    }

    /** `file`: `false` when it throws. Whatever happens, `found` is exactly whether it was set
        before or some needle is in the reads before the one that stopped it; a file read to its end
        counts whole. */
    method File(f: FileRead) returns (ok: bool, ghost seen: seq<byte>, ghost n: nat)
      requires Usable(needles) && ValidFile(f) && total <= TOTAL_MAX
      modifies this
      ensures ok ==> total <= TOTAL_MAX
      ensures found <==> old(found) || Hits(needles, sha, seen)
      ensures ok <==> IsCompleted(f) && old(total) + Size(f) <= TOTAL_MAX
      ensures if f.Reads? then StopsAt(f, old(total), n) && seen == Concat(f.chunks[..n]) else seen == []
      ensures ok ==> seen == (if f.Reads? then Concat(f.chunks) else []) && total == old(total) + Size(f)
    {
      seen, n := [], 0;
      NothingHits();
      ok := true;
      if f.Unreadable? {
        ok := !f.expired;
        return;
      }
      if f.late[0] {
        ok := false;
        return;
      }
      var tail: seq<byte> := [];
      assert seen == Concat(f.chunks[..0]) && tail == Tail(seen, Keep(needles));
      hide Hits, Concat, Tail, Keep, Usable, IsCompleted, Size, StopsAt;
      for i := 0 to |f.chunks|
        invariant ok && seen == Concat(f.chunks[..i]) && tail == Tail(seen, Keep(needles))
        invariant total == old(total) + |seen| && total <= TOTAL_MAX
        invariant n == i && forall j :: 0 <= j <= i ==> !f.late[j]
        invariant found <==> old(found) || Hits(needles, sha, seen)
      {
        var count := |f.chunks[i]|;
        ConcatTake(f.chunks, i);
        total := total + count;
        if total > TOTAL_MAX || f.late[i + 1] {
          ok := false;
          StoppedAt(f, old(total), i);
          return;
        }
        tail := ScanRead(tail, f.chunks[i], seen);
        seen, n := seen + f.chunks[i], i + 1;
      }
      assert f.chunks[..|f.chunks|] == f.chunks;
      ReadThrough(f, old(total));
      ok := !f.failed;
    }

    lemma NothingHits()
      requires Usable(needles)
      ensures !Hits(needles, sha, [])
    {}

    /** The whole run over the environment and every file: the verdict is a pass exactly when no file
        threw, their sizes stay within the limit, nothing was found, and the expected process was
        seen. */
    method Run(environment: seq<byte>, files: seq<FileRead>, sawCodex: bool) returns (pass: bool)
      requires Usable(needles) && !found && total == 0 && (forall i :: 0 <= i < |files| ==> ValidFile(files[i]))
      modifies this
      ensures pass <==>
                && sawCodex && !Hits(needles, sha, environment)
                && (forall i :: 0 <= i < |files| ==> IsCompleted(files[i])) && TotalSize(files) <= 0x2_0000_0000
                && forall i :: 0 <= i < |files| && files[i].Reads? ==> !Hits(needles, sha, Concat(files[i].chunks))
    {
      hide Hits, IsCompleted, Size, StopsAt, Concat, ValidFile, Usable;
      Scan(environment);
      for i := 0 to |files|
        invariant total == TotalSize(files[..i]) <= TOTAL_MAX
        invariant forall j :: 0 <= j < i ==> IsCompleted(files[j])
        invariant !found <==>
                    && !Hits(needles, sha, environment)
                    && forall j :: 0 <= j < i && files[j].Reads? ==> !Hits(needles, sha, Concat(files[j].chunks))
      {
        assert files[..i + 1][..i] == files[..i];
        TotalGrows(files, i + 1);
        NothingHits();
        var ok, seen, n := File(files[i]);
        if !ok {
          pass := false;
          return;
        }
      }
      assert files[..|files|] == files;
      pass := !found && sawCodex;
    }
  }

  lemma {:induction false} TotalGrows(files: seq<FileRead>, i: nat)
    requires i <= |files|
    ensures TotalSize(files[..i]) <= TotalSize(files)
    decreases |files| - i
  {
    if i == |files| {
      assert files[..i] == files;
    } else {
      assert files[..i + 1][..i] == files[..i];
      TotalGrows(files, i + 1);
    }
  }

  /** Some token is in the environment or in a file that could be opened. */
  ghost predicate Leaks(values: seq<seq<byte>>, environment: seq<byte>, files: seq<FileRead>) {
    exists k :: 0 <= k < |values| && (Occurs(values[k], environment) || LeaksInFile(values[k], files))
  }

  ghost predicate LeaksInFile(value: seq<byte>, files: seq<FileRead>) {
    exists i :: 0 <= i < |files| && files[i].Reads? && Occurs(value, Concat(files[i].chunks))
  }

  /** The script for the given tokens. A pass means none of them occurs in the environment or in
      any file that could be opened, across read boundaries too, collision or not; and when the digest
      has no collisions, a run that completes within its limits passes exactly then. */
  method ProveExclusion(values: seq<seq<byte>>, sha: Sha, environment: seq<byte>, files: seq<FileRead>, sawCodex: bool)
    returns (pass: bool)
    requires forall k :: 0 <= k < |values| ==> values[k] != []
    requires forall i :: 0 <= i < |files| ==> ValidFile(files[i])
    ensures pass ==> !Leaks(values, environment, files)
    ensures Injective(sha) ==>
              (pass <==>
                && sawCodex && (forall i :: 0 <= i < |files| ==> IsCompleted(files[i]))
                     && TotalSize(files) <= 0x2_0000_0000
                && !Leaks(values, environment, files))
  {
    hide Hits, Occurs, IsCompleted, Injective;
    var scanner := new Scanner(NeedlesOf(values, sha), sha);
    pass := scanner.Run(environment, files, sawCodex);
    LeaksAreHits(values, sha, environment, files);
  }

  lemma LeaksAreHits(values: seq<seq<byte>>, sha: Sha, environment: seq<byte>, files: seq<FileRead>)
    ensures var needles := NeedlesOf(values, sha);
            var hit := Hits(needles, sha, environment)
                || exists i :: 0 <= i < |files| && files[i].Reads? && Hits(needles, sha, Concat(files[i].chunks));
            (Leaks(values, environment, files) ==> hit) && (Injective(sha) && hit ==> Leaks(values, environment, files))
  {
    hide Hits, Occurs, Injective, NeedlesOf;
    HitsAreOccurrences(values, sha, environment);
    forall i | 0 <= i < |files| && files[i].Reads?
      ensures (exists k: nat :: k < |values| && Occurs(values[k], Concat(files[i].chunks))) ==>
                Hits(NeedlesOf(values, sha), sha, Concat(files[i].chunks))
      ensures Injective(sha) && Hits(NeedlesOf(values, sha), sha, Concat(files[i].chunks)) ==>
                exists k: nat :: k < |values| && Occurs(values[k], Concat(files[i].chunks))
    {
      HitsAreOccurrences(values, sha, Concat(files[i].chunks));
    }
    if Leaks(values, environment, files) {
      var k :| 0 <= k < |values| && (Occurs(values[k], environment) || LeaksInFile(values[k], files));
      if !Occurs(values[k], environment) {
        var i :| 0 <= i < |files| && files[i].Reads? && Occurs(values[k], Concat(files[i].chunks));
      }
    }
    var needles := NeedlesOf(values, sha);
    if i :| Injective(sha) && 0 <= i < |files| && files[i].Reads? && Hits(needles, sha, Concat(files[i].chunks)) {
      var k: nat :| k < |values| && Occurs(values[k], Concat(files[i].chunks));
      assert LeaksInFile(values[k], files);
    }
  }

  lemma ConcatTake(chunks: seq<seq<byte>>, i: nat)
    requires i < |chunks|
    ensures Concat(chunks[..i + 1]) == Concat(chunks[..i]) + chunks[i]
  {
    assert chunks[..i + 1] == chunks[..i] + [chunks[i]];
    ConcatSnoc(chunks[..i], chunks[i]);
  }

  lemma ConcatSuffix(chunks: seq<seq<byte>>, i: nat)
    requires i <= |chunks|
    ensures |Concat(chunks)| >= |Concat(chunks[..i])|
  {
    assert chunks == chunks[..i] + chunks[i..];
    ConcatAppend(chunks[..i], chunks[i..]);
  }
}
