/** Where the headings of a changelog are, as the multi-line regular expressions of
    changelog-fragments.ts and release.ts find them, and how that behaves when text is put together. */
module Headings {
  import opened Wrappers
  import opened Text

  /** `^` under the `m` flag. */
  predicate AtLineStart(s: string, i: int)
    requires 0 <= i <= |s|
  {
    i == 0 || IsLineTerminator(s[i - 1])
  }

  /** `/^## .+$/m` matches at `i`. */
  predicate HeadingAt(s: string, i: int)
    requires 0 <= i <= |s|
  {
    AtLineStart(s, i) && i + 3 < |s| && s[i] == '#' && s[i + 1] == '#' && s[i + 2] == ' ' && !IsLineTerminator(s[i + 3])
  }

  const UNRELEASED := "## Unreleased"

  function SkipBlanks(s: string, i: int): (r: int)
    requires 0 <= i <= |s|
    ensures i <= r <= |s|
    decreases |s| - i
  {
    if i < |s| && (s[i] == '\t' || s[i] == ' ') then SkipBlanks(s, i + 1) else i
  }

  /** `/^## Unreleased[\t ]*$/m` matches at `i`. */
  predicate UnreleasedAt(s: string, i: int)
    requires 0 <= i <= |s|
  {
    && AtLineStart(s, i)
    && i + |UNRELEASED| <= |s| && s[i..i + |UNRELEASED|] == UNRELEASED
    && var j := SkipBlanks(s, i + |UNRELEASED|);
       j == |s| || IsLineTerminator(s[j])
  }

  /** The heading's text, and blanks after it. */
  ghost predicate IsUnreleasedLine(line: string) {
    exists blanks :: line == "## Unreleased" + blanks && forall c :: c in blanks ==> c in {'\t', ' '}
  }

  lemma SkipBlanksIs(s: string, i: int, j: int)
    requires 0 <= i <= j <= |s| && (forall k :: i <= k < j ==> s[k] in {'\t', ' '})
    requires j == |s| || s[j] !in {'\t', ' '}
    ensures SkipBlanks(s, i) == j
    decreases j - i
  {}

  lemma SkippedBlanks(s: string, i: int)
    requires 0 <= i <= |s|
    ensures forall k :: i <= k < SkipBlanks(s, i) ==> s[k] in {'\t', ' '}
    decreases |s| - i
  {}

  lemma UnreleasedIsLine(s: string, i: int, j: int)
    requires 0 <= i <= j <= |s| && (forall k :: i <= k < j ==> !IsLineTerminator(s[k]))
    requires j == |s| || IsLineTerminator(s[j])
    requires UnreleasedAt(s, i)
    ensures IsUnreleasedLine(s[i..j])
  {
    var n := i + |UNRELEASED|;
    var k := SkipBlanks(s, n);
    SkippedBlanks(s, n);
    forall l | i <= l < n ensures !IsLineTerminator(s[l]) {
      assert s[l] == s[i..n][l - i] == UNRELEASED[l - i];
    }
    hide SkipBlanks;
    assert j == k;
    assert s[i..j] == UNRELEASED + s[n..j];
  }

  /** The heading is at `i` exactly when a line starts there and is the heading's. */
  lemma UnreleasedMeans(s: string, i: int, j: int)
    requires 0 <= i <= j <= |s| && (forall k :: i <= k < j ==> !IsLineTerminator(s[k]))
    requires j == |s| || IsLineTerminator(s[j])
    ensures UnreleasedAt(s, i) <==> (i == 0 || IsLineTerminator(s[i - 1])) && IsUnreleasedLine(s[i..j])
  {
    if UnreleasedAt(s, i) {
      UnreleasedIsLine(s, i, j);
    }
    if (i == 0 || IsLineTerminator(s[i - 1])) && IsUnreleasedLine(s[i..j]) {
      LineIsUnreleased(s, i, j);
    }
    hide SkipBlanks, IsUnreleasedLine;
  }

  lemma LineIsUnreleased(s: string, i: int, j: int)
    requires 0 <= i <= j <= |s| && (j == |s| || IsLineTerminator(s[j]))
    requires (i == 0 || IsLineTerminator(s[i - 1])) && IsUnreleasedLine(s[i..j])
    ensures UnreleasedAt(s, i)
  {
    var blanks :| s[i..j] == "## Unreleased" + blanks && forall c :: c in blanks ==> c in {'\t', ' '};
    var n := i + |UNRELEASED|;
    assert s[i..n] == s[i..j][..|UNRELEASED|] == UNRELEASED;
    assert forall k :: n <= k < j ==> s[k] == blanks[k - n] && blanks[k - n] in blanks;
    SkipBlanksIs(s, n, j);
    hide SkipBlanks;
  }

  lemma UnreleasedIsHeading(s: string, i: int)
    requires 0 <= i <= |s| && UnreleasedAt(s, i)
    ensures HeadingAt(s, i)
  {
    var t := s[i..i + |UNRELEASED|];
    assert s[i] == t[0] && s[i + 1] == t[1] && s[i + 2] == t[2] && s[i + 3] == t[3];
  }

  /** The first heading from `from` on, or the end. */
  function NextHeading(s: string, from: int): (r: int)
    requires 0 <= from <= |s|
    ensures from <= r <= |s|
    ensures r < |s| ==> HeadingAt(s, r)
    ensures forall i :: from <= i < r ==> !HeadingAt(s, i)
    decreases |s| - from
  {
    if from == |s| || HeadingAt(s, from) then from else NextHeading(s, from + 1)
  }

  function NextUnreleased(s: string, from: int): (r: int)
    requires 0 <= from <= |s|
    ensures from <= r <= |s|
    ensures r < |s| ==> UnreleasedAt(s, r)
    ensures forall i :: from <= i < r ==> !UnreleasedAt(s, i)
    decreases |s| - from
  {
    if from == |s| || UnreleasedAt(s, from) then from else NextUnreleased(s, from + 1)
  }

  /** The heading, when `matchAll` finds exactly one. */
  function OneUnreleased(s: string): Option<int> {
    var i := NextUnreleased(s, 0);
    if i < |s| && NextUnreleased(s, i + 1) == |s| then Some(i) else None
  }

  ghost predicate IsOnlyUnreleased(s: string, h: int) {
    0 <= h <= |s| && UnreleasedAt(s, h) && forall i :: 0 <= i <= |s| && UnreleasedAt(s, i) ==> i == h
  }

  lemma OneMeansOnly(s: string, h: int)
    ensures OneUnreleased(s) == Some(h) <==> IsOnlyUnreleased(s, h)
  {
    hide UnreleasedAt, HeadingAt;
    var i := NextUnreleased(s, 0);
    NotAtEnd(s);
    if i < |s| {
      var j := NextUnreleased(s, i + 1);
      if IsOnlyUnreleased(s, h) {
        assert i == h;
      }
    }
  }

  lemma NotAtEnd(s: string)
    ensures !UnreleasedAt(s, |s|) && !HeadingAt(s, |s|)
  {}

  /** `indexOf('\n', from) + 1`, or the end. */
  function EndOfLine(s: string, from: int): (r: int)
    requires 0 <= from <= |s|
    ensures from <= r <= |s|
    ensures r == |s| || (r > from && s[r - 1] == '\n')
    ensures forall i :: from <= i < r - 1 ==> s[i] != '\n'
    decreases |s| - from
  {
    if from == |s| then from else if s[from] == '\n' then from + 1 else EndOfLine(s, from + 1)
  }

  lemma EndOfLineIs(s: string, from: int, k: int)
    requires 0 <= from <= k < |s| && s[k] == '\n' && forall i :: from <= i < k ==> s[i] != '\n'
    ensures EndOfLine(s, from) == k + 1
    decreases k - from
  {}

  // ----- putting text together

  /** Nothing in `t` that starts after a line terminator depends on what comes before. */
  lemma HeadingShift(p: string, t: string, i: int)
    requires (p == "" || IsLineTerminator(p[|p| - 1])) && 0 <= i <= |t|
    ensures HeadingAt(p + t, |p| + i) <==> HeadingAt(t, i)
  {
    var s, j := p + t, |p| + i;
    LineStartShift(p, t, i);
    hide AtLineStart;
    if i + 3 < |t| {
      assert s[j] == t[i] && s[j + 1] == t[i + 1] && s[j + 2] == t[i + 2] && s[j + 3] == t[i + 3];
    }
  }

  lemma LineStartShift(p: string, t: string, i: int)
    requires (p == "" || IsLineTerminator(p[|p| - 1])) && 0 <= i <= |t|
    ensures AtLineStart(p + t, |p| + i) <==> AtLineStart(t, i)
  {
    assert i > 0 ==> (p + t)[|p| + i - 1] == t[i - 1];
    assert i == 0 && p != "" ==> (p + t)[|p| - 1] == p[|p| - 1];
  }

  lemma SliceShift(p: string, t: string, i: int, j: int)
    requires 0 <= i <= j <= |t|
    ensures (p + t)[|p| + i..|p| + j] == t[i..j]
  {}

  lemma {:induction false} SkipShift(p: string, t: string, i: int)
    requires 0 <= i <= |t|
    ensures SkipBlanks(p + t, |p| + i) == |p| + SkipBlanks(t, i)
    decreases |t| - i
  {
    if i < |t| {
      assert (p + t)[|p| + i] == t[i];
      SkipShift(p, t, i + 1);
      assert |p| + i + 1 == |p| + (i + 1);
    }
  }

  lemma UnreleasedShift(p: string, t: string, i: int)
    requires (p == "" || IsLineTerminator(p[|p| - 1])) && 0 <= i <= |t|
    ensures UnreleasedAt(p + t, |p| + i) <==> UnreleasedAt(t, i)
  {
    hide AtLineStart, SkipBlanks;
    var s, n := p + t, |UNRELEASED|;
    LineStartShift(p, t, i);
    if i + n <= |t| {
      SliceShift(p, t, i, i + n);
      SkipShift(p, t, i + n);
      assert |p| + i + n == |p| + (i + n);
      var j := SkipBlanks(t, i + n);
      assert j < |t| ==> s[|p| + j] == t[j];
    }
  }

  /** Nothing before a newline depends on what comes after it. */
  lemma HeadingBefore(a: string, b: string, i: int)
    requires 0 <= i <= |a|
    ensures HeadingAt(a + "\n" + b, i) <==> HeadingAt(a, i)
  {
    var s := a + "\n" + b;
    assert s[|a|] == '\n' && forall k :: 0 <= k < |a| ==> s[k] == a[k];
    assert AtLineStart(s, i) <==> AtLineStart(a, i);
  }

  lemma {:induction false} SkipBefore(a: string, b: string, i: int)
    requires 0 <= i <= |a|
    ensures SkipBlanks(a + "\n" + b, i) == SkipBlanks(a, i)
    decreases |a| - i
  {
    var s := a + "\n" + b;
    assert s[|a|] == '\n';
    if i < |a| {
      assert s[i] == a[i];
      SkipBefore(a, b, i + 1);
    }
  }

  lemma UnreleasedBefore(a: string, b: string, i: int)
    requires 0 <= i <= |a|
    ensures UnreleasedAt(a + "\n" + b, i) <==> UnreleasedAt(a, i)
  {
    var s, n := a + "\n" + b, |UNRELEASED|;
    assert s[|a|] == '\n' && forall k :: 0 <= k < |a| ==> s[k] == a[k];
    assert AtLineStart(s, i) <==> AtLineStart(a, i);
    if i + n <= |a| {
      assert s[i..i + n] == a[i..i + n];
      SkipBefore(a, b, i + n);
    } else if i + n <= |s| {
      assert s[i..i + n][|a| - i] == '\n';
      assert UNRELEASED[|a| - i] != '\n';
    }
  }

  /** No heading, and no `Unreleased` heading. */
  ghost predicate IsHeadingFree(t: string) {
    forall i :: 0 <= i <= |t| ==> !HeadingAt(t, i)
  }

  ghost predicate IsQuiet(t: string) {
    forall i :: 0 <= i <= |t| ==> !UnreleasedAt(t, i)
  }

  lemma FreeIsQuiet(t: string)
    requires IsHeadingFree(t)
    ensures IsQuiet(t)
  {
    forall i | 0 <= i <= |t| ensures !UnreleasedAt(t, i) {
      if UnreleasedAt(t, i) {
        UnreleasedIsHeading(t, i);
      }
    }
  }

  lemma QuietJoin(a: string, b: string)
    requires IsQuiet(a) && IsQuiet(b)
    ensures IsQuiet(a + "\n" + b)
  {
    hide UnreleasedAt;
    var s, p := a + "\n" + b, a + "\n";
    forall i | 0 <= i <= |s| ensures !UnreleasedAt(s, i) {
      if i <= |a| {
        UnreleasedBefore(a, b, i);
      } else {
        UnreleasedShift(p, b, i - |p|);
        assert |p| + (i - |p|) == i && p + b == s;
      }
    }
  }

  lemma FreeJoin(a: string, b: string)
    requires IsHeadingFree(a) && IsHeadingFree(b)
    ensures IsHeadingFree(a + "\n" + b)
  {
    hide HeadingAt;
    var s, p := a + "\n" + b, a + "\n";
    forall i | 0 <= i <= |s| ensures !HeadingAt(s, i) {
      if i <= |a| {
        HeadingBefore(a, b, i);
      } else {
        HeadingShift(p, b, i - |p|);
        assert |p| + (i - |p|) == i && p + b == s;
      }
    }
  }

  /** Text with one `Unreleased` heading keeps it through whatever quiet text follows. */
  lemma OnlyJoin(a: string, b: string, h: int)
    requires IsOnlyUnreleased(a, h) && IsQuiet(b)
    ensures IsOnlyUnreleased(a + "\n" + b, h)
  {
    hide UnreleasedAt;
    var s, p := a + "\n" + b, a + "\n";
    UnreleasedBefore(a, b, h);
    forall i | |a| < i <= |s| ensures !UnreleasedAt(s, i) {
      UnreleasedShift(p, b, i - |p|);
      assert |p| + (i - |p|) == i && p + b == s;
    }
    forall i | 0 <= i <= |a| ensures UnreleasedAt(s, i) ==> i == h {
      UnreleasedBefore(a, b, i);
    }
  }

  lemma NextIs(s: string, from: int, r: int)
    requires 0 <= from <= r <= |s| && (r < |s| ==> HeadingAt(s, r)) && forall i :: from <= i < r ==> !HeadingAt(s, i)
    ensures NextHeading(s, from) == r
  {
    hide HeadingAt;
    var n := NextHeading(s, from);
    NotAtEnd(s);
  }

  lemma NoneBefore(p: string, b: string, i: int)
    requires p != "" && IsLineTerminator(p[|p| - 1]) && |p| <= i < |p| + NextHeading(b, 0)
    ensures !HeadingAt(p + b, i)
  {
    hide HeadingAt;
    HeadingShift(p, b, i - |p|);
    assert |p| + (i - |p|) == i;
  }

  lemma NextShift(p: string, b: string)
    requires p != "" && IsLineTerminator(p[|p| - 1])
    ensures NextHeading(p + b, |p|) == |p| + NextHeading(b, 0)
  {
    hide HeadingAt, IsLineTerminator;
    var n := NextHeading(b, 0);
    if n < |b| {
      HeadingShift(p, b, n);
    }
    forall i | |p| <= i < |p| + n ensures !HeadingAt(p + b, i) {
      NoneBefore(p, b, i);
    }
    NextIs(p + b, |p|, |p| + n);
  }

  /** The search goes on in what follows a newline. */
  lemma NextAfter(a: string, b: string)
    ensures NextHeading(a + "\n" + b, |a| + 1) == |a| + 1 + NextHeading(b, 0)
  {
    hide NextHeading;
    var p := a + "\n";
    assert p[|p| - 1] == '\n' && IsLineTerminator('\n');
    NextShift(p, b);
  }

  lemma NextThrough(a: string, b: string)
    requires IsHeadingFree(a)
    ensures NextHeading(a + "\n" + b, 0) == |a| + 1 + NextHeading(b, 0)
  {
    hide HeadingAt;
    var s := a + "\n" + b;
    NextAfter(a, b);
    var r := NextHeading(s, |a| + 1);
    forall i | 0 <= i < r ensures !HeadingAt(s, i) {
      if i <= |a| {
        HeadingBefore(a, b, i);
      }
    }
    NextIs(s, 0, r);
  }
}
