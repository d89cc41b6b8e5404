/** Collecting the pending changelog (changelog-fragments.ts) and cutting a release from it
    (release.ts). */
module Changelog {
  import opened Wrappers
  import opened Bytes
  import opened Text
  import opened Decimal
  import opened Headings

  const MAX_SAFE_INTEGER: nat := 9007199254740991

  /** A pull request and its line. */
  datatype Pr = Pr(number: nat, entry: string)

  datatype CollectError = HeadingCount | UnsafeNumber(number: nat) | DuplicatePr(number: nat) | NothingPending

  datatype Pending = Pending(entries: string, content: string)

  /** The one `Unreleased` heading, where its body starts, and where the next heading ends it. */
  datatype Section = Section(heading: int, start: int, end: int)

  function Unreleased(s: string): (r: Option<Section>)
    ensures r.Some? ==> 0 <= r.value.heading <= r.value.start <= r.value.end <= |s|
  {
    match OneUnreleased(s)
    case None => None
    case Some(h) =>
      var start := EndOfLine(s, h);
      Some(Section(h, start, NextHeading(s, start)))
  }

  // ----- collecting

  const MARKER := "- [#"

  function DigitsEnd(s: string, i: nat): (r: nat)
    requires i <= |s|
    ensures i <= r <= |s| && forall k :: i <= k < r ==> IsDigit(s[k])
    ensures r < |s| ==> !IsDigit(s[r])
    decreases |s| - i
  {
    if i < |s| && IsDigit(s[i]) then DigitsEnd(s, i + 1) else i
  }

  /** `/^- \[#([1-9]\d*)\]\(/`, and the number it captures. */
  function MarkerNumber(line: string): Option<nat> {
    if !(MARKER <= line) then None
    else
      var d := DigitsEnd(line, |MARKER|);
      if d > |MARKER| && line[|MARKER|] != '0' && d + 2 <= |line| && line[d..d + 2] == "](" then
        Some(Parse(line[|MARKER|..d]))
      else None
  }

  lemma DigitsEndIs(s: string, i: nat, k: nat)
    requires i <= k < |s| && (forall j :: i <= j < k ==> IsDigit(s[j])) && !IsDigit(s[k])
    ensures DigitsEnd(s, i) == k
  {}

  lemma MarkerParts(digits: string, rest: string)
    ensures var line, d := "- [#" + digits + "](" + rest, 4 + |digits|;
            && MARKER <= line && line[4..d] == digits && d + 2 <= |line| && line[d..d + 2] == "]("
            && line[d] == ']' && forall k :: 4 <= k < d ==> line[k] == digits[k - 4]
  {}

  lemma MarkerFound(line: string, digits: string, rest: string)
    requires digits != "" && digits[0] != '0' && forall i :: 0 <= i < |digits| ==> IsDigit(digits[i])
    requires line == "- [#" + digits + "](" + rest
    ensures MarkerNumber(line) == Some(Parse(digits))
  {
    MarkerParts(digits, rest);
    DigitsEndIs(line, 4, 4 + |digits|);
    assert line[4] == digits[0];
    hide Parse, DigitsEnd;
  }

  lemma FourParts(s: string, a: nat, b: nat, c: nat)
    requires a <= b <= c <= |s|
    ensures s == s[..a] + s[a..b] + s[b..c] + s[c..]
  {}

  lemma MarkerTaken(line: string)
    requires MarkerNumber(line).Some?
    ensures var d := DigitsEnd(line, 4);
            && 4 < d && line[4] != '0' && d + 2 <= |line| && line == "- [#" + line[4..d] + "](" + line[d + 2..]
            && MarkerNumber(line).value == Parse(line[4..d])
  {
    hide Parse, DigitsEnd;
    var d := DigitsEnd(line, 4);
    FourParts(line, 4, d, d + 2);
    assert line[..4] == MARKER && line[d..d + 2] == "](";
  }

  /** A line is a pull request's exactly when it starts with that number, as it is printed, in brackets
      and an opening parenthesis. */
  lemma MarkerMeans(line: string, n: nat)
    ensures MarkerNumber(line) == Some(n) <==> n > 0 && exists rest :: line == "- [#" + Render(n) + "](" + rest
  {
    if MarkerNumber(line) == Some(n) {
      MarkerTaken(line);
      RenderParse(line[4..DigitsEnd(line, 4)]);
    }
    if rest :| n > 0 && line == "- [#" + Render(n) + "](" + rest {
      ParseRender(n);
      MarkerFound(line, Render(n), rest);
    }
    hide Render, Parse, MarkerNumber;
  }

  predicate HasNumber(prs: seq<Pr>, n: nat) {
    exists p :: p in prs && p.number == n
  }

  /** `add` */
  function AddPr(prs: seq<Pr>, n: nat, entry: string): Result<seq<Pr>, CollectError> {
    if n == 0 || n > MAX_SAFE_INTEGER then Err(UnsafeNumber(n))
    else if HasNumber(prs, n) then Err(DuplicatePr(n))
    else Ok(prs + [Pr(n, entry)])
  }

  datatype Gathered = Gathered(prs: seq<Pr>, legacy: seq<string>)

  function GatherLine(g: Gathered, line: string): Result<Gathered, CollectError> {
    match MarkerNumber(line)
    case None => Ok(Gathered(g.prs, g.legacy + [line]))
    case Some(n) =>
      match AddPr(g.prs, n, line)
      case Err(e) => Err(e)
      case Ok(prs) => Ok(Gathered(prs, g.legacy))
  }

  function GatherLines(lines: seq<string>): Result<Gathered, CollectError> {
    if lines == [] then Ok(Gathered([], []))
    else
      match GatherLines(lines[..|lines| - 1])
      case Err(e) => Err(e)
      case Ok(g) => GatherLine(g, lines[|lines| - 1])
  }

  function AddFragments(prs: seq<Pr>, fragments: seq<Pr>): Result<seq<Pr>, CollectError> {
    if fragments == [] then Ok(prs)
    else
      match AddFragments(prs, fragments[..|fragments| - 1])
      case Err(e) => Err(e)
      case Ok(more) => AddPr(more, fragments[|fragments| - 1].number, fragments[|fragments| - 1].entry)
  }

  function Insert(p: Pr, prs: seq<Pr>): seq<Pr> {
    if prs == [] || p.number >= prs[0].number then [p] + prs else [prs[0]] + Insert(p, prs[1..])
  }

  /** `sort(([a], [b]) => b - a)` */
  function SortDown(prs: seq<Pr>): seq<Pr> {
    if prs == [] then [] else Insert(prs[0], SortDown(prs[1..]))
  }

  function EntriesOf(prs: seq<Pr>): (r: seq<string>)
    ensures |r| == |prs| && forall i :: 0 <= i < |r| ==> r[i] == prs[i].entry
  {
    seq(|prs|, i requires 0 <= i < |prs| => prs[i].entry)
  }

  function JoinLines(lines: seq<string>): string {
    if lines == [] then "" else Join(lines, '\n')
  }

  function BodyLines(changelog: string, s: Section): (r: seq<string>)
    requires 0 <= s.start <= s.end <= |changelog|
    ensures r != []
  {
    Split(Trim(changelog[s.start..s.end]), '\n')
  }

  /** `collectPendingChangelog`, the fragments already read. */
  function Collect(changelog: string, fragments: seq<Pr>): Result<Pending, CollectError> {
    match Unreleased(changelog)
    case None => Err(HeadingCount)
    case Some(s) =>
      match GatherLines(BodyLines(changelog, s))
      case Err(e) => Err(e)
      case Ok(g) =>
        match AddFragments(g.prs, fragments)
        case Err(e) => Err(e)
        case Ok(prs) =>
          var entries := Trim(JoinLines(EntriesOf(SortDown(prs)) + g.legacy));
          if entries == "" then Err(NothingPending)
          else Ok(Pending(entries, changelog[..s.start] + "\n" + entries + "\n\n" + changelog[s.end..]))
  }

  /** The collection as it runs, filling `prs` and `legacy` line by line. */
  method CollectPending(changelog: string, fragments: seq<Pr>) returns (r: Result<Pending, CollectError>)
    ensures r == Collect(changelog, fragments)
  {
    hide GatherLine, AddPr, BodyLines, SortDown, JoinLines, Unreleased;
    var section := Unreleased(changelog);
    if section.None? {
      return Err(HeadingCount);
    }
    var s := section.value;
    var lines := BodyLines(changelog, s);
    var g := Gathered([], []);
    for i := 0 to |lines|
      invariant GatherLines(lines[..i]) == Ok(g)
    {
      assert lines[..i + 1][..i] == lines[..i];
      var next := GatherLine(g, lines[i]);
      if next.Err? {
        GatherStops(lines, i + 1);
        return Err(next.error);
      }
      g := next.value;
    }
    assert lines[..|lines|] == lines;
    var prs := g.prs;
    for i := 0 to |fragments|
      invariant AddFragments(g.prs, fragments[..i]) == Ok(prs)
    {
      assert fragments[..i + 1][..i] == fragments[..i];
      var next := AddPr(prs, fragments[i].number, fragments[i].entry);
      if next.Err? {
        AddStops(g.prs, fragments, i + 1);
        return Err(next.error);
      }
      prs := next.value;
    }
    assert fragments[..|fragments|] == fragments;
    var entries := Trim(JoinLines(EntriesOf(SortDown(prs)) + g.legacy));
    if entries == "" {
      return Err(NothingPending);
    }
    return Ok(Pending(entries, changelog[..s.start] + "\n" + entries + "\n\n" + changelog[s.end..]));
  }

  lemma {:induction false} GatherStops(lines: seq<string>, i: nat)
    requires i <= |lines| && GatherLines(lines[..i]).Err?
    ensures GatherLines(lines) == GatherLines(lines[..i])
  {
    if i == |lines| {
      assert lines[..i] == lines;
    } else {
      assert lines[..|lines| - 1][..i] == lines[..i];
      GatherStops(lines[..|lines| - 1], i);
    }
  }

  lemma {:induction false} AddStops(prs: seq<Pr>, fragments: seq<Pr>, i: nat)
    requires i <= |fragments| && AddFragments(prs, fragments[..i]).Err?
    ensures AddFragments(prs, fragments) == AddFragments(prs, fragments[..i])
  {
    if i == |fragments| {
      assert fragments[..i] == fragments;
    } else {
      assert fragments[..|fragments| - 1][..i] == fragments[..i];
      AddStops(prs, fragments[..|fragments| - 1], i);
    }
  }

  // ----- what is collected

  /** The body's pull request lines, and its other lines, each in order. */
  function PrLines(lines: seq<string>): seq<Pr> {
    if lines == [] then []
    else
      var last := lines[|lines| - 1];
      PrLines(lines[..|lines| - 1]) + if MarkerNumber(last).Some? then [Pr(MarkerNumber(last).value, last)] else []
  }

  function LegacyLines(lines: seq<string>): seq<string> {
    if lines == [] then []
    else
      var last := lines[|lines| - 1];
      LegacyLines(lines[..|lines| - 1]) + if MarkerNumber(last).None? then [last] else []
  }

  ghost predicate DistinctNumbers(prs: seq<Pr>) {
    forall i, j :: 0 <= i < j < |prs| ==> prs[i].number != prs[j].number
  }

  lemma {:induction false} GatheredIs(lines: seq<string>)
    requires GatherLines(lines).Ok?
    ensures GatherLines(lines).value == Gathered(PrLines(lines), LegacyLines(lines)) && DistinctNumbers(PrLines(lines))
  {
    hide MarkerNumber;
    if lines != [] {
      GatheredIs(lines[..|lines| - 1]);
      var before, n := PrLines(lines[..|lines| - 1]), MarkerNumber(lines[|lines| - 1]);
      if n.Some? {
        assert forall k :: 0 <= k < |before| ==> before[k] in before;
      }
    }
  }

  lemma {:induction false} FragmentsAdded(prs: seq<Pr>, fragments: seq<Pr>)
    requires AddFragments(prs, fragments).Ok? && DistinctNumbers(prs)
    ensures AddFragments(prs, fragments).value == prs + fragments && DistinctNumbers(prs + fragments)
  {
    if fragments == [] {
      assert prs + fragments == prs;
    } else {
      var init, last := fragments[..|fragments| - 1], fragments[|fragments| - 1];
      FragmentsAdded(prs, init);
      var before := prs + init;
      assert prs + fragments == before + [Pr(last.number, last.entry)];
      assert forall k :: 0 <= k < |before| ==> before[k] in before;
    }
  }

  ghost predicate Descending(prs: seq<Pr>) {
    forall i, j :: 0 <= i < j < |prs| ==> prs[i].number > prs[j].number
  }

  lemma {:induction false} InsertKeeps(p: Pr, prs: seq<Pr>)
    ensures multiset(Insert(p, prs)) == multiset([p]) + multiset(prs)
    decreases prs
  {
    if prs != [] && p.number < prs[0].number {
      assert prs == [prs[0]] + prs[1..];
      InsertKeeps(p, prs[1..]);
    }
  }

  lemma DescendingCons(q: Pr, rest: seq<Pr>)
    requires Descending(rest) && forall x :: x in rest ==> x.number < q.number
    ensures Descending([q] + rest)
  {
    var all := [q] + rest;
    forall i, j | 0 <= i < j < |all| ensures all[i].number > all[j].number {
      assert all[j] == rest[j - 1] && rest[j - 1] in rest;
      assert i > 0 ==> all[i] == rest[i - 1];
    }
  }

  lemma DescendingTail(prs: seq<Pr>)
    requires Descending(prs) && prs != []
    ensures Descending(prs[1..]) && forall x :: x in prs[1..] ==> x.number < prs[0].number
  {
    assert forall k :: 0 <= k < |prs[1..]| ==> prs[1..][k] == prs[k + 1];
  }

  lemma {:induction false} InsertSorts(p: Pr, prs: seq<Pr>)
    requires Descending(prs) && forall q :: q in prs ==> q.number != p.number
    ensures Descending(Insert(p, prs))
    decreases prs
  {
    if prs == [] {
      DescendingCons(p, []);
    } else {
      hide Descending;
      DescendingTail(prs);
      assert prs[0] in prs && forall x :: x in prs[1..] ==> x in prs;
      if p.number >= prs[0].number {
        forall q | q in prs ensures q.number < p.number {
          assert q == prs[0] || q in prs[1..];
        }
        DescendingCons(p, prs);
      } else {
        InsertSorts(p, prs[1..]);
        InsertKeeps(p, prs[1..]);
        var rest := Insert(p, prs[1..]);
        forall q | q in rest ensures q.number < prs[0].number {
          assert q in multiset(rest);
        }
        DescendingCons(prs[0], rest);
      }
    }
  }

  lemma {:induction false} SortDownSorts(prs: seq<Pr>)
    requires DistinctNumbers(prs)
    ensures multiset(SortDown(prs)) == multiset(prs) && Descending(SortDown(prs))
  {
    if prs != [] {
      SortDownSorts(prs[1..]);
      assert prs == [prs[0]] + prs[1..];
      var rest := SortDown(prs[1..]);
      forall q | q in rest ensures q.number != prs[0].number {
        assert q in multiset(rest);
        var k :| 0 <= k < |prs[1..]| && prs[1..][k] == q;
        assert prs[k + 1] == q;
      }
      InsertSorts(prs[0], rest);
      InsertKeeps(prs[0], rest);
    }
  }

  /** The entries are every pull request of the body and the fragments exactly once, by descending
      number, and after them the body's other lines in order; only the edges of the whole are trimmed. */
  ghost predicate IsGathering(lines: seq<string>, fragments: seq<Pr>, prs: seq<Pr>, entries: string) {
    && multiset(prs) == multiset(PrLines(lines) + fragments)
    && Descending(prs)
    && entries == Trim(JoinLines(EntriesOf(prs) + LegacyLines(lines)))
  }

  lemma EntriesOnceDescending(changelog: string, fragments: seq<Pr>)
    ensures Collect(changelog, fragments).Ok? ==>
              && Unreleased(changelog).Some?
              && exists prs :: IsGathering(BodyLines(changelog, Unreleased(changelog).value), fragments, prs,
                                           Collect(changelog, fragments).value.entries)
  {
    hide Unreleased, BodyLines, JoinLines, Trim, SortDown, EntriesOf, PrLines, LegacyLines;
    if Collect(changelog, fragments).Ok? {
      var lines := BodyLines(changelog, Unreleased(changelog).value);
      GatheredIs(lines);
      FragmentsAdded(PrLines(lines), fragments);
      var prs := SortDown(PrLines(lines) + fragments);
      SortDownSorts(PrLines(lines) + fragments);
      assert IsGathering(lines, fragments, prs, Collect(changelog, fragments).value.entries);
    }
  }

  // ----- what is refused

  /** The first of the pull requests that cannot be added: its number is no safe positive integer, or
      is there already. */
  ghost predicate IsRefused(prs: seq<Pr>, k: nat, e: CollectError) {
    && k < |prs| && DistinctNumbers(prs[..k]) && (forall j :: 0 <= j < k ==> IsSafe(prs[j].number))
    && if !IsSafe(prs[k].number) then e == UnsafeNumber(prs[k].number)
       else e == DuplicatePr(prs[k].number) && exists j :: 0 <= j < k && prs[j].number == prs[k].number
  }

  predicate IsSafe(n: nat) { 0 < n < 0x20_0000_0000_0000 }

  ghost predicate AllAdded(prs: seq<Pr>) {
    DistinctNumbers(prs) && forall p :: p in prs ==> IsSafe(p.number)
  }

  lemma AddedOne(front: seq<Pr>, last: Pr)
    requires AllAdded(front)
    ensures var r, prs := AddPr(front, last.number, last.entry), front + [last];
            if r.Ok? then r.value == prs && AllAdded(prs) else IsRefused(prs, |front|, r.error)
  {
    var prs := front + [last];
    assert prs[..|front|] == front;
    if HasNumber(front, last.number) {
      var p :| p in front && p.number == last.number;
      var j :| 0 <= j < |front| && front[j] == p;
      assert prs[j].number == prs[|front|].number;
    } else {
      assert forall j :: 0 <= j < |front| ==> front[j] in front;
    }
  }

  lemma AddedNext(prs: seq<Pr>, front: seq<Pr>, p: Pr)
    ensures var before := AddFragments(prs, front);
            AddFragments(prs, front + [p]) == if before.Ok? then AddPr(before.value, p.number, p.entry) else before
  {
    assert (front + [p])[..|front|] == front;
  }

  lemma {:induction false} AddedMeans(prs: seq<Pr>)
    ensures var r := AddFragments([], prs);
            if r.Ok? then r.value == prs && AllAdded(prs) else exists k: nat :: IsRefused(prs, k, r.error)
  {
    hide AddPr;
    if prs != [] {
      var front, last := prs[..|prs| - 1], prs[|prs| - 1];
      assert prs == front + [last];
      AddedMeans(front);
      AddedNext([], front, last);
      var before, r := AddFragments([], front), AddFragments([], prs);
      if before.Err? {
        var k: nat :| IsRefused(front, k, before.error);
        assert prs[..k] == front[..k];
        assert IsRefused(prs, k, r.error);
      } else {
        hide AddFragments, AllAdded, IsRefused;
        AddedOne(front, last);
        if r.Err? {
          assert IsRefused(prs, |front|, r.error);
        }
      }
    }
  }

  lemma {:induction false} AddedInTurn(a: seq<Pr>, b: seq<Pr>)
    ensures AddFragments([], a + b) == if AddFragments([], a).Ok? then AddFragments(AddFragments([], a).value, b)
                                       else AddFragments([], a)
  {
    if b == [] {
      assert a + b == a;
    } else {
      assert (a + b)[..|a + b| - 1] == a + b[..|b| - 1];
      AddedInTurn(a, b[..|b| - 1]);
    }
  }

  /** The body's lines are added as its pull requests are. */
  lemma {:induction false} LinesAdded(lines: seq<string>)
    ensures var added := AddFragments([], PrLines(lines));
            GatherLines(lines) == if added.Ok? then Ok(Gathered(added.value, LegacyLines(lines))) else Err(added.error)
  {
    hide MarkerNumber, AddPr;
    if lines != [] {
      var front, last := lines[..|lines| - 1], lines[|lines| - 1];
      LinesAdded(front);
      var n := MarkerNumber(last);
      if n.Some? {
        AddedNext([], PrLines(front), Pr(n.value, last));
        assert LegacyLines(front) + [] == LegacyLines(front);
      } else {
        assert PrLines(front) + [] == PrLines(front);
      }
    }
  }

  /** When collecting fails, given the one heading: for the first pull request, the body's before the
      fragments', that cannot be added, and otherwise exactly when nothing is pending. */
  lemma CollectMeans(changelog: string, fragments: seq<Pr>, s: Section)
    requires Unreleased(changelog) == Some(s)
    ensures var r, lines := Collect(changelog, fragments), BodyLines(changelog, s);
            var prs := PrLines(lines) + fragments;
            var entries := Trim(JoinLines(EntriesOf(SortDown(prs)) + LegacyLines(lines)));
            if AllAdded(prs)
                then (if entries == "" then r == Err(NothingPending) else r.Ok? && r.value.entries == entries)
            else r.Err? && exists k: nat :: IsRefused(prs, k, r.error)
  {
    hide Unreleased, BodyLines, JoinLines, Trim, SortDown, EntriesOf, PrLines, LegacyLines;
    var lines := BodyLines(changelog, s);
    var prs := PrLines(lines) + fragments;
    LinesAdded(lines);
    AddedMeans(prs);
    AddedInTurn(PrLines(lines), fragments);
    if AddFragments([], prs).Err? {
      var k: nat :| IsRefused(prs, k, AddFragments([], prs).error);
      RefusedNotAdded(prs, k, AddFragments([], prs).error);
    }
    hide AddFragments, GatherLines, AllAdded, IsRefused;
  }

  lemma RefusedNotAdded(prs: seq<Pr>, k: nat, e: CollectError)
    requires IsRefused(prs, k, e)
    ensures !AllAdded(prs)
  {
    assert prs[k] in prs;
  }

  lemma NoHeadingMeans(changelog: string, fragments: seq<Pr>)
    ensures Unreleased(changelog).None? <==> forall h :: !IsOnlyUnreleased(changelog, h)
  {
    hide IsOnlyUnreleased, EndOfLine, NextHeading;
    forall h ensures OneUnreleased(changelog) == Some(h) <==> IsOnlyUnreleased(changelog, h) {
      OneMeansOnly(changelog, h);
    }
    hide OneUnreleased;
  }

  // ----- cutting

  datatype CutError = NotOneHeading | NoEntries | LostHeading | NotEmptied

  datatype Release = Release(content: string, cutSection: string, entries: string)

  /** `^(?:[\t ]*\r?\n)+` removed. */
  function DropLeading(s: string): (r: string)
    ensures |r| <= |s|
    decreases |s|
  {
    var k := SkipBlanks(s, 0);
    if k < |s| && s[k] == '\n' then DropLeading(s[k + 1..])
    else if k + 1 < |s| && s[k] == '\r' && s[k + 1] == '\n' then DropLeading(s[k + 2..])
    else s
  }

  function BlankTail(s: string): (r: nat)
    ensures r <= |s|
  {
    if s != "" && (s[|s| - 1] == '\t' || s[|s| - 1] == ' ') then BlankTail(s[..|s| - 1]) else |s|
  }

  /** `(?:\r?\n[\t ]*)+$` removed. */
  function DropTrailing(s: string): (r: string)
    ensures |r| <= |s|
    decreases |s|
  {
    var k := BlankTail(s);
    if k > 0 && s[k - 1] == '\n' then
      DropTrailing(if k > 1 && s[k - 2] == '\r' then s[..k - 2] else s[..k - 1])
    else s
  }

  function TrimBlankEdges(s: string): (r: string)
    ensures |r| <= |s|
  {
    DropTrailing(DropLeading(s))
  }

  ghost predicate AreBlanks(s: string) {
    forall c :: c in s ==> c in {'\t', ' '}
  }

  /** Blanks and a line's end, as at the start of the section. */
  ghost predicate IsBlankLine(l: string) {
    exists blanks :: AreBlanks(blanks) && l in {blanks + "\n", blanks + "\r\n"}
  }

  /** A line's end and blanks, as at the end of the section. */
  ghost predicate IsLineEnd(l: string) {
    exists blanks :: AreBlanks(blanks) && l in {"\n" + blanks, "\r\n" + blanks}
  }

  /** What is dropped at the start is blank lines, and all of them. */
  lemma {:induction false} DropLeadingMeans(s: string) returns (lines: seq<string>)
    ensures (forall l :: l in lines ==> IsBlankLine(l)) && s == Concat(lines) + DropLeading(s)
    ensures forall l, rest :: IsBlankLine(l) ==> DropLeading(s) != l + rest
    decreases |s|
  {
    hide IsBlankLine, Concat, DropLeading;
    var n := FirstBlankLine(s);
    if n > 0 {
      lines := DropLeadingMeans(s[n..]);
      LineAhead(s[..n], lines, DropLeading(s[n..]));
      lines := [s[..n]] + lines;
    } else {
      lines := [];
      NoLines();
    }
  }

  /** The length of the blank line that is dropped first, or zero. */
  lemma FirstBlankLine(s: string) returns (n: nat)
    ensures n <= |s|
    ensures n > 0 ==> IsBlankLine(s[..n]) && s == s[..n] + s[n..] && DropLeading(s) == DropLeading(s[n..])
    ensures n == 0 ==> DropLeading(s) == s && forall l, rest :: IsBlankLine(l) ==> s != l + rest
  {
    hide IsBlankLine;
    var k := SkipBlanks(s, 0);
    SkippedBlanks(s, 0);
    n := if k < |s| && s[k] == '\n' then k + 1
         else if k + 1 < |s| && s[k] == '\r' && s[k + 1] == '\n' then k + 2 else 0;
    if n > 0 {
      assert s[k..n] == if n == k + 1 then "\n" else "\r\n";
      BlankLineTaken(s, k, n);
    } else {
      forall l, rest | IsBlankLine(l) ensures s != l + rest {
        NoBlankLine(s, l, rest);
      }
    }
  }

  lemma NoLines()
    ensures Concat<char>([]) == []
  {}

  lemma LineAhead(line: string, lines: seq<string>, rest: string)
    requires IsBlankLine(line) && forall l :: l in lines ==> IsBlankLine(l)
    ensures (forall l :: l in [line] + lines ==> IsBlankLine(l))
              && line + (Concat(lines) + rest) == Concat([line] + lines) + rest
  {
    hide IsBlankLine;
    assert ([line] + lines)[1..] == lines;
    assert line + (Concat(lines) + rest) == (line + Concat(lines)) + rest;
  }

  lemma BlankLineTaken(s: string, k: nat, n: nat)
    requires k < n <= |s| && AreBlanks(s[..k]) && s[k..n] in {"\n", "\r\n"}
    ensures IsBlankLine(s[..n]) && s == s[..n] + s[n..]
  {
    assert s[..n] == s[..k] + s[k..n];
  }

  lemma NoBlankLine(s: string, l: string, rest: string)
    requires var k := SkipBlanks(s, 0);
             !(k < |s| && s[k] == '\n') && !(k + 1 < |s| && s[k] == '\r' && s[k + 1] == '\n')
    requires IsBlankLine(l)
    ensures s != l + rest
  {
    if s == l + rest {
      var blanks :| AreBlanks(blanks) && l in {blanks + "\n", blanks + "\r\n"};
      assert forall i :: 0 <= i < |blanks| ==> s[i] == blanks[i] && blanks[i] in blanks;
      SkipBlanksIs(s, 0, |blanks|);
    }
  }

  /** What is dropped at the end is line ends with blanks after them, and all of them. */
  lemma {:induction false} DropTrailingMeans(s: string) returns (ends: seq<string>)
    ensures (forall l :: l in ends ==> IsLineEnd(l)) && s == DropTrailing(s) + Concat(ends)
    ensures forall front, l :: IsLineEnd(l) ==> DropTrailing(s) != front + l
    decreases |s|
  {
    hide IsLineEnd, Concat, DropTrailing;
    var n := LastLineEnd(s);
    if n < |s| {
      var before := DropTrailingMeans(s[..n]);
      LineBehind(DropTrailing(s[..n]), before, s[n..]);
      ends := before + [s[n..]];
    } else {
      ends := [];
      NoLines();
    }
  }

  /** Where the line end that is dropped first starts, or the end. */
  lemma LastLineEnd(s: string) returns (n: nat)
    ensures n <= |s|
    ensures n < |s| ==> IsLineEnd(s[n..]) && s == s[..n] + s[n..] && DropTrailing(s) == DropTrailing(s[..n])
    ensures n == |s| ==> DropTrailing(s) == s && forall front, l :: IsLineEnd(l) ==> s != front + l
  {
    hide IsLineEnd;
    var k := BlankTail(s);
    BlankTailMeans(s);
    n := if k > 0 && s[k - 1] == '\n' then (if k > 1 && s[k - 2] == '\r' then k - 2 else k - 1) else |s|;
    if n < |s| {
      assert s[n..k] == if n == k - 1 then "\n" else "\r\n";
      LineEndTaken(s, n, k);
    } else {
      forall front, l | IsLineEnd(l) ensures s != front + l {
        NoLineEnd(s, front, l);
      }
    }
  }

  lemma {:induction false} BlankTailMeans(s: string)
    ensures AreBlanks(s[BlankTail(s)..])
    ensures BlankTail(s) > 0 ==> s[BlankTail(s) - 1] !in {'\t', ' '}
  {
    if s != "" && s[|s| - 1] in {'\t', ' '} {
      var front := s[..|s| - 1];
      BlankTailMeans(front);
      assert s[BlankTail(s)..] == front[BlankTail(front)..] + [s[|s| - 1]];
    }
  }

  lemma LineEndTaken(s: string, n: nat, k: nat)
    requires n < k <= |s| && AreBlanks(s[k..]) && s[n..k] in {"\n", "\r\n"}
    ensures IsLineEnd(s[n..]) && s == s[..n] + s[n..]
  {
    assert s[n..] == s[n..k] + s[k..];
  }

  lemma LineBehind(rest: string, ends: seq<string>, line: string)
    requires IsLineEnd(line) && forall l :: l in ends ==> IsLineEnd(l)
    ensures (forall l :: l in ends + [line] ==> IsLineEnd(l))
              && (rest + Concat(ends)) + line == rest + Concat(ends + [line])
  {
    hide IsLineEnd;
    ConcatSnoc(ends, line);
    assert (rest + Concat(ends)) + line == rest + (Concat(ends) + line);
  }

  lemma {:induction false} BlankTailIs(s: string, e: nat)
    requires e <= |s| && (forall i :: e <= i < |s| ==> s[i] in {'\t', ' '}) && (e > 0 ==> s[e - 1] !in {'\t', ' '})
    ensures BlankTail(s) == e
  {
    if e < |s| {
      BlankTailIs(s[..|s| - 1], e);
    }
  }

  lemma NoLineEnd(s: string, front: string, l: string)
    requires var k := BlankTail(s); !(k > 0 && s[k - 1] == '\n')
    requires IsLineEnd(l)
    ensures s != front + l
  {
    if s == front + l {
      var blanks :| AreBlanks(blanks) && l in {"\n" + blanks, "\r\n" + blanks};
      var e := |s| - |blanks|;
      assert s[e - 1] == '\n' && forall i :: e <= i < |s| ==> s[i] == blanks[i - e] && blanks[i - e] in blanks;
      BlankTailIs(s, e);
    }
  }

  function CutSection(title: string, summary: Option<string>, entries: string): string {
    "## " + title + "\n\n" + (if summary.Some? then summary.value + "\n\n" else "") + entries + "\n"
  }

  /** `renderReleasedChangelog`; `title` is the tag, a dash and the date. */
  function Cut(changelog: string, title: string, summary: Option<string>): Result<Release, CutError> {
    match Unreleased(changelog)
    case None => Err(NotOneHeading)
    case Some(s) =>
      var entries := TrimBlankEdges(changelog[s.start..s.end]);
      if Trim(entries) == "" then Err(NoEntries)
      else
        var suffix := changelog[s.end..];
        var cut := CutSection(title, summary, entries);
        var content := changelog[..s.start] + "\n" + cut + (if suffix == "" then "" else "\n") + suffix;
        match Unreleased(content)
        case None => Err(LostHeading)
        case Some(t) => if Trim(content[t.start..t.end]) != "" then Err(NotEmptied)
            else Ok(Release(content, cut, entries))
  }
}
