/** Changelog fragments: `parseFragment` and `renderFragment` of changelog-fragments.ts, and what merging
    them can bring into the pending entries. */
module ChangelogFragment {
  import opened Wrappers
  import opened Text
  import opened Decimal
  import opened Headings
  import opened Changelog

  predicate IsUrlChar(c: char) {
    !IsSpace(c) && c != '(' && c != ')'
  }

  function UrlEnd(s: string, i: nat): (r: nat)
    requires i <= |s|
    ensures i <= r <= |s| && forall k :: i <= k < r ==> IsUrlChar(s[k])
    ensures r < |s| ==> !IsUrlChar(s[r])
    decreases |s| - i
  {
    if i < |s| && IsUrlChar(s[i]) then UrlEnd(s, i + 1) else i
  }

  const SEPARATOR := ") \U{2014} "

  /** A captured group and what follows it. */
  datatype Capture = Capture(text: string, rest: string)

  /** `- [#([1-9]\d*)](` */
  function CaptureNumber(s: string): Option<Capture> {
    if !(MARKER <= s) then None
    else
      var t := s[|MARKER|..];
      var d := DigitsEnd(t, 0);
      if d == 0 || t[0] == '0' || !("](" <= t[d..]) then None else Some(Capture(t[..d], t[d + 2..]))
  }

  /** `([^\s()]+)) — ` */
  function CaptureUrl(t: string): Option<Capture> {
    var u := UrlEnd(t, 0);
    if u == 0 || !(SEPARATOR <= t[u..]) then None else Some(Capture(t[..u], t[u + |SEPARATOR|..]))
  }

  /** `(\S[^\r\n]*)\n$` */
  function CaptureTitle(t: string): Option<string> {
    if t == "" || t[|t| - 1] != '\n' then None
    else
      var title := t[..|t| - 1];
      if title == "" || IsSpace(title[0]) || '\r' in title || '\n' in title then None else Some(title)
  }

  /** `parseFragment` for the fragment file of `number`: the entry, if the file is well formed. */
  function ParseFragment(number: nat, content: string): Option<string> {
    match CaptureNumber(content)
    case None => None
    case Some(n) =>
      match CaptureUrl(n.rest)
      case None => None
      case Some(u) =>
        match CaptureTitle(u.rest)
        case None => None
        case Some(title) =>
          if (forall i :: 0 <= i < |n.text| ==> IsDigit(n.text[i])) && Parse(n.text) == number
              && Trim(title) == title then
            Some(content[..|content| - 1])
          else None
  }

  function Content(number: nat, url: string, title: string): string {
    "- [#" + (Render(number) + ("](" + (url + (") \U{2014} " + (title + "\n")))))
  }

  predicate IsUrl(url: string) {
    url != "" && forall i :: 0 <= i < |url| ==> !IsSpace(url[i]) && url[i] != '(' && url[i] != ')'
  }

  predicate IsEntryTitle(title: string) {
    title != "" && IsTrimmed(title) && '\r' !in title && '\n' !in title
  }

  lemma UrlEndIs(s: string, i: nat, k: nat)
    requires i <= k < |s| && (forall j :: i <= j < k ==> IsUrlChar(s[j])) && !IsUrlChar(s[k])
    ensures UrlEnd(s, i) == k
  {}

  lemma NumberCaptured(digits: string, rest: string)
    requires digits != "" && digits[0] != '0' && forall i :: 0 <= i < |digits| ==> IsDigit(digits[i])
    ensures CaptureNumber(MARKER + (digits + ("](" + rest))) == Some(Capture(digits, rest))
  {
    var t := digits + ("](" + rest);
    assert (MARKER + t)[|MARKER|..] == t;
    DigitsEndIs(t, 0, |digits|);
    assert t[..|digits|] == digits && t[|digits|..] == "](" + rest && t[|digits| + 2..] == rest;
  }

  lemma UrlChars(url: string)
    ensures IsUrl(url) <==> url != "" && forall i :: 0 <= i < |url| ==> IsUrlChar(url[i])
  {
    hide IsSpace;
  }

  lemma UrlCaptured(url: string, rest: string)
    requires IsUrl(url)
    ensures CaptureUrl(url + (SEPARATOR + rest)) == Some(Capture(url, rest))
  {
    UrlChars(url);
    hide IsUrlChar;
    var t := url + (SEPARATOR + rest);
    assert t[|url|] == ')';
    ParenthesisEnds();
    UrlEndIs(t, 0, |url|);
    assert t[..|url|] == url && t[|url|..] == SEPARATOR + rest && t[|url| + |SEPARATOR|..] == rest;
  }

  lemma ParenthesisEnds()
    ensures !IsUrlChar(')')
  {}

  lemma TitleCaptured(title: string)
    requires IsEntryTitle(title)
    ensures CaptureTitle(title + "\n") == Some(title)
  {
    assert (title + "\n")[..|title|] == title;
  }

  /** What `renderFragment` writes for a usable URL and title is accepted back, as the same line. */
  lemma RenderedParses(number: nat, url: string, title: string)
    requires number > 0 && IsUrl(url) && IsEntryTitle(title)
    ensures ParseFragment(number, Content(number, url, title))
              == Some(Content(number, url, title)[..|Content(number, url, title)| - 1])
  {
    hide CaptureNumber, CaptureUrl, CaptureTitle, IsUrl, Trim, Render, Parse;
    ParseRender(number);
    NumberCaptured(Render(number), url + (SEPARATOR + (title + "\n")));
    UrlCaptured(url, title + "\n");
    TitleCaptured(title);
    TrimTrimmed(title);
  }

  lemma NumberRecovered(s: string)
    requires CaptureNumber(s).Some?
    ensures var c := CaptureNumber(s).value;
            && s == MARKER + (c.text + ("](" + c.rest))
            && c.text != "" && c.text[0] != '0' && forall i :: 0 <= i < |c.text| ==> IsDigit(c.text[i])
  {
    hide DigitsEnd, IsDigit;
    var t := s[|MARKER|..];
    var d := DigitsEnd(t, 0);
    assert t[d..][..2] == "](" && t[d..][2..] == t[d + 2..];
    assert t[d..] == "](" + t[d + 2..];
    assert t == t[..d] + t[d..];
    assert s == MARKER + t;
  }

  lemma UrlRecovered(t: string)
    requires CaptureUrl(t).Some?
    ensures var c := CaptureUrl(t).value; t == c.text + (SEPARATOR + c.rest) && IsUrl(c.text)
  {
    UrlChars(t[..UrlEnd(t, 0)]);
    hide IsUrlChar;
    var u := UrlEnd(t, 0);
    assert t == t[..u] + t[u..] && t[u..] == SEPARATOR + t[u + |SEPARATOR|..];
  }

  /** And nothing else is accepted: an accepted file is what some URL and title render to. */
  lemma ParsedIsRendered(number: nat, content: string) returns (url: string, title: string)
    requires ParseFragment(number, content).Some?
    ensures number > 0 && IsUrl(url) && IsEntryTitle(title) && content == Content(number, url, title)
  {
    hide CaptureNumber, CaptureUrl, IsUrl, Trim, Render, Parse;
    var n := CaptureNumber(content).value;
    var u := CaptureUrl(n.rest).value;
    NumberRecovered(content);
    UrlRecovered(n.rest);
    RenderParse(n.text);
    url, title := u.text, CaptureTitle(u.rest).value;
    TrimTrimmed(title);
    assert u.rest == title + "\n";
  }

  // ----- headings among the pending entries

  lemma FreeSplit(a: string, b: string)
    requires IsHeadingFree(a + "\n" + b)
    ensures IsHeadingFree(a) && IsHeadingFree(b)
  {
    hide HeadingAt;
    var s, p := a + "\n" + b, a + "\n";
    forall i | 0 <= i <= |a| ensures !HeadingAt(a, i) {
      HeadingBefore(a, b, i);
    }
    assert s == p + b;
    forall i | 0 <= i <= |b| ensures !HeadingAt(b, i) {
      HeadingShift(p, b, i);
    }
  }

  lemma {:induction false} LinesFree(lines: seq<string>)
    requires lines != []
    ensures IsHeadingFree(Join(lines, '\n')) <==> forall l :: l in lines ==> IsHeadingFree(l)
  {
    hide IsHeadingFree;
    assert lines == [lines[0]] + lines[1..];
    if |lines| > 1 {
      var rest := Join(lines[1..], '\n');
      LinesFree(lines[1..]);
      assert Join(lines, '\n') == lines[0] + "\n" + rest;
      if IsHeadingFree(lines[0] + "\n" + rest) {
        FreeSplit(lines[0], rest);
      }
      if IsHeadingFree(lines[0]) && IsHeadingFree(rest) {
        FreeJoin(lines[0], rest);
      }
    }
  }

  lemma FreePrefix(a: string, b: string)
    requires a <= b && IsHeadingFree(b)
    ensures IsHeadingFree(a)
  {
    forall i | 0 <= i <= |a| ensures !HeadingAt(a, i) {
      assert i > 0 ==> a[i - 1] == b[i - 1];
      assert i + 3 < |a| ==> a[i] == b[i] && a[i + 1] == b[i + 1] && a[i + 2] == b[i + 2] && a[i + 3] == b[i + 3];
      assert HeadingAt(a, i) ==> HeadingAt(b, i);
    }
  }

  lemma HeadingInSlice(s: string, a: int, b: int, i: int)
    requires 0 <= a <= b <= |s| && 0 < i <= b - a
    ensures HeadingAt(s[a..b], i) ==> HeadingAt(s, a + i) && a + i < b
  {
    var t := s[a..b];
    assert t[i - 1] == s[a + i - 1];
    assert i + 3 < |t| ==>
           t[i] == s[a + i] && t[i + 1] == s[a + i + 1] && t[i + 2] == s[a + i + 2] && t[i + 3] == s[a + i + 3];
  }

  lemma SliceOfSlice(s: string, i: int, j: int, a: int, b: int)
    requires 0 <= i <= j <= |s| && 0 <= a <= b <= j - i
    ensures s[i..j][a..b] == s[i + a..i + b]
  {
    var l, r := s[i..j][a..b], s[i + a..i + b];
    assert |l| == |r|;
    assert forall k :: 0 <= k < |l| ==> l[k] == s[i..j][a + k] == s[i + a + k] == r[k];
    assert l == r;
  }

  lemma TrimSlice(raw: string) returns (a: int, b: int)
    ensures 0 <= a <= b <= |raw| && Trim(raw) == raw[a..b]
  {
    var late := TrimStart(raw);
    a := |raw| - |late|;
    b := a + |TrimEnd(late)|;
  }

  /** The pending body has no heading but, once its edges are trimmed, maybe at its start. */
  lemma BodyFree(s: string, u: Section)
    requires Unreleased(s) == Some(u)
    ensures var body := Trim(s[u.start..u.end]); IsHeadingFree(body) <==> !HeadingAt(body, 0)
  {
    hide OneUnreleased, EndOfLine, HeadingAt, Trim;
    var raw := s[u.start..u.end];
    var body := Trim(raw);
    var a, b := TrimSlice(raw);
    SliceOfSlice(s, u.start, u.end, a, b);
    forall i | 0 < i <= |body| ensures !HeadingAt(body, i) {
      HeadingInSlice(s, u.start + a, u.start + b, i);
      assert u.start + a + i < u.end ==> !HeadingAt(s, u.start + a + i);
    }
  }

  lemma {:induction false} FromLines(lines: seq<string>)
    ensures forall l :: l in LegacyLines(lines) ==> l in lines
    ensures forall p :: p in PrLines(lines) ==> p.entry in lines && MARKER <= p.entry
    ensures PrLines(lines) == [] ==> LegacyLines(lines) == lines
  {
    if lines != [] {
      var init, last := lines[..|lines| - 1], lines[|lines| - 1];
      assert lines == init + [last];
      FromLines(init);
    }
  }

  lemma JoinStarts(lines: seq<string>)
    requires lines != [] && lines[0] != ""
    ensures Join(lines, '\n') != "" && Join(lines, '\n')[0] == lines[0][0]
  {}

  lemma TrimsToPrefix(s: string)
    requires s != "" && !IsSpace(s[0])
    ensures Trim(s) <= s
  {}

  /** No fragment holds a heading and the trimmed body does not start with one: then the pending
      entries hold none, and the cut releases them whole. */
  lemma EntriesFree(changelog: string, u: Section, fragments: seq<Pr>, prs: seq<Pr>, entries: string)
    requires Unreleased(changelog) == Some(u) && !HeadingAt(Trim(changelog[u.start..u.end]), 0)
    requires IsGathering(BodyLines(changelog, u), fragments, prs, entries)
    requires forall f :: f in fragments ==> MARKER <= f.entry && IsHeadingFree(f.entry)
    ensures IsHeadingFree(entries)
  {
    hide IsHeadingFree, Trim, HeadingAt, Unreleased, Split, LegacyLines, PrLines;
    var body := Trim(changelog[u.start..u.end]);
    var lines := BodyLines(changelog, u);
    BodyFree(changelog, u);
    JoinSplit(body, '\n');
    LinesFree(lines);
    var all := EntriesOf(prs) + LegacyLines(lines);
    AllFree(lines, fragments, prs);
    FromLines(lines);
    if prs == [] {
      assert |PrLines(lines) + fragments| == 0 by {
        assert |multiset(prs)| == |multiset(PrLines(lines) + fragments)|;
      }
      assert all == lines;
      TrimTrimmed(body);
      assert Trim(body) == body by {
        TrimTrimmed(changelog[u.start..u.end]);
      }
    } else {
      assert prs[0] in multiset(prs);
      assert prs[0] in PrLines(lines) + fragments;
      assert all[0] == prs[0].entry && MARKER <= all[0];
      LinesFree(all);
      JoinStarts(all);
      assert !IsSpace('-');
      TrimsToPrefix(Join(all, '\n'));
      FreePrefix(Trim(Join(all, '\n')), Join(all, '\n'));
    }
  }

  lemma AllFree(lines: seq<string>, fragments: seq<Pr>, prs: seq<Pr>)
    requires multiset(prs) == multiset(PrLines(lines) + fragments)
    requires forall l :: l in lines ==> IsHeadingFree(l)
    requires forall f :: f in fragments ==> IsHeadingFree(f.entry)
    ensures forall l :: l in EntriesOf(prs) + LegacyLines(lines) ==> IsHeadingFree(l)
  {
    hide IsHeadingFree, LegacyLines, PrLines;
    FromLines(lines);
    forall l | l in EntriesOf(prs) ensures IsHeadingFree(l) {
      var i :| 0 <= i < |prs| && EntriesOf(prs)[i] == l;
      assert prs[i] in multiset(prs);
      assert prs[i] in PrLines(lines) + fragments;
    }
  }

  lemma TitleHeading(number: nat, url: string, a: string, b: string)
    requires HeadingAt(b, 0)
    ensures var content := Content(number, url, a + ("\U{2028}" + b)); !IsHeadingFree(content[..|content| - 1])
  {
    hide Render;
    var content := Content(number, url, a + ("\U{2028}" + b));
    var q := MARKER + (Render(number) + ("](" + (url + (SEPARATOR + (a + "\U{2028}")))));
    var entry := content[..|content| - 1];
    assert content == q + b + "\n";
    assert entry == q + b;
    assert q[|q| - 1] == '\U{2028}';
    HeadingShift(q, b, 0);
    assert HeadingAt(entry, |q|);
  }

  lemma ShortTitle()
    ensures IsUrl("u") && IsEntryTitle("a" + ("\U{2028}" + "## b")) && HeadingAt("## b", 0)
  {
    var title := "a" + ("\U{2028}" + "## b");
    assert |title| == 6 && title[0] == 'a' && title[1] == '\U{2028}' && title[2] == '#' && title[3] == '#'
           && title[4] == ' ' && title[5] == 'b';
  }

  /** A fragment can hold one: a title may contain a line separator, which ends a line for the heading
      search but not for the fragment's own form. */
  lemma FragmentWithHeading()
    ensures exists number, content ::
              ParseFragment(number, content).Some? && !IsHeadingFree(ParseFragment(number, content).value)
  {
    hide IsUrl, IsEntryTitle, ParseFragment, Content, IsHeadingFree, HeadingAt;
    ShortTitle();
    RenderedParses(7, "u", "a" + ("\U{2028}" + "## b"));
    TitleHeading(7, "u", "a", "## b");
    var content := Content(7, "u", "a" + ("\U{2028}" + "## b"));
    assert ParseFragment(7, content).Some? && !IsHeadingFree(ParseFragment(7, content).value);
  }

  const INDENTED := " ## b"
  const TRIMMED := "## b"

  lemma IndentedSection()
    ensures Unreleased(UNRELEASED + "\n" + INDENTED)
              == Some(Section(0, |UNRELEASED| + 1, |UNRELEASED| + 1 + |INDENTED|))
  {
    var s := UNRELEASED + "\n" + INDENTED;
    assert IsHeadingFree(INDENTED) && IsOnlyUnreleased(UNRELEASED, 0) by {
      assert forall i :: 0 <= i < |UNRELEASED| ==> !IsLineTerminator(UNRELEASED[i]);
      assert UNRELEASED[0..|UNRELEASED|] == UNRELEASED && SkipBlanks(UNRELEASED, |UNRELEASED|) == |UNRELEASED|;
    }
    hide UnreleasedAt, HeadingAt, NextHeading, IsOnlyUnreleased, IsHeadingFree;
    FreeIsQuiet(INDENTED);
    OnlyJoin(UNRELEASED, INDENTED, 0);
    OneMeansOnly(s, 0);
    assert s[|UNRELEASED|] == '\n' && forall i :: 0 <= i < |UNRELEASED| ==> s[i] == UNRELEASED[i];
    EndOfLineIs(s, 0, |UNRELEASED|);
    NextAfter(UNRELEASED, INDENTED);
    assert NextHeading(INDENTED, 0) == |INDENTED| by {
      NextOfFree(INDENTED);
    }
  }

  lemma NextOfFree(t: string)
    requires IsHeadingFree(t)
    ensures NextHeading(t, 0) == |t|
  {
    hide HeadingAt;
    NextIs(t, 0, |t|);
  }

  lemma BlankTrims(s: string, t: string)
    requires s == " " + t && IsTrimmed(t)
    ensures Trim(s) == t
  {
    BlankStarts(s, t);
    TrimTrimmed(t);
    hide TrimStart, TrimEnd, IsTrimmed;
  }

  lemma BlankStarts(s: string, t: string)
    requires s == " " + t
    ensures TrimStart(s) == TrimStart(t)
  {
    assert IsSpace(s[0]);
    hide IsSpace;
    assert s[1..] == t;
  }

  lemma TrimmedIsHeading()
    ensures HeadingAt(TRIMMED, 0) && GatherLine(Gathered([], []), TRIMMED) == Ok(Gathered([], [TRIMMED]))
  {
    assert TRIMMED[0] == '#' && MARKER[0] == '-';
    assert !(MARKER <= TRIMMED);
    assert [] + [TRIMMED] == [TRIMMED];
  }

  /** So can the body: a line indented by a blank is no heading where it stands, and becomes one as the
      first line once the body is trimmed. */
  lemma TrimmedHeading()
    ensures var changelog := UNRELEASED + "\n" + INDENTED;
            Collect(changelog, []).Ok? && !IsHeadingFree(Collect(changelog, []).value.entries)
  {
    hide Unreleased, HeadingAt, Trim, GatherLine, Split;
    var changelog := UNRELEASED + "\n" + INDENTED;
    IndentedSection();
    assert INDENTED == " " + TRIMMED;
    BlankTrims(INDENTED, TRIMMED);
    TrimmedIsHeading();
    assert changelog[|UNRELEASED| + 1..|UNRELEASED| + 1 + |INDENTED|] == INDENTED;
    assert Join([TRIMMED], '\n') == TRIMMED && '\n' !in TRIMMED;
    SplitJoin([TRIMMED], '\n');
    TrimTrimmed(TRIMMED);
    assert [TRIMMED][..0] == [];
    assert GatherLines([]) == Ok(Gathered([], []));
    assert GatherLines([TRIMMED]) == Ok(Gathered([], [TRIMMED]));
    assert EntriesOf(SortDown([])) + [TRIMMED] == [TRIMMED];
  }
}
