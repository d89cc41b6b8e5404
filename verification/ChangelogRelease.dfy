/** Merging the pending entries and then cutting the release: what stays verbatim, what the cut section
    holds, and when. */
module ChangelogRelease {
  import opened Wrappers
  import opened Text
  import opened Headings
  import opened Changelog

  /** A tag, a dash and a date: one line that starts with the tag's `v`. */
  ghost predicate IsTitle(title: string) {
    title != "" && title[0] == 'v' && LineFree(title)
  }

  /** A summary as it comes out of normalisation: one line that is no heading. */
  ghost predicate IsSummary(summary: Option<string>) {
    summary.Some? ==> LineFree(summary.value) && !("## " <= summary.value)
  }

  // ----- trimming blank edges

  lemma NotBlank(c: char)
    requires !IsSpace(c)
    ensures c != '\t' && c != ' ' && c != '\n' && c != '\r'
  {}

  lemma EdgesOfMerged(x: string, e: string)
    requires (x == "" || x == "\n") && e != "" && IsTrimmed(e)
    ensures TrimBlankEdges(x + e + "\n\n") == e
  {
    hide DropTrailing, DropLeading, IsTrimmed;
    var t := e + "\n\n";
    LeadingKept(t, e);
    if x == "\n" {
      LeadingNewline(t);
      assert x + e + "\n\n" == "\n" + t;
    } else {
      assert x + e + "\n\n" == t;
    }
    NewlinesDropped(e);
  }

  lemma LeadingKept(t: string, e: string)
    requires e <= t && e != "" && IsTrimmed(e)
    ensures DropLeading(t) == t
  {
    NotBlank(e[0]);
    assert t[0] == e[0];
  }

  lemma LeadingNewline(t: string)
    ensures DropLeading("\n" + t) == DropLeading(t)
  {
    assert ("\n" + t)[0] == '\n' && ("\n" + t)[1..] == t;
  }

  lemma NewlinesDropped(e: string)
    requires e != "" && IsTrimmed(e)
    ensures DropTrailing(e + "\n\n") == e
  {
    NotBlank(e[|e| - 1]);
    var one, two := e + "\n", e + "\n\n";
    assert BlankTail(two) == |two| && two[|two| - 1] == '\n' && two[|two| - 2] == '\n' && two[..|two| - 1] == one;
    assert BlankTail(one) == |one| && one[|one| - 1] == '\n' && one[|one| - 2] == e[|e| - 1] && one[..|one| - 1] == e;
    assert BlankTail(e) == |e|;
    assert DropTrailing(e) == e;
    assert DropTrailing(one) == e;
  }

  lemma EdgesShorten(x: string, u: string)
    requires x == "" || x == "\n"
    ensures |TrimBlankEdges(x + u)| <= |u|
  {
    if x == "\n" {
      LeadingNewline(u);
    } else {
      assert x + u == u;
    }
  }

  // ----- one line

  lemma OneLineFree(line: string)
    requires LineFree(line) && !("## " <= line)
    ensures IsHeadingFree(line)
  {
    forall i | 0 <= i <= |line| ensures !HeadingAt(line, i) {
      if i == 0 && |line| >= 3 {
        assert line[..3] == [line[0], line[1], line[2]];
      }
    }
  }

  lemma TitleLine(title: string)
    requires IsTitle(title)
    ensures IsQuiet("## " + title) && HeadingAt("## " + title, 0)
  {
    var line := "## " + title;
    assert line[0] == '#' && line[1] == '#' && line[2] == ' ' && line[3] == title[0];
    assert forall k :: 3 <= k < |line| ==> line[k] == title[k - 3];
    forall i | 0 <= i <= |line| ensures !UnreleasedAt(line, i) {
      if i == 0 && |UNRELEASED| <= |line| {
        assert line[0..|UNRELEASED|][3] == title[0];
      }
      assert i > 0 ==> !IsLineTerminator(line[i - 1]);
    }
  }

  // ----- the merged changelog

  /** The text before the pending body, without its last newline. */
  function Stem(prefix: string): (r: string)
    ensures r <= prefix
  {
    if prefix != "" && prefix[|prefix| - 1] == '\n' then prefix[..|prefix| - 1] else prefix
  }

  /** What a changelog with one `Unreleased` heading gives: the stem has that heading and ends in its
      line, the suffix has none and is empty or starts with a heading. */
  lemma Parts(s: string, u: Section)
    requires Unreleased(s) == Some(u)
    ensures var p0, suffix := Stem(s[..u.start]), s[u.end..];
            && IsOnlyUnreleased(p0, u.heading)
            && (forall i :: u.heading <= i < |p0| ==> p0[i] != '\n')
            && IsQuiet(suffix) && NextHeading(suffix, 0) == 0
            && (p0 == s[..u.start] ==> suffix == "")
  {
    var h := u.heading;
    OneMeansOnly(s, h);
    HeadingLine(s, u);
    SuffixParts(s, u);
  }

  lemma HeadingLine(s: string, u: Section)
    requires Unreleased(s) == Some(u) && IsOnlyUnreleased(s, u.heading)
    ensures var p0 := Stem(s[..u.start]);
            && IsOnlyUnreleased(p0, u.heading)
            && (forall i :: u.heading <= i < |p0| ==> p0[i] != '\n')
            && (p0 == s[..u.start] ==> u.end == |s|)
  {
    hide UnreleasedAt, NextHeading, IsOnlyUnreleased, OneUnreleased;
    var h, start := u.heading, u.start;
    OnlyAt(s, h);
    HasNoNewline(s, h);
    StemOf(s, start);
    var p0 := Stem(s[..start]);
    if s[start - 1] == '\n' {
      OnlyBefore(p0, s[start..], h);
    } else {
      assert p0 == s[..|s|] == s;
    }
  }

  lemma StemOf(s: string, start: int)
    requires 0 < start <= |s|
    ensures var p0 := Stem(s[..start]);
            && p0 <= s
            && (s[start - 1] == '\n' ==> |p0| == start - 1 && s == p0 + "\n" + s[start..])
            && (s[start - 1] != '\n' ==> p0 == s[..start])
  {
    var prefix := s[..start];
    assert prefix[|prefix| - 1] == s[start - 1];
    if s[start - 1] == '\n' {
      var p0 := prefix[..start - 1];
      assert prefix == p0 + "\n";
      assert s == prefix + s[start..];
    }
  }

  lemma OnlyAt(s: string, h: int)
    requires IsOnlyUnreleased(s, h)
    ensures 0 <= h <= |s| && UnreleasedAt(s, h)
  {}

  lemma OnlyBefore(a: string, b: string, h: int)
    requires IsOnlyUnreleased(a + "\n" + b, h) && 0 <= h <= |a|
    ensures IsOnlyUnreleased(a, h)
  {
    hide UnreleasedAt;
    var s := a + "\n" + b;
    forall i | 0 <= i <= |a| ensures UnreleasedAt(a, i) <==> UnreleasedAt(s, i) {
      UnreleasedBefore(a, b, i);
    }
  }

  /** The heading's own characters hold no newline, so its line ends after them. */
  lemma HasNoNewline(s: string, h: int)
    requires 0 <= h <= |s| && UnreleasedAt(s, h)
    ensures EndOfLine(s, h) > h
    ensures s[EndOfLine(s, h) - 1] == '\n' ==> EndOfLine(s, h) - 1 >= h
    ensures forall i :: h <= i < EndOfLine(s, h) - 1 ==> s[i] != '\n'
  {
    assert s[h] == s[h..h + |UNRELEASED|][0];
  }

  lemma SuffixParts(s: string, u: Section)
    requires Unreleased(s) == Some(u) && IsOnlyUnreleased(s, u.heading)
    ensures IsQuiet(s[u.end..]) && NextHeading(s[u.end..], 0) == 0
  {
    hide UnreleasedAt, EndOfLine;
    var p, t := s[..u.end], s[u.end..];
    assert s == p + t;
    assert u.end > u.heading by {
      HasNoNewline(s, u.heading);
    }
    if t != "" {
      assert HeadingAt(s, u.end);
      assert IsLineTerminator(p[|p| - 1]);
      HeadingShift(p, t, 0);
      forall i | 0 <= i <= |t| ensures !UnreleasedAt(t, i) {
        UnreleasedShift(p, t, i);
      }
    } else {
      NotAtEnd(t);
    }
  }

  ghost predicate IsMerged(c: string, p0: string, h: int, x: string, e: string, t: string) {
    && c == p0 + "\n" + (x + (e + "\n\n" + t))
    && (x == "" || x == "\n")
    && IsOnlyUnreleased(p0, h) && (forall i :: h <= i < |p0| ==> p0[i] != '\n')
    && IsQuiet(t) && NextHeading(t, 0) == 0
  }

  lemma MergedLine(c: string, p0: string, h: int, x: string, e: string, t: string)
    requires IsMerged(c, p0, h, x, e, t)
    ensures h < |c| && UnreleasedAt(c, h) && EndOfLine(c, h) == |p0| + 1
  {
    hide UnreleasedAt;
    var rest := x + (e + "\n\n" + t);
    UnreleasedBefore(p0, rest, h);
    assert c[|p0|] == '\n' && forall i :: 0 <= i < |p0| ==> c[i] == p0[i];
    EndOfLineIs(c, h, |p0|);
  }

  /** Without a heading among the entries, the body of the merged changelog is exactly the entries. */
  lemma MergedSection(c: string, p0: string, h: int, x: string, e: string, t: string)
    requires IsMerged(c, p0, h, x, e, t) && IsHeadingFree(e)
    ensures Unreleased(c) == Some(Section(h, |p0| + 1, |p0| + 1 + |x| + |e| + 2))
  {
    hide UnreleasedAt, HeadingAt, NextHeading, EndOfLine, IsOnlyUnreleased;
    MergedLine(c, p0, h, x, e, t);
    NotAtEnd("");
    assert IsHeadingFree("");
    var inner := e + "\n" + ("" + "\n" + t);
    assert inner == e + "\n\n" + t;
    InnerQuiet(e, t);
    var rest := x + inner;
    assert IsQuiet(rest) && NextHeading(rest, 0) == |x| + |e| + 2 by {
      if x == "\n" {
        assert rest == "" + "\n" + inner;
        FreeIsQuiet("");
        QuietJoin("", inner);
        NextThrough("", inner);
      } else {
        assert rest == inner;
      }
    }
    OnlyJoin(p0, rest, h);
    OneMeansOnly(c, h);
    NextAfter(p0, rest);
  }

  lemma InnerQuiet(e: string, t: string)
    requires IsHeadingFree(e) && IsHeadingFree("") && IsQuiet(t) && NextHeading(t, 0) == 0
    ensures IsQuiet(e + "\n" + ("" + "\n" + t)) && NextHeading(e + "\n" + ("" + "\n" + t), 0) == |e| + 2
  {
    hide UnreleasedAt, HeadingAt, NextHeading;
    FreeIsQuiet("");
    FreeIsQuiet(e);
    QuietJoin("", t);
    QuietJoin(e, "" + "\n" + t);
    NextThrough("", t);
    NextThrough(e, "" + "\n" + t);
  }

  /** A heading among the entries ends the body before the entries end. */
  lemma MergedBroken(c: string, p0: string, h: int, x: string, e: string, t: string, i: int)
    requires IsMerged(c, p0, h, x, e, t) && 0 <= i <= |e| && HeadingAt(e, i)
    ensures Unreleased(c).Some? ==>
              Unreleased(c).value.start == |p0| + 1 && |p0| + 1 <= Unreleased(c).value.end <= |p0| + 1 + |x| + i
                  && i < |e|
  {
    hide UnreleasedAt, NextHeading, EndOfLine;
    MergedLine(c, p0, h, x, e, t);
    var tail := "\n" + t;
    HeadingBefore(e, tail, i);
    var inner := e + "\n" + tail;
    var p := p0 + "\n" + x;
    assert c == p + inner;
    HeadingShift(p, inner, i);
    assert HeadingAt(c, |p| + i);
    if Unreleased(c).Some? {
      OneMeansOnly(c, Unreleased(c).value.heading);
      assert Unreleased(c).value.heading == h;
    }
  }

  // ----- the released changelog

  lemma CutText(title: string, summary: Option<string>, e: string) returns (b: string)
    requires IsTitle(title) && IsSummary(summary) && IsHeadingFree(e)
    ensures CutSection(title, summary, e) == b + "\n" && IsQuiet(b) && HeadingAt(b, 0)
  {
    hide UnreleasedAt, HeadingAt;
    var line := "## " + title;
    TitleLine(title);
    NotAtEnd("");
    assert IsHeadingFree("");
    FreeIsQuiet("");
    FreeIsQuiet(e);
    var body := e;
    if summary.Some? {
      OneLineFree(summary.value);
      FreeIsQuiet(summary.value);
      QuietJoin("", e);
      QuietJoin(summary.value, "" + "\n" + e);
      body := summary.value + "\n" + ("" + "\n" + e);
    }
    QuietJoin("", body);
    QuietJoin(line, "" + "\n" + body);
    HeadingBefore(line, "" + "\n" + body, 0);
    b := line + "\n" + ("" + "\n" + body);
  }

  /** The cut leaves one `Unreleased` heading, where it was, over an empty line. */
  lemma ReleasedSection(p0: string, h: int, b: string, t: string, content: string)
    requires IsOnlyUnreleased(p0, h) && forall i :: h <= i < |p0| ==> p0[i] != '\n'
    requires IsQuiet(b) && HeadingAt(b, 0) && IsQuiet(t)
    requires content == p0 + "\n" + ("\n" + (b + "\n" + (if t == "" then "" else "\n" + t)))
    ensures Unreleased(content) == Some(Section(h, |p0| + 1, |p0| + 2))
  {
    hide UnreleasedAt, HeadingAt, EndOfLine, NextHeading, IsOnlyUnreleased;
    var after := if t == "" then "" else "" + "\n" + t;
    var cut := b + "\n" + after;
    var rest := "" + "\n" + cut;
    NotAtEnd("");
    assert IsHeadingFree("") && IsQuiet("");
    QuietJoin("", t);
    QuietJoin(b, after);
    QuietJoin("", cut);
    OnlyJoin(p0, rest, h);
    assert content == p0 + "\n" + rest;
    OneMeansOnly(content, h);
    HeadingBefore(b, after, 0);
    NextIs(cut, 0, 0);
    NextThrough("", cut);
    NextAfter(p0, rest);
    ContentLine(p0, h, rest);
  }

  lemma ContentLine(p0: string, h: int, rest: string)
    requires IsOnlyUnreleased(p0, h) && forall i :: h <= i < |p0| ==> p0[i] != '\n'
    ensures EndOfLine(p0 + "\n" + rest, h) == |p0| + 1
  {
    hide UnreleasedAt;
    var c := p0 + "\n" + rest;
    assert c[|p0|] == '\n' && forall i :: 0 <= i < |p0| ==> c[i] == p0[i];
    EndOfLineIs(c, h, |p0|);
  }

  // ----- merge, then cut

  /** The released changelog: everything up to the pending body as it was, the cut section in place of
      the body, everything from the next heading on as it was. */
  function Released(changelog: string, u: Section, cut: string): string
    requires 0 <= u.start <= u.end <= |changelog|
  {
    var suffix := changelog[u.end..];
    Stem(changelog[..u.start]) + "\n" + "\n" + cut + (if suffix == "" then "" else "\n" + suffix)
  }

  /** The pending changelog is the changelog with its `Unreleased` body replaced by trimmed entries. */
  ghost predicate IsMergeOf(changelog: string, u: Section, p: Pending) {
    && Unreleased(changelog) == Some(u)
    && p.entries != "" && IsTrimmed(p.entries)
    && p.content == changelog[..u.start] + "\n" + p.entries + "\n\n" + changelog[u.end..]
  }

  /** Whatever is collected keeps everything up to the pending body and from the next heading on. */
  lemma CollectMerges(changelog: string, fragments: seq<Pr>)
    ensures Collect(changelog, fragments).Ok? ==>
              Unreleased(changelog).Some?
                  && IsMergeOf(changelog, Unreleased(changelog).value, Collect(changelog, fragments).value)
  {
    hide Trim, IsTrimmed, Unreleased, GatherLines, AddFragments, JoinLines;
    forall s: string ensures IsTrimmed(Trim(s)) {
      TrimTrimmed(s);
    }
  }

  lemma MergedIs(changelog: string, u: Section, p: Pending)
    requires IsMergeOf(changelog, u, p)
    ensures var prefix := changelog[..u.start];
            IsMerged(p.content, Stem(prefix), u.heading, if Stem(prefix) == prefix then "" else "\n", p.entries,
                     changelog[u.end..])
  {
    hide UnreleasedAt, HeadingAt, EndOfLine, NextHeading, IsOnlyUnreleased, Unreleased;
    Parts(changelog, u);
    var prefix, t := changelog[..u.start], changelog[u.end..];
    var p0 := Stem(prefix);
    if p0 == prefix {
      assert p.content == p0 + "\n" + ("" + (p.entries + "\n\n" + t));
    } else {
      assert prefix == p0 + "\n";
      assert p.content == p0 + "\n" + ("\n" + (p.entries + "\n\n" + t));
    }
  }

  /** Entries without a heading are released whole: the prefix and the released suffix stay verbatim,
      one `Unreleased` heading stays where it was with an empty body, and the cut section holds exactly
      the pending entries. */
  lemma ReleasesWhole(changelog: string, u: Section, p: Pending, title: string, summary: Option<string>)
    requires IsMergeOf(changelog, u, p) && IsHeadingFree(p.entries) && IsTitle(title) && IsSummary(summary)
    ensures var cut := CutSection(title, summary, p.entries);
            var content := Released(changelog, u, cut);
            && Cut(p.content, title, summary) == Ok(Release(content, cut, p.entries))
            && changelog[..u.start] <= content
            && changelog[u.end..] == content[|content| - |changelog[u.end..]|..]
            && Unreleased(content).Some?
            && Unreleased(content).value.heading == u.heading
            && content[Unreleased(content).value.start..Unreleased(content).value.end] == "\n"
  {
    hide Cut, UnreleasedAt, HeadingAt, EndOfLine, NextHeading, IsOnlyUnreleased, Unreleased, IsHeadingFree, IsQuiet,
        CutSection, IsTitle, IsSummary;
    MergedIs(changelog, u, p);
    var prefix, t, e, c := changelog[..u.start], changelog[u.end..], p.entries, p.content;
    var p0 := Stem(prefix);
    var x := if p0 == prefix then "" else "\n";
    var content := Released(changelog, u, CutSection(title, summary, e));
    CutOfMerged(c, p0, u.heading, x, e, t, title, summary, content);
    assert prefix <= p0 + "\n";
    assert content == (p0 + "\n") + ("\n" + CutSection(title, summary, e) + (if t == "" then "" else "\n")) + t;
  }

  lemma MergedText(c: string, p0: string, x: string, e: string, t: string)
    requires c == p0 + "\n" + (x + (e + "\n\n" + t))
    ensures var start, end := |p0| + 1, |p0| + 1 + |x| + |e| + 2;
            end <= |c| && c[start..end] == x + e + "\n\n" && c[end..] == t && c[..start] == p0 + "\n"
  {
    assert c == (p0 + "\n") + (x + e + "\n\n") + t;
  }

  lemma CutOfMerged(c: string, p0: string, h: int, x: string, e: string, t: string, title: string,
                    summary: Option<string>, content: string)
    requires IsMerged(c, p0, h, x, e, t) && IsHeadingFree(e) && e != "" && IsTrimmed(e) && IsTitle(title)
               && IsSummary(summary)
    requires content == p0 + "\n" + "\n" + CutSection(title, summary, e) + (if t == "" then "" else "\n" + t)
    ensures Cut(c, title, summary) == Ok(Release(content, CutSection(title, summary, e), e))
    ensures Unreleased(content) == Some(Section(h, |p0| + 1, |p0| + 2)) && |p0| + 2 <= |content|
              && content[|p0| + 1..|p0| + 2] == "\n"
  {
    hide UnreleasedAt, HeadingAt, EndOfLine, NextHeading, IsOnlyUnreleased, Unreleased, IsHeadingFree, IsQuiet, Trim,
        TrimBlankEdges, CutSection, IsTitle, IsSummary;
    MergedSection(c, p0, h, x, e, t);
    MergedText(c, p0, x, e, t);
    EdgesOfMerged(x, e);
    TrimTrimmed(e);
    var cut := CutSection(title, summary, e);
    var b := CutText(title, summary, e);
    assert content == p0 + "\n" + ("\n" + (b + "\n" + (if t == "" then "" else "\n" + t)));
    ReleasedSection(p0, h, b, t, content);
    assert content[|p0| + 1..|p0| + 2] == "\n";
    NewlineTrims();
    assert content == p0 + "\n" + "\n" + cut + (if t == "" then "" else "\n") + t;
  }

  lemma NewlineTrims()
    ensures Trim("\n") == ""
  {
    assert "\n"[1..] == "";
    assert TrimStart("\n") == TrimStart("");
  }

  /** The cut releases the merged entries, the whole of them, exactly when none of them reads as a
      heading. */
  lemma ReleasesWholeIff(changelog: string, u: Section, p: Pending, title: string, summary: Option<string>)
    requires IsMergeOf(changelog, u, p) && IsTitle(title) && IsSummary(summary)
    ensures var r := Cut(p.content, title, summary);
            r.Ok? && r.value.entries == p.entries <==> IsHeadingFree(p.entries)
  {
    hide Cut, HeadingAt, CutSection, IsTitle, IsSummary, IsMergeOf;
    if IsHeadingFree(p.entries) {
      ReleasesWhole(changelog, u, p, title, summary);
    } else {
      var i :| 0 <= i <= |p.entries| && HeadingAt(p.entries, i);
      CutsShort(changelog, u, p, title, summary, i);
    }
  }

  lemma CutsShort(changelog: string, u: Section, p: Pending, title: string, summary: Option<string>, i: int)
    requires IsMergeOf(changelog, u, p) && 0 <= i <= |p.entries| && HeadingAt(p.entries, i)
    ensures var r := Cut(p.content, title, summary); r.Ok? ==> |r.value.entries| < |p.entries|
  {
    hide UnreleasedAt, HeadingAt, EndOfLine, NextHeading, IsOnlyUnreleased, Unreleased, Trim, TrimBlankEdges,
        CutSection;
    MergedIs(changelog, u, p);
    var prefix, t, e, c := changelog[..u.start], changelog[u.end..], p.entries, p.content;
    var p0 := Stem(prefix);
    var x := if p0 == prefix then "" else "\n";
    MergedBroken(c, p0, u.heading, x, e, t, i);
    if Unreleased(c).Some? {
      BodyShort(c, p0, x, e, t, Unreleased(c).value.end, i);
    }
  }

  lemma BodyShort(c: string, p0: string, x: string, e: string, t: string, end: int, i: int)
    requires c == p0 + "\n" + (x + (e + "\n\n" + t)) && (x == "" || x == "\n")
    requires |p0| + 1 <= end <= |p0| + 1 + |x| + i && 0 <= i < |e|
    ensures |TrimBlankEdges(c[|p0| + 1..end])| < |e|
  {
    hide TrimBlankEdges;
    var raw := c[|p0| + 1..end];
    var n := end - |p0| - 1;
    assert raw == (x + e)[..n] by {
      assert c == (p0 + "\n") + (x + e) + ("\n\n" + t);
    }
    if n < |x| {
      assert raw == "" + "";
      EdgesShorten("", "");
    } else {
      assert raw == x + e[..n - |x|];
      EdgesShorten(x, e[..n - |x|]);
    }
  }
}
