/** The glob matcher of publish-contents-check.ts: `**` as a whole segment stands for any segments,
    `*` within one for any characters. */
module PackedPattern {
  import opened Bytes
  import opened Text

  // ----- one segment

  /** `^l0.*l1.*...$`, each literal escaped. */
  predicate MatchLiterals(literals: seq<string>, s: string)
    requires literals != []
    decreases |literals|
  {
    if |literals| == 1 then s == literals[0]
    else
      literals[0] <= s
      && var rest := s[|literals[0]|..];
         exists k :: 0 <= k <= |rest| && LineFree(rest[..k]) && MatchLiterals(literals[1..], rest[k..])
  }

  predicate MatchSegment(segment: string, pattern: string) {
    if '*' !in pattern then segment == pattern else MatchLiterals(Split(pattern, '*'), segment)
  }

  function Stars(pattern: string): nat {
    if pattern == "" then 0 else (if pattern[0] == '*' then 1 else 0) + Stars(pattern[1..])
  }

  /** The pattern with each `*` replaced by its own text. */
  function Spell(pattern: string, texts: seq<string>): string
    requires |texts| == Stars(pattern)
  {
    if pattern == "" then ""
    else if pattern[0] == '*' then texts[0] + Spell(pattern[1..], texts[1..])
    else [pattern[0]] + Spell(pattern[1..], texts)
  }

  function Weave(literals: seq<string>, texts: seq<string>): string
    requires |literals| == |texts| + 1
  {
    if texts == [] then literals[0] else literals[0] + texts[0] + Weave(literals[1..], texts[1..])
  }

  lemma {:induction false} SpellIsWeave(pattern: string, texts: seq<string>)
    requires |texts| == Stars(pattern)
    ensures |Split(pattern, '*')| == |texts| + 1 && Spell(pattern, texts) == Weave(Split(pattern, '*'), texts)
  {
    if pattern != "" {
      var rest := Split(pattern[1..], '*');
      if pattern[0] == '*' {
        SpellIsWeave(pattern[1..], texts[1..]);
        assert Split(pattern, '*')[1..] == rest;
      } else {
        SpellIsWeave(pattern[1..], texts);
        var parts := Split(pattern, '*');
        assert parts[1..] == rest[1..];
      }
    }
  }

  ghost predicate OnOneLine(text: string) {
    forall c :: c in text ==> c !in {'\n', '\r', '\U{2028}', '\U{2029}'}
  }

  lemma LineFreeMeans(text: string)
    ensures LineFree(text) <==> OnOneLine(text)
  {
    assert forall i :: 0 <= i < |text| ==> text[i] in text;
  }

  ghost predicate AllLineFree(texts: seq<string>) {
    forall t :: t in texts ==> OnOneLine(t)
  }

  lemma {:induction false} LiteralsWeave(literals: seq<string>, texts: seq<string>)
    requires |literals| == |texts| + 1 && AllLineFree(texts)
    ensures MatchLiterals(literals, Weave(literals, texts))
    decreases |literals|
  {
    hide LineFree, OnOneLine;
    if texts != [] {
      LineFreeMeans(texts[0]);
      var s := Weave(literals, texts);
      var rest := s[|literals[0]|..];
      var tail := Weave(literals[1..], texts[1..]);
      var k := |texts[0]|;
      assert rest == texts[0] + tail;
      assert rest[..k] == texts[0] && rest[k..] == tail;
      LiteralsWeave(literals[1..], texts[1..]);
      assert LineFree(rest[..k]) && MatchLiterals(literals[1..], rest[k..]);
    }
  }

  lemma {:induction false} MatchedLiterals(literals: seq<string>, s: string) returns (texts: seq<string>)
    requires literals != [] && MatchLiterals(literals, s)
    ensures |literals| == |texts| + 1 && AllLineFree(texts) && Weave(literals, texts) == s
    decreases |literals|
  {
    hide LineFree, OnOneLine;
    if |literals| == 1 {
      texts := [];
    } else {
      var rest := s[|literals[0]|..];
      var k :| 0 <= k <= |rest| && LineFree(rest[..k]) && MatchLiterals(literals[1..], rest[k..]);
      LineFreeMeans(rest[..k]);
      var more := MatchedLiterals(literals[1..], rest[k..]);
      texts := [rest[..k]] + more;
      assert texts[1..] == more;
      assert s == literals[0] + rest == literals[0] + rest[..k] + rest[k..];
    }
  }

  lemma {:induction false} NoStars(pattern: string)
    ensures '*' !in pattern <==> Stars(pattern) == 0
    ensures '*' !in pattern ==> Spell(pattern, []) == pattern
  {
    if pattern != "" {
      NoStars(pattern[1..]);
      assert pattern == [pattern[0]] + pattern[1..];
    }
  }

  ghost predicate SegmentSpelled(segment: string, pattern: string) {
    exists texts :: |texts| == Stars(pattern) && AllLineFree(texts) && Spell(pattern, texts) == segment
  }

  /** A segment matches exactly when some text without line terminators for each `*` spells it. */
  lemma SegmentMatches(segment: string, pattern: string)
    ensures MatchSegment(segment, pattern) <==> SegmentSpelled(segment, pattern)
  {
    hide MatchLiterals, AllLineFree, OnOneLine, Weave, Split, Spell, Stars;
    NoStars(pattern);
    if '*' !in pattern {
      NothingToFill(segment, pattern);
    } else {
      if MatchSegment(segment, pattern) {
        var texts := MatchedLiterals(Split(pattern, '*'), segment);
        StarsSplit(pattern);
        SpellIsWeave(pattern, texts);
      }
      if texts :| |texts| == Stars(pattern) && AllLineFree(texts) && Spell(pattern, texts) == segment {
        SpellIsWeave(pattern, texts);
        LiteralsWeave(Split(pattern, '*'), texts);
      }
    }
  }

  lemma NothingToFill(segment: string, pattern: string)
    requires Stars(pattern) == 0 && Spell(pattern, []) == pattern
    ensures SegmentSpelled(segment, pattern) <==> segment == pattern
  {
    hide Spell, Stars;
    var none: seq<string> := [];
    assert AllLineFree(none);
  }

  lemma {:induction false} StarsSplit(pattern: string)
    ensures |Split(pattern, '*')| == Stars(pattern) + 1
  {
    if pattern != "" {
      StarsSplit(pattern[1..]);
    }
  }

  // ----- whole paths

  /** `matchSegments` */
  predicate MatchSegments(path: seq<string>, pattern: seq<string>)
    decreases |pattern|
  {
    if pattern == [] then path == []
    else if pattern[0] == "**" then
      exists skip :: 0 <= skip <= |path| && MatchSegments(path[skip..], pattern[1..])
    else path != [] && MatchSegment(path[0], pattern[0]) && MatchSegments(path[1..], pattern[1..])
  }

  predicate MatchesPackedPattern(path: string, pattern: string) {
    MatchSegments(Split(path, '/'), Split(pattern, '/'))
  }

  /** What stands in for one pattern segment: any segments for `**`, else one segment it spells. */
  ghost predicate Fills(segments: seq<string>, pattern: string) {
    if pattern == "**" then true else |segments| == 1 && SegmentSpelled(segments[0], pattern)
  }

  ghost predicate Fillings(fillings: seq<seq<string>>, pattern: seq<string>) {
    |fillings| == |pattern| && forall i :: 0 <= i < |pattern| ==> Fills(fillings[i], pattern[i])
  }

  lemma {:induction false} FilledMatches(fillings: seq<seq<string>>, pattern: seq<string>)
    requires Fillings(fillings, pattern)
    ensures MatchSegments(Concat(fillings), pattern)
    decreases |pattern|
  {
    hide MatchSegment, SegmentSpelled;
    if pattern != [] {
      var path, first, rest := Concat(fillings), fillings[0], Concat(fillings[1..]);
      assert Fills(first, pattern[0]);
      forall i | 0 <= i < |pattern[1..]| ensures Fills(fillings[1..][i], pattern[1..][i]) {
        assert Fills(fillings[i + 1], pattern[i + 1]);
      }
      FilledMatches(fillings[1..], pattern[1..]);
      if pattern[0] == "**" {
        assert path[|first|..] == rest;
      } else {
        SegmentMatches(first[0], pattern[0]);
        assert path[0] == first[0] && path[1..] == rest;
      }
    }
  }

  lemma {:induction false} MatchedFillings(path: seq<string>, pattern: seq<string>) returns (fillings: seq<seq<string>>)
    requires MatchSegments(path, pattern)
    ensures Fillings(fillings, pattern) && Concat(fillings) == path
    decreases |pattern|
  {
    hide MatchSegment, SegmentSpelled;
    if pattern == [] {
      fillings := [];
    } else {
      var k :| 0 <= k <= |path| && (pattern[0] != "**" ==> k == 1) && MatchSegments(path[k..], pattern[1..]);
      var more := MatchedFillings(path[k..], pattern[1..]);
      fillings := [path[..k]] + more;
      assert fillings[1..] == more;
      if pattern[0] != "**" {
        SegmentMatches(path[0], pattern[0]);
      }
      forall i | 0 <= i < |pattern| ensures Fills(fillings[i], pattern[i]) {
        assert i > 0 ==> Fills(more[i - 1], pattern[1..][i - 1]);
      }
    }
  }

  /** Some list of segments for each `**` and some text for each `*` spells the path. */
  ghost predicate Spelled(path: string, pattern: string) {
    exists fillings :: Fillings(fillings, Split(pattern, '/')) && Concat(fillings) == Split(path, '/')
  }

  /** The backtracking matcher accepts exactly the paths the pattern spells. */
  lemma MatchesIffSpelled(path: string, pattern: string)
    ensures MatchesPackedPattern(path, pattern) <==> Spelled(path, pattern)
  {
    hide MatchSegments, Fillings, Split, Concat;
    if MatchesPackedPattern(path, pattern) {
      var fillings := MatchedFillings(Split(path, '/'), Split(pattern, '/'));
    }
    if fillings :| Fillings(fillings, Split(pattern, '/')) && Concat(fillings) == Split(path, '/') {
      FilledMatches(fillings, Split(pattern, '/'));
    }
  }
}
