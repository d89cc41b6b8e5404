/** JavaScript's strings as far as several tools use them alike: splitting, joining, trimming and line
    terminators. A string is a sequence of code units. */
module Text {

  /** `s.split(sep)` for a one-character separator. */
  function Split(s: string, sep: char): (r: seq<string>)
    ensures r != []
  {
    if s == "" then [""]
    else
      var rest := Split(s[1..], sep);
      if s[0] == sep then [""] + rest else [[s[0]] + rest[0]] + rest[1..]
  }

  function Join(parts: seq<string>, sep: char): string
    requires parts != []
  {
    if |parts| == 1 then parts[0] else parts[0] + [sep] + Join(parts[1..], sep)
  }

  lemma JoinHead(c: char, parts: seq<string>, sep: char)
    requires parts != []
    ensures Join([[c] + parts[0]] + parts[1..], sep) == [c] + Join(parts, sep)
  {
    var longer := [[c] + parts[0]] + parts[1..];
    assert longer[0] == [c] + parts[0] && longer[1..] == parts[1..];
    if |parts| > 1 {
      var rest := [sep] + Join(parts[1..], sep);
      assert ([c] + parts[0]) + rest == [c] + (parts[0] + rest);
      assert parts[0] + [sep] + Join(parts[1..], sep) == parts[0] + rest;
      assert longer[0] + [sep] + Join(longer[1..], sep) == longer[0] + rest;
    }
  }

  lemma JoinEmpty(parts: seq<string>, sep: char)
    requires parts != []
    ensures Join([""] + parts, sep) == [sep] + Join(parts, sep)
  {
    var longer := [""] + parts;
    assert longer[0] == "" && longer[1..] == parts;
    assert "" + [sep] == [sep];
  }

  lemma {:induction false} JoinSplit(s: string, sep: char)
    ensures Join(Split(s, sep), sep) == s && forall x :: x in Split(s, sep) ==> sep !in x
  {
    if s != "" {
      JoinSplit(s[1..], sep);
      var rest := Split(s[1..], sep);
      assert s == [s[0]] + s[1..];
      hide Join;
      if s[0] == sep {
        JoinEmpty(rest, sep);
      } else {
        JoinHead(s[0], rest, sep);
        forall x | x in Split(s, sep) ensures sep !in x {
          assert rest[0] in rest;
          assert x == [s[0]] + rest[0] || x in rest;
        }
      }
    }
  }

  /** A list of pieces without the separator is the split of its join: splitting has one answer. */
  lemma {:induction false} SplitJoin(parts: seq<string>, sep: char)
    requires parts != [] && forall x :: x in parts ==> sep !in x
    ensures Split(Join(parts, sep), sep) == parts
    decreases |parts|, |parts[0]|
  {
    var s := Join(parts, sep);
    if parts[0] == "" {
      if |parts| > 1 {
        assert s[0] == sep && s[1..] == Join(parts[1..], sep);
        SplitJoin(parts[1..], sep);
      }
    } else {
      var shorter := [parts[0][1..]] + parts[1..];
      assert parts[0] in parts && parts[0][0] != sep;
      forall x | x in shorter ensures sep !in x {
        if x != parts[0][1..] {
          assert x in parts;
        }
      }
      assert shorter[1..] == parts[1..];
      SplitJoin(shorter, sep);
      assert s == [parts[0][0]] + Join(shorter, sep);
      assert s[1..] == Join(shorter, sep);
      assert [parts[0][0]] + shorter[0] == parts[0];
      assert [parts[0]] + shorter[1..] == parts;
    }
  }

  /** What `.` of a regular expression without the `s` flag does not match. */
  predicate IsLineTerminator(c: char) {
    c == '\n' || c == '\r' || c == '\U{2028}' || c == '\U{2029}'
  }

  predicate LineFree(s: string) {
    forall i :: 0 <= i < |s| ==> !IsLineTerminator(s[i])
  }

  /** What `trim` removes and `\s` matches. */
  predicate IsSpace(c: char) {
    || c == '\t' || c == '\n' || c == '\U{B}' || c == '\U{C}' || c == '\r' || c == ' ' || c == '\U{A0}'
         || c == '\U{1680}'
    || '\U{2000}' <= c <= '\U{200A}' || c == '\U{2028}' || c == '\U{2029}' || c == '\U{202F}' || c == '\U{205F}'
    || c == '\U{3000}' || c == '\U{FEFF}'
  }

  /** The white space and the line terminators of ECMA-262 (sections 12.2 and 12.3): four control or
      format characters, the space separators of Unicode, and the line ends. */
  lemma SpacesMean(c: char)
    ensures IsLineTerminator(c) <==> c in {'\n', '\r', '\U{2028}', '\U{2029}'}
    ensures IsSpace(c) <==> IsLineTerminator(c) || c in {'\t', '\U{B}', '\U{C}', '\U{FEFF}'} || IsSpaceSeparator(c)
  {}

  /** General category Zs. */
  ghost predicate IsSpaceSeparator(c: char) {
    || c in {' ', '\U{A0}', '\U{1680}', '\U{202F}', '\U{205F}', '\U{3000}'}
    || 0x2000 <= c as int < 0x200B
  }

  function TrimStart(s: string): (r: string)
    ensures |r| <= |s| && r == s[|s| - |r|..]
    ensures r != "" ==> !IsSpace(r[0])
  {
    if s != "" && IsSpace(s[0]) then TrimStart(s[1..]) else s
  }

  function TrimEnd(s: string): (r: string)
    ensures r <= s
    ensures r != "" ==> !IsSpace(r[|r| - 1])
  {
    if s != "" && IsSpace(s[|s| - 1]) then TrimEnd(s[..|s| - 1]) else s
  }

  function Trim(s: string): string {
    TrimEnd(TrimStart(s))
  }

  predicate IsTrimmed(s: string) {
    s == "" || (!IsSpace(s[0]) && !IsSpace(s[|s| - 1]))
  }

  lemma TrimTrimmed(s: string)
    ensures IsTrimmed(Trim(s)) && (IsTrimmed(s) ==> Trim(s) == s)
  {}
}
