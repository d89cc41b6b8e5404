/** `shellQuote` of the launcher script, against the shell's own rules for reading a word: the POSIX
    shell command language, sections 2.2.1 (escape character) and 2.2.2 (single-quotes). */
module ShellQuote {
  import opened Wrappers

  /** The value inside single quotes, each quote in it replaced by quote, backslash, quote, quote. */
  function Quote(value: string): string {
    "'" + Escaped(value) + "'"
  }

  function Escaped(value: string): string {
    if value == "" then "" else (if value[0] == '\'' then "'\\''" else [value[0]]) + Escaped(value[1..])
  }

  datatype Word = Word(text: string, rest: string)

  predicate EndsWord(c: char) {
    c in " \t\n;&|<>()"
  }

  /** The shell outside quotes: up to the end of the word, or `None` for the quotings and expansions
      this model leaves out. */
  function ReadWord(s: string): Option<Word>
    decreases |s|
  {
    if s == "" || EndsWord(s[0]) then Some(Word("", s))
    else if s[0] == '\'' then ReadQuoted(s[1..])
    else if s[0] == '\\' then
      if |s| < 2 then None
      else if s[1] == '\n' then ReadWord(s[2..])
      else Before(s[1], ReadWord(s[2..]))
    else if s[0] in "\"$`" then None
    else Before(s[0], ReadWord(s[1..]))
  }

  /** The shell inside single quotes: every character is literal up to the next quote. */
  function ReadQuoted(s: string): Option<Word>
    decreases |s|
  {
    if s == "" then None
    else if s[0] == '\'' then ReadWord(s[1..])
    else Before(s[0], ReadQuoted(s[1..]))
  }

  function Before(c: char, w: Option<Word>): Option<Word> {
    match w
    case None => None
    case Some(Word(text, rest)) => Some(Word([c] + text, rest))
  }

  lemma ReadEscapedQuote(more: string)
    ensures ReadQuoted(['\'', '\\', '\'', '\''] + more) == Before('\'', ReadQuoted(more))
  {
    var s := ['\'', '\\', '\'', '\''] + more;
    var s1 := s[1..];
    assert s1 == ['\\', '\'', '\''] + more;
    assert s1[2..] == ['\''] + more;
    assert s1[2..][1..] == more;
    assert ReadQuoted(s) == ReadWord(s1);
    assert ReadWord(s1) == Before('\'', ReadWord(s1[2..]));
    assert ReadWord(s1[2..]) == ReadQuoted(more);
  }

  lemma ReadOpen(more: string)
    ensures ReadWord("'" + more) == ReadQuoted(more)
  {
    assert ("'" + more)[1..] == more;
  }

  lemma ReadPlain(c: char, more: string)
    requires c != '\''
    ensures ReadQuoted([c] + more) == Before(c, ReadQuoted(more))
  {
    assert ([c] + more)[1..] == more;
  }

  lemma ReadClose(rest: string)
    requires rest == "" || EndsWord(rest[0])
    ensures ReadQuoted("'" + rest) == Some(Word("", rest))
  {
    assert ("'" + rest)[1..] == rest;
  }

  lemma {:induction false} ReadEscaped(value: string, rest: string)
    requires rest == "" || EndsWord(rest[0])
    ensures ReadQuoted(Escaped(value) + "'" + rest) == Some(Word(value, rest))
  {
    hide ReadQuoted, ReadWord;
    if value == "" {
      ReadClose(rest);
      assert Escaped(value) + "'" + rest == "'" + rest;
    } else {
      var more := Escaped(value[1..]) + "'" + rest;
      ReadEscaped(value[1..], rest);
      assert value == [value[0]] + value[1..];
      if value[0] == '\'' {
        ReadEscapedQuote(more);
        assert Escaped(value) + "'" + rest == ['\'', '\\', '\'', '\''] + more;
      } else {
        ReadPlain(value[0], more);
        assert Escaped(value) + "'" + rest == [value[0]] + more;
      }
    }
  }

  /** Read back by the shell, the quoted value is one word, that value exactly, whatever it holds. */
  lemma QuoteReadsBack(value: string, rest: string)
    requires rest == "" || EndsWord(rest[0])
    ensures ReadWord(Quote(value) + rest) == Some(Word(value, rest))
  {
    hide ReadQuoted, ReadWord, Escaped;
    var more := Escaped(value) + "'" + rest;
    ReadEscaped(value, rest);
    ReadOpen(more);
    assert Quote(value) + rest == "'" + more;
  }
}
