/** `readElf` and `rewriteInterpreter` as the program runs them: offsets that advance over the buffer,
    an information record filled as they go, and the buffer overwritten in place. Each is proved
    equal to its specification in `Elf`. */
module ElfObject {
  import opened Wrappers
  import opened Bytes
  import opened Elf

  method ReadCString(bytes: array<byte>, start: nat, end: nat) returns (r: seq<byte>)
    ensures r == CString(bytes[..], start, end)
  {
    var stop := start;
    while stop < end && !(stop < bytes.Length && bytes[stop] == 0)
      invariant start <= stop && (start <= end ==> stop <= end) && (start < end || stop == start)
      invariant forall i :: start <= i < stop && i < bytes.Length ==> bytes[i] != 0
    {
      stop := stop + 1;
    }
    r := bytes[Clamp(start, bytes.Length)..Clamp(stop, bytes.Length)];
    CStringStops(bytes[..], start, end, stop);
  }

  /** `subarray` bounds are clamped to the buffer. */
  function Clamp(i: nat, length: nat): nat { if i < length then i else length }

  lemma SliceCons(bytes: seq<byte>, start: nat, to: nat)
    requires start < to <= |bytes|
    ensures bytes[start..to] == [bytes[start]] + bytes[start + 1..to]
  {
    var l, r := bytes[start..to], [bytes[start]] + bytes[start + 1..to];
    assert |l| == |r| && forall k :: 0 <= k < |l| ==> l[k] == r[k];
  }

  lemma {:induction false} CStringStops(bytes: seq<byte>, start: nat, end: nat, stop: nat)
    requires start <= stop && (start <= end ==> stop <= end)
    requires start < end || stop == start
    requires forall i :: start <= i < stop && i < |bytes| ==> bytes[i] != 0
    requires stop >= end || (stop < |bytes| && bytes[stop] == 0)
    ensures CString(bytes, start, end) == bytes[Clamp(start, |bytes|)..Clamp(stop, |bytes|)]
    decreases end - start
  {
    var to := Clamp(stop, |bytes|);
    if start < end && start < |bytes| && bytes[start] != 0 {
      if start + 1 < end {
        CStringStops(bytes, start + 1, end, stop);
      } else {
        assert stop == end && to == start + 1;
        assert CString(bytes, start + 1, end) == [] == bytes[start + 1..to];
      }
      assert start < to;
      SliceCons(bytes, start, to);
    } else {
      assert Clamp(start, |bytes|) == to;
      assert CString(bytes, start, end) == [] == bytes[to..to];
    }
  }

  // ----- program headers

  function After<T>(done: seq<T>, more: Result<seq<T>, Error>): Result<seq<T>, Error> {
    match more
    case Err(e) => Err(e)
    case Ok(rest) => Ok(done + rest)
  }

  lemma AfterTwice<T>(done: seq<T>, x: T, more: Result<seq<T>, Error>)
    ensures After(done, After([x], more)) == After(done + [x], more)
  {
    if more.Ok? {
      assert done + ([x] + more.value) == done + [x] + more.value;
    }
  }

  lemma AfterNothing<T>(more: Result<seq<T>, Error>)
    ensures After([], more) == more
  {
    if more.Ok? {
      assert [] + more.value == more.value;
    }
  }

  method ReadProgram(bytes: array<byte>) returns (r: Result<seq<ProgramHeader>, Error>)
    ensures r == Headers(bytes[..])
  {
    hide ReadTable, ReadHeader;
    var table := ReadTable(bytes[..]);
    if table.Err? {
      return Err(table.error);
    }
    var t := table.value;
    var program: seq<ProgramHeader> := [];
    var at: nat := t.offset;
    AfterNothing(ReadHeaders(bytes[..], t.offset, t.size, t.count));
    for index := 0 to t.count
      invariant ReadHeaders(bytes[..], t.offset, t.size, t.count)
             == After(program, ReadHeaders(bytes[..], at, t.size, t.count - index))
    {
      var h := ReadHeader(bytes[..], at);
      if h.Err? {
        return Err(h.error);
      }
      AfterTwice(program, h.value, ReadHeaders(bytes[..], at + t.size, t.size, t.count - index - 1));
      program := program + [h.value];
      at := at + t.size;
    }
    assert program + [] == program;
    r := Ok(program);
  }

  // ----- the dynamic section

  method ReadDynamicEntries(bytes: array<byte>, start: nat, end: nat) returns (r: Result<seq<Entry>, Error>)
    ensures r == ReadEntries(bytes[..], start, end)
  {
    var entries: seq<Entry> := [];
    var at := start;
    AfterNothing(ReadEntries(bytes[..], start, end));
    while at + 16 <= end
      invariant ReadEntries(bytes[..], start, end) == After(entries, ReadEntries(bytes[..], at, end))
      decreases end - at
    {
      var tag := Get(bytes[..], at, 8);
      if tag.Err? {
        return Err(tag.error);
      }
      if tag.value == DT_NULL {
        break;
      }
      var value := Get(bytes[..], at + 8, 8);
      if value.Err? {
        return Err(value.error);
      }
      AfterTwice(entries, Entry(tag.value, value.value), ReadEntries(bytes[..], at + 16, end));
      entries := entries + [Entry(tag.value, value.value)];
      at := at + 16;
    }
    assert entries + [] == entries;
    r := Ok(entries);
  }

  method AddDynamic(bytes: array<byte>, program: seq<ProgramHeader>, s: ProgramHeader, info: Info)
    returns (r: Result<Info, Error>)
    ensures r == ReadDynamic(bytes[..], program, s, info)
  {
    var entries := ReadDynamicEntries(bytes, s.offset, s.offset + s.filesz);
    if entries.Err? {
      return Err(entries.error);
    }
    var strtab := FindStrtab(entries.value);
    if strtab.None? {
      return Ok(info);
    }
    var base := FileOffset(program, strtab.value);
    if base.Err? {
      return Err(base.error);
    }
    var filled := info;
    for i := 0 to |entries.value|
      invariant AddEntries(bytes[..], base.value, entries.value, info)
             == AddEntries(bytes[..], base.value, entries.value[i..], filled)
    {
      var e := entries.value[i];
      var text := ReadCString(bytes, base.value + e.value, bytes.Length);
      assert bytes.Length == |bytes[..]|;
      filled := if e.tag == DT_NEEDED then filled.(needed := filled.needed + [text])
        else if e.tag == DT_RPATH then filled.(rpath := filled.rpath + SplitPaths(text, []))
        else if e.tag == DT_RUNPATH then filled.(runpath := filled.runpath + SplitPaths(text, []))
        else filled;
      assert entries.value[i..][1..] == entries.value[i + 1..];
    }
    r := Ok(filled);
  }

  // ----- notes

  method AddNotes(bytes: array<byte>, start: nat, end: nat, align: nat, known: Option<AbiTag>)
    returns (r: Result<Option<AbiTag>, Error>)
    requires align > 0
    ensures r == ReadNotes(bytes[..], start, end, align, known)
  {
    hide Pad, CString, ReadNote, ReadAbiTag;
    var tag := known;
    var at := start;
    while at + 12 <= end
      invariant ReadNotes(bytes[..], start, end, align, known) == ReadNotes(bytes[..], at, end, align, tag)
      decreases end - at
    {
      var note := ReadNote(bytes[..], at);
      if note.Err? {
        return Err(note.error);
      }
      var n := note.value;
      var name := ReadCString(bytes, at + 12, at + 12 + n.namesz);
      var desc := at + 12 + Pad(n.namesz, align);
      if name == GNU && n.kind == NT_GNU_ABI_TAG && n.descsz >= 16 && desc + 16 <= end {
        var found := ReadAbiTag(bytes[..], desc);
        if found.Err? {
          return Err(found.error);
        }
        tag := Some(found.value);
      }
      at := desc + Pad(n.descsz, align);
    }
    r := Ok(tag);
  }

  // ----- the whole object

  method AddSegment(bytes: array<byte>, program: seq<ProgramHeader>, s: ProgramHeader, info: Info)
    returns (r: Result<Info, Error>)
    ensures r == ReadSegment(bytes[..], program, s, info)
  {
    if s.kind == PT_INTERP {
      if s.offset + s.filesz > bytes.Length {
        return Err(TruncatedInterpreter);
      }
      var path := ReadCString(bytes, s.offset, s.offset + s.filesz);
      r := Ok(info.(interpreter := Some(Interpreter(path, s.offset, s.filesz))));
    } else if s.kind == PT_DYNAMIC {
      r := AddDynamic(bytes, program, s, info);
    } else if s.kind == PT_NOTE {
      var tag := AddNotes(bytes, s.offset, s.offset + s.filesz, AlignOf(s), info.abiTag);
      r := match tag
        case Err(e) => Err(e)
        case Ok(t) => Ok(info.(abiTag := t));
    } else {
      r := Ok(info);
    }
  }

  method ReadElf(bytes: array<byte>) returns (r: Result<Info, Error>)
    ensures r == Read(bytes[..])
  {
    hide ReadSegment;
    var headers := ReadProgram(bytes);
    if headers.Err? {
      return Err(headers.error);
    }
    var program := headers.value;
    var info := NOTHING;
    for i := 0 to |program|
      invariant ReadSegments(bytes[..], program, program, NOTHING)
                  == ReadSegments(bytes[..], program, program[i..], info)
    {
      var next := AddSegment(bytes, program, program[i], info);
      if next.Err? {
        return Err(next.error);
      }
      assert program[i..][1..] == program[i + 1..];
      info := next.value;
    }
    r := Ok(info);
  }

  /** `rewriteInterpreter`. Nothing is written unless the object has an interpreter whose segment
      holds the path and its NUL; then the segment, and nothing else, becomes the path and zeros. */
  method RewriteInterpreter(bytes: array<byte>, path: seq<byte>) returns (r: Result<bool, Error>)
    modifies bytes
    ensures r.Err? || !r.value ==> bytes[..] == old(bytes[..])
    ensures r == Ok(false) <==> Read(old(bytes[..])).Ok? && Read(old(bytes[..])).value.interpreter.None?
    ensures r == Ok(true) <==> Read(old(bytes[..])).Ok? && Read(old(bytes[..])).value.interpreter.Some?
                               && |path| + 1 <= Read(old(bytes[..])).value.interpreter.value.size
    ensures r == Ok(true) ==>
              var i := Read(old(bytes[..])).value.interpreter.value;
              i.offset + i.size <= bytes.Length && bytes[..] == Rewritten(old(bytes[..]), i.offset, i.size, path)
  {
    hide Read;
    var info := ReadElf(bytes);
    if info.Err? {
      return Err(info.error);
    }
    if info.value.interpreter.None? {
      return Ok(false);
    }
    var i := info.value.interpreter.value;
    if |path| + 1 > i.size {
      return Err(PathTooLong);
    }
    ReadInterpreterInside(bytes[..]);
    forall k | i.offset <= k < i.offset + i.size {
      bytes[k] := 0;
    }
    forall k | 0 <= k < |path| {
      bytes[i.offset + k] := path[k];
    }
    r := Ok(true);
  }

  lemma ReadInterpreterInside(b: seq<byte>)
    ensures Read(b).Ok? && Read(b).value.interpreter.Some? ==>
              Read(b).value.interpreter.value.offset + Read(b).value.interpreter.value.size <= |b|
  {
    var program := Headers(b);
    if program.Ok? {
      InterpreterInside(b, program.value, program.value, NOTHING);
    }
  }
}
