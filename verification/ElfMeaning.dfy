/** What the ELF reader's answers mean, said without its loops: in terms of the gABI's tables (chapter 5,
    "Program Header" and "Dynamic Section"). */
module ElfMeaning {
  import opened Wrappers
  import opened Bytes
  import opened Elf

  /** A string table entry: the bytes up to the first NUL, the end of the range or of the buffer. */
  lemma {:induction false} CStringMeans(bytes: seq<byte>, start: nat, end: nat)
    requires start <= end && start <= |bytes|
    ensures var r := CString(bytes, start, end);
            && start + |r| <= end && start + |r| <= |bytes| && r == bytes[start..start + |r|] && 0 !in r
            && (start + |r| == end || start + |r| == |bytes| || bytes[start + |r|] == 0)
    decreases end - start
  {
    if start < end && start < |bytes| && bytes[start] != 0 {
      CStringMeans(bytes, start + 1, end);
      var more := CString(bytes, start + 1, end);
      assert bytes[start..start + 1 + |more|] == [bytes[start]] + bytes[start + 1..start + 1 + |more|];
    }
  }

  /** The load segment that maps an address. */
  predicate Maps(s: ProgramHeader, address: nat) {
    s.kind == PT_LOAD && s.vaddr <= address < s.vaddr + s.filesz
  }

  ghost predicate FirstToMap(program: seq<ProgramHeader>, address: nat, k: nat) {
    k < |program| && Maps(program[k], address) && forall j :: 0 <= j < k ==> !Maps(program[j], address)
  }

  /** An address is in the file exactly when a load segment maps it, as far into the first such segment
      as it is into that segment's memory. */
  lemma {:induction false} FileOffsetMeans(program: seq<ProgramHeader>, address: nat)
    ensures match FileOffset(program, address)
            case Ok(o) => exists k: nat ::
                FirstToMap(program, address, k) && o - program[k].offset == address - program[k].vaddr
            case Err(e) => e == NotMapped && forall s :: s in program ==> !Maps(s, address)
  {
    if program != [] {
      if Maps(program[0], address) {
        assert FirstToMap(program, address, 0);
      } else {
        FileOffsetMeans(program[1..], address);
        assert forall j :: 0 < j < |program| ==> program[j] == program[1..][j - 1];
        if FileOffset(program[1..], address).Ok? {
          var k: nat :| FirstToMap(program[1..], address, k)
            && FileOffset(program, address).value - program[1..][k].offset == address - program[1..][k].vaddr;
          assert FirstToMap(program, address, k + 1);
        }
      }
    }
  }

  const COLON: byte := 58

  lemma {:induction false} PieceGrows(value: seq<byte>, piece: seq<byte>)
    requires COLON !in value
    ensures SplitPaths(value, piece) == if piece + value == [] then [] else [piece + value]
    decreases |value|
  {
    if value == [] {
      assert piece + value == piece;
    } else {
      assert value[0] in value;
      PieceGrows(value[1..], piece + [value[0]]);
      assert piece + [value[0]] + value[1..] == piece + value;
    }
  }

  lemma {:induction false} SplitsAtColon(a: seq<byte>, b: seq<byte>, piece: seq<byte>)
    ensures SplitPaths(a + [COLON] + b, piece) == SplitPaths(a, piece) + SplitPaths(b, [])
    decreases |a|
  {
    var all := a + [COLON] + b;
    if a == [] {
      assert all == [COLON] + b && all[1..] == b;
    } else {
      assert all[0] == a[0] && all[1..] == a[1..] + [COLON] + b;
      if a[0] == COLON {
        SplitsAtColon(a[1..], b, []);
      } else {
        SplitsAtColon(a[1..], b, piece + [a[0]]);
      }
    }
  }

  /** A search path is its colon-free pieces, the empty ones dropped. */
  lemma SearchPathPieces(a: seq<byte>, b: seq<byte>)
    ensures SplitPaths(a + [COLON] + b, []) == SplitPaths(a, []) + SplitPaths(b, [])
    ensures COLON !in a ==> SplitPaths(a, []) == if a == [] then [] else [a]
  {
    SplitsAtColon(a, b, []);
    if COLON !in a {
      PieceGrows(a, []);
      assert [] + a == a;
    }
  }

  /** The strings of the entries with one tag, in order. */
  function Strings(bytes: seq<byte>, base: nat, entries: seq<Entry>, tag: nat): seq<seq<byte>> {
    if entries == [] then []
    else
      (if entries[0].tag == tag then [CString(bytes, base + entries[0].value, |bytes|)] else [])
          + Strings(bytes, base, entries[1..], tag)
  }

  function SearchPaths(texts: seq<seq<byte>>): seq<seq<byte>> {
    if texts == [] then [] else SplitPaths(texts[0], []) + SearchPaths(texts[1..])
  }

  lemma SearchCons(x: seq<byte>, rest: seq<seq<byte>>)
    ensures SearchPaths([x] + rest) == SplitPaths(x, []) + SearchPaths(rest)
  {
    assert ([x] + rest)[1..] == rest;
  }

  lemma Regroup<T>(a: seq<T>, b: seq<T>, c: seq<T>)
    ensures (a + b) + c == a + (b + c) && [] + c == c
  {}

  /** One entry, before the rest: what is added in all is the same. */
  lemma EntryAdds(bytes: seq<byte>, base: nat, entries: seq<Entry>, info: Info)
    requires entries != []
    ensures var next, rest := AddEntry(bytes, base, entries[0], info), entries[1..];
            && next.needed + Strings(bytes, base, rest, DT_NEEDED) == info.needed
                 + Strings(bytes, base, entries, DT_NEEDED)
            && next.rpath + SearchPaths(Strings(bytes, base, rest, DT_RPATH))
                 == info.rpath + SearchPaths(Strings(bytes, base, entries, DT_RPATH))
            && next.runpath + SearchPaths(Strings(bytes, base, rest, DT_RUNPATH))
                 == info.runpath + SearchPaths(Strings(bytes, base, entries, DT_RUNPATH))
  {
    var e, rest := entries[0], entries[1..];
    var text := CString(bytes, base + e.value, |bytes|);
    StringsCons(bytes, base, entries, DT_NEEDED);
    StringsCons(bytes, base, entries, DT_RPATH);
    StringsCons(bytes, base, entries, DT_RUNPATH);
    hide CString, SplitPaths, SearchPaths, Strings;
    if e.tag == DT_NEEDED {
      Regroup(info.needed, [text], Strings(bytes, base, rest, DT_NEEDED));
    } else if e.tag == DT_RPATH {
      SearchCons(text, Strings(bytes, base, rest, DT_RPATH));
      Regroup(info.rpath, SplitPaths(text, []), SearchPaths(Strings(bytes, base, rest, DT_RPATH)));
    } else if e.tag == DT_RUNPATH {
      SearchCons(text, Strings(bytes, base, rest, DT_RUNPATH));
      Regroup(info.runpath, SplitPaths(text, []), SearchPaths(Strings(bytes, base, rest, DT_RUNPATH)));
    }
  }

  /** What a dynamic section adds: a needed library per DT_NEEDED, and the pieces of the search paths. */
  lemma {:induction false} DynamicMeans(bytes: seq<byte>, base: nat, entries: seq<Entry>, info: Info)
    ensures AddEntries(bytes, base, entries, info) ==
              info.(needed := info.needed + Strings(bytes, base, entries, DT_NEEDED),
                    rpath := info.rpath + SearchPaths(Strings(bytes, base, entries, DT_RPATH)),
                    runpath := info.runpath + SearchPaths(Strings(bytes, base, entries, DT_RUNPATH)))
    decreases |entries|
  {
    hide CString, SplitPaths, SearchPaths;
    if entries == [] {
      NoPaths();
    } else {
      hide Strings;
      DynamicMeans(bytes, base, entries[1..], AddEntry(bytes, base, entries[0], info));
      EntryAdds(bytes, base, entries, info);
    }
  }

  lemma StringsCons(bytes: seq<byte>, base: nat, entries: seq<Entry>, tag: nat)
    requires entries != []
    ensures Strings(bytes, base, entries, tag) ==
              if entries[0].tag == tag then [CString(bytes, base + entries[0].value, |bytes|)]
                  + Strings(bytes, base, entries[1..], tag)
              else Strings(bytes, base, entries[1..], tag)
  {
    hide CString;
  }

  lemma NoPaths()
    ensures SearchPaths([]) == []
  {}

  lemma {:induction false} HeadersMean(bytes: seq<byte>, at: nat, size: nat, count: nat, i: nat)
    requires ReadHeaders(bytes, at, size, count).Ok? && i < count
    ensures var program := ReadHeaders(bytes, at, size, count).value;
            |program| == count && ReadHeader(bytes, at + i * size) == Ok(program[i])
    decreases count
  {
    hide ReadHeader;
    if i > 0 {
      HeadersMean(bytes, at + size, size, count - 1, i - 1);
      assert at + size + (i - 1) * size == at + i * size;
    } else if count > 1 {
      HeadersMean(bytes, at + size, size, count - 1, 0);
    }
  }

  /** Where the table's `i`th header is. */
  function HeaderAt(t: Table, i: nat): nat { t.offset + i * t.size }

  /** Every program header is read from its own slot of the table the ELF header announces. */
  lemma ProgramMeans(bytes: seq<byte>, t: Table, program: seq<ProgramHeader>, i: nat)
    requires ReadTable(bytes) == Ok(t) && Headers(bytes) == Ok(program) && i < t.count
    ensures |program| == t.count && ReadHeader(bytes, HeaderAt(t, i)) == Ok(program[i])
  {
    hide ReadHeader, ReadTable;
    HeadersMean(bytes, t.offset, t.size, t.count, i);
  }

  ghost predicate LastInterpreter(left: seq<ProgramHeader>, k: nat) {
    k < |left| && left[k].kind == PT_INTERP && forall j :: k < j < |left| ==> left[j].kind != PT_INTERP
  }

  lemma {:induction false} NoInterpreter(bytes: seq<byte>, program: seq<ProgramHeader>, left: seq<ProgramHeader>,
                                         info: Info)
    requires ReadSegments(bytes, program, left, info).Ok?
    requires forall j :: 0 <= j < |left| ==> left[j].kind != PT_INTERP
    ensures ReadSegments(bytes, program, left, info).value.interpreter == info.interpreter
    decreases |left|
  {
    hide ReadSegment;
    if left != [] {
      OtherSegments(bytes, program, left[0], info);
      NoInterpreter(bytes, program, left[1..], ReadSegment(bytes, program, left[0], info).value);
    }
  }

  /** The NUL-terminated string in the segment's range of the file, and where it is. */
  function InterpreterOf(bytes: seq<byte>, s: ProgramHeader): Interpreter {
    Interpreter(CString(bytes, s.offset, s.offset + s.filesz), s.offset, s.filesz)
  }

  lemma InterpreterRead(bytes: seq<byte>, program: seq<ProgramHeader>, s: ProgramHeader, info: Info)
    requires s.kind == PT_INTERP && ReadSegment(bytes, program, s, info).Ok?
    ensures ReadSegment(bytes, program, s, info).value.interpreter == Some(InterpreterOf(bytes, s))
  {
    hide CString, ReadNotes;
  }

  lemma {:induction false} InterpreterFrom(bytes: seq<byte>, program: seq<ProgramHeader>, left: seq<ProgramHeader>,
                                           info: Info, k: nat)
    requires ReadSegments(bytes, program, left, info).Ok? && LastInterpreter(left, k)
    ensures ReadSegments(bytes, program, left, info).value.interpreter == Some(InterpreterOf(bytes, left[k]))
    decreases |left|
  {
    hide ReadSegment, InterpreterOf;
    var more := ReadSegment(bytes, program, left[0], info).value;
    if k > 0 {
      InterpreterFrom(bytes, program, left[1..], more, k - 1);
    } else {
      InterpreterRead(bytes, program, left[0], info);
      NoInterpreter(bytes, program, left[1..], more);
    }
  }

  lemma OtherSegments(bytes: seq<byte>, program: seq<ProgramHeader>, s: ProgramHeader, info: Info)
    ensures s.kind != PT_INTERP && ReadSegment(bytes, program, s, info).Ok? ==>
              ReadSegment(bytes, program, s, info).value.interpreter == info.interpreter
  {
    hide CString, ReadNotes;
    if s.kind == PT_DYNAMIC {
      match ReadEntries(bytes, s.offset, s.offset + s.filesz)
      case Err(_) =>
      case Ok(entries) =>
        match FindStrtab(entries)
        case None =>
        case Some(address) =>
          match FileOffset(program, address)
          case Err(_) =>
          case Ok(base) => EntriesKeepInterpreter(bytes, base, entries, info);
    }
  }

  /** The interpreter is the string of the last PT_INTERP segment, and there is none without one. */
  lemma InterpreterMeans(bytes: seq<byte>, program: seq<ProgramHeader>, info: Info, k: nat)
    requires Headers(bytes) == Ok(program) && Read(bytes) == Ok(info)
    ensures LastInterpreter(program, k) ==> info.interpreter == Some(InterpreterOf(bytes, program[k]))
    ensures (forall s :: s in program ==> s.kind != PT_INTERP) ==> info.interpreter.None?
  {
    hide ReadSegments, Headers, CString, InterpreterOf;
    if LastInterpreter(program, k) {
      InterpreterFrom(bytes, program, program, NOTHING, k);
    }
    if forall s :: s in program ==> s.kind != PT_INTERP {
      NoInterpreter(bytes, program, program, NOTHING);
    }
  }

  // ----- all segments together

  ghost predicate FirstStrtab(entries: seq<Entry>, k: nat) {
    k < |entries| && entries[k].tag == 5 && forall j :: 0 <= j < k ==> entries[j].tag != 5
  }

  lemma {:induction false} StrtabMeans(entries: seq<Entry>)
    ensures match FindStrtab(entries)
            case Some(address) => exists k: nat :: FirstStrtab(entries, k) && entries[k].value == address
            case None => forall e :: e in entries ==> e.tag != 5
  {
    if entries != [] {
      if entries[0].tag == DT_STRTAB {
        assert FirstStrtab(entries, 0);
      } else {
        StrtabMeans(entries[1..]);
        if FindStrtab(entries[1..]).Some? {
          var k: nat :| FirstStrtab(entries[1..], k) && entries[1..][k].value == FindStrtab(entries).value;
          assert FirstStrtab(entries, k + 1);
        }
      }
    }
  }

  /** The base of the strings a dynamic section names: where its first string table lies in the file.
      Nothing without one. */
  ghost function StringBase(program: seq<ProgramHeader>, entries: seq<Entry>): Result<Option<nat>, Error> {
    match FindStrtab(entries)
    case None => Ok(None)
    case Some(address) => if FileOffset(program, address).Ok? then Ok(Some(FileOffset(program, address).value))
                          else Err(NotMapped)
  }

  ghost function AlignmentOf(s: ProgramHeader): nat { if s.align == 8 then 8 else 4 }

  /** What makes a segment unreadable: an interpreter that runs out of the file; a dynamic section whose
      entries do, or whose string table no load segment maps; and notes that run out of the file. */
  ghost function Failure(bytes: seq<byte>, program: seq<ProgramHeader>, s: ProgramHeader): Option<Error> {
    var end := s.offset + s.filesz;
    match s.kind
    case 2 =>
      var entries := ReadEntries(bytes, s.offset, end);
      if entries.Err? then Some(entries.error)
      else if StringBase(program, entries.value).Err? then Some(NotMapped) else None
    case 3 => if end > |bytes| then Some(TruncatedInterpreter) else None
    case 4 =>
      var tag := ReadNotes(bytes, s.offset, end, AlignmentOf(s), None);
      if tag.Err? then Some(tag.error) else None
    case _ => None
  }

  /** The strings with one tag, segment by segment. */
  ghost function Linked(bytes: seq<byte>, program: seq<ProgramHeader>, left: seq<ProgramHeader>,
                        tag: nat): seq<seq<byte>>
  {
    if left == [] then [] else LinkedBy(bytes, program, left[0], tag) + Linked(bytes, program, left[1..], tag)
  }

  ghost function LinkedBy(bytes: seq<byte>, program: seq<ProgramHeader>, s: ProgramHeader, tag: nat): seq<seq<byte>> {
    var entries := ReadEntries(bytes, s.offset, s.offset + s.filesz);
    if s.kind == 2 && entries.Ok? && StringBase(program, entries.value).Ok? then
      match StringBase(program, entries.value).value
      case None => []
      case Some(base) => Strings(bytes, base, entries.value, tag)
    else []
  }

  /** The last ABI tag of the note segments. */
  ghost function TagIn(bytes: seq<byte>, left: seq<ProgramHeader>, known: Option<AbiTag>): Option<AbiTag> {
    if left == [] then known else TagIn(bytes, left[1..], TagBy(bytes, left[0], known))
  }

  ghost function TagBy(bytes: seq<byte>, s: ProgramHeader, known: Option<AbiTag>): Option<AbiTag> {
    var tag := ReadNotes(bytes, s.offset, s.offset + s.filesz, AlignmentOf(s), None);
    if s.kind == 4 && tag.Ok? && tag.value.Some? then tag.value else known
  }

  /** What is known already is kept until a note says otherwise. */
  lemma {:induction false} NotesFrom(bytes: seq<byte>, at: nat, end: nat, align: nat, known: Option<AbiTag>)
    requires align > 0
    ensures var r, s := ReadNotes(bytes, at, end, align, known), ReadNotes(bytes, at, end, align, None);
            if s.Err? then r == Err(s.error) else r == Ok(if s.value.Some? then s.value else known)
    decreases end - at
  {
    hide IsAbiTag, ReadAbiTag, Pad;
    if at + 12 <= end {
      var n := ReadNote(bytes, at);
      if n.Ok? {
        var desc := at + 12 + Pad(n.value.namesz, align);
        var next := desc + Pad(n.value.descsz, align);
        NotesFrom(bytes, next, end, align, known);
        if IsAbiTag(bytes, at, end, align, n.value) && ReadAbiTag(bytes, desc).Ok? {
          NotesFrom(bytes, next, end, align, Some(ReadAbiTag(bytes, desc).value));
        }
      }
    }
  }

  /** One record is another with these strings, and the pieces of these search paths, added. */
  ghost predicate Adds(info: Info, needed: seq<seq<byte>>, rpath: seq<seq<byte>>, runpath: seq<seq<byte>>,
                       tag: Option<AbiTag>, r: Info)
  {
    && r.needed == info.needed + needed && r.rpath == info.rpath + SearchPaths(rpath)
    && r.runpath == info.runpath + SearchPaths(runpath) && r.abiTag == tag
  }

  lemma AddsNothing(info: Info, r: Info)
    requires r.needed == info.needed && r.rpath == info.rpath && r.runpath == info.runpath
    ensures Adds(info, [], [], [], r.abiTag, r)
  {
    NoPaths();
  }

  lemma {:induction false} SearchAppend(a: seq<seq<byte>>, b: seq<seq<byte>>)
    ensures SearchPaths(a + b) == SearchPaths(a) + SearchPaths(b)
  {
    hide SplitPaths;
    if a == [] {
      assert a + b == b;
    } else {
      assert (a + b)[1..] == a[1..] + b;
      SearchAppend(a[1..], b);
    }
  }

  lemma AddsTwice(a: Info, n: seq<seq<byte>>, p: seq<seq<byte>>, q: seq<seq<byte>>, t: Option<AbiTag>, b: Info,
                  n': seq<seq<byte>>, p': seq<seq<byte>>, q': seq<seq<byte>>, t': Option<AbiTag>, c: Info)
    requires Adds(a, n, p, q, t, b) && Adds(b, n', p', q', t', c)
    ensures Adds(a, n + n', p + p', q + q', t', c)
  {
    SearchAppend(p, p');
    SearchAppend(q, q');
    hide SearchPaths;
    assert a.needed + (n + n') == a.needed + n + n';
  }

  /** What a dynamic segment does when it can be read. */
  lemma DynamicAdds(bytes: seq<byte>, program: seq<ProgramHeader>, s: ProgramHeader, info: Info)
    requires s.kind == 2 && Failure(bytes, program, s).None?
    ensures ReadSegment(bytes, program, s, info).Ok?
    ensures Adds(info, LinkedBy(bytes, program, s, 1), LinkedBy(bytes, program, s, 15), LinkedBy(bytes, program, s, 29),
                 info.abiTag, ReadSegment(bytes, program, s, info).value)
  {
    hide CString, ReadEntries, FileOffset, FindStrtab, Strings, SearchPaths, AddEntries;
    var entries := ReadEntries(bytes, s.offset, s.offset + s.filesz).value;
    var base := StringBase(program, entries).value;
    if base.Some? {
      DynamicMeans(bytes, base.value, entries, info);
    } else {
      AddsNothing(info, info);
    }
  }

  /** One segment: it fails for its reason, or adds what it names. */
  lemma SegmentMeans(bytes: seq<byte>, program: seq<ProgramHeader>, s: ProgramHeader, info: Info)
    ensures var r := ReadSegment(bytes, program, s, info);
            if Failure(bytes, program, s).Some? then r == Err(Failure(bytes, program, s).value)
            else r.Ok? && Adds(info, LinkedBy(bytes, program, s, 1), LinkedBy(bytes, program, s, 15),
                               LinkedBy(bytes, program, s, 29), TagBy(bytes, s, info.abiTag), r.value)
  {
    hide CString, ReadNotes, ReadEntries, FileOffset, FindStrtab, Strings, AddEntries, Adds;
    NotesFrom(bytes, s.offset, s.offset + s.filesz, AlignmentOf(s), info.abiTag);
    var entries := ReadEntries(bytes, s.offset, s.offset + s.filesz);
    if entries.Ok? && FindStrtab(entries.value).Some? {
      FileOffsetMeans(program, FindStrtab(entries.value).value);
    }
    if Failure(bytes, program, s).None? {
      if s.kind == 2 {
        DynamicAdds(bytes, program, s, info);
      } else {
        AddsNothing(info, ReadSegment(bytes, program, s, info).value);
      }
    }
  }

  ghost predicate FirstFailure(bytes: seq<byte>, program: seq<ProgramHeader>, left: seq<ProgramHeader>, k: nat,
                               e: Error)
  {
    && k < |left| && Failure(bytes, program, left[k]) == Some(e)
    && forall j :: 0 <= j < k ==> Failure(bytes, program, left[j]).None?
  }

  /** What the segments add when none of them fails. */
  ghost predicate AllAdd(bytes: seq<byte>, program: seq<ProgramHeader>, left: seq<ProgramHeader>, info: Info, r: Info) {
    && (forall s :: s in left ==> Failure(bytes, program, s).None?)
    && Adds(info, Linked(bytes, program, left, 1), Linked(bytes, program, left, 15), Linked(bytes, program, left, 29),
            TagIn(bytes, left, info.abiTag), r)
  }

  lemma {:induction false} SegmentsMean(bytes: seq<byte>, program: seq<ProgramHeader>, left: seq<ProgramHeader>,
                                        info: Info)
    ensures var r := ReadSegments(bytes, program, left, info);
            if r.Ok? then AllAdd(bytes, program, left, info, r.value)
            else exists k: nat :: FirstFailure(bytes, program, left, k, r.error)
    decreases |left|
  {
    hide ReadSegment, Failure, LinkedBy, TagBy, Adds;
    if left == [] {
      AddsNothing(info, info);
    } else {
      SegmentMeans(bytes, program, left[0], info);
      var next := ReadSegment(bytes, program, left[0], info);
      if next.Err? {
        assert FirstFailure(bytes, program, left, 0, next.error);
      } else {
        SegmentsMean(bytes, program, left[1..], next.value);
        var r := ReadSegments(bytes, program, left[1..], next.value);
        if r.Err? {
          var k: nat :| FirstFailure(bytes, program, left[1..], k, r.error);
          assert FirstFailure(bytes, program, left, k + 1, r.error);
        } else {
          AllAddCons(bytes, program, left, info, next.value, r.value);
        }
      }
    }
  }

  lemma AllAddCons(bytes: seq<byte>, program: seq<ProgramHeader>, left: seq<ProgramHeader>, info: Info, next: Info,
                   r: Info)
    requires left != [] && Failure(bytes, program, left[0]).None? && AllAdd(bytes, program, left[1..], next, r)
    requires ReadSegment(bytes, program, left[0], info) == Ok(next)
    ensures AllAdd(bytes, program, left, info, r)
  {
    hide ReadSegment, Failure, LinkedBy, TagBy, SearchPaths;
    var s, rest := left[0], left[1..];
    SegmentMeans(bytes, program, s, info);
    assert next.abiTag == TagBy(bytes, s, info.abiTag);
    hide Adds;
    AddsTwice(info, LinkedBy(bytes, program, s, 1), LinkedBy(bytes, program, s, 15), LinkedBy(bytes, program, s, 29),
              TagBy(bytes, s, info.abiTag), next, Linked(bytes, program, rest, 1), Linked(bytes, program, rest, 15),
              Linked(bytes, program, rest, 29), TagIn(bytes, rest, next.abiTag), r);
  }

  /** The whole object. With its headers read, reading fails exactly when some segment does, with the
      reason of the first; otherwise the libraries, the search paths and the ABI tag are what the
      segments hold. */
  lemma ReadMeans(bytes: seq<byte>, program: seq<ProgramHeader>)
    requires Headers(bytes) == Ok(program)
    ensures var r := Read(bytes);
            if r.Err? then exists k: nat :: FirstFailure(bytes, program, program, k, r.error)
            else
              && (forall s :: s in program ==> Failure(bytes, program, s).None?)
              && r.value.needed == Linked(bytes, program, program, 1)
              && r.value.rpath == SearchPaths(Linked(bytes, program, program, 15))
              && r.value.runpath == SearchPaths(Linked(bytes, program, program, 29))
              && r.value.abiTag == TagIn(bytes, program, None)
  {
    hide Failure, Linked, SearchPaths, TagIn, ReadSegments;
    SegmentsMean(bytes, program, program, NOTHING);
  }
}
