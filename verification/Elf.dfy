/** `elf.ts`: just enough of ELF64 little-endian x86-64 (System V ABI, chapter 5, "Program Header"
    and "Dynamic Section") to read an object's loader, libraries and notes. Strings are the bytes
    between two offsets; decoding them as UTF-8 is not part of this model. */
module Elf {
  import opened Wrappers
  import opened Bytes

  const PT_LOAD := 1
  const PT_DYNAMIC := 2
  const PT_INTERP := 3
  const PT_NOTE := 4
  const DT_NULL := 0
  const DT_NEEDED := 1
  const DT_STRTAB := 5
  const DT_RPATH := 15
  const DT_RUNPATH := 29
  const NT_GNU_ABI_TAG := 1
  const EM_X86_64 := 62
  const GNU: seq<byte> := [71, 78, 85]

  datatype Error =
    | NotElf | TruncatedHeader | Not64Bit | NotLittleEndian | WrongMachine
    | TruncatedProgramHeaders | TruncatedInterpreter | NotMapped
    | OutOfRange                 // a DataView read past the end of the buffer
    | PathTooLong

  datatype ProgramHeader = ProgramHeader(kind: nat, offset: nat, vaddr: nat, filesz: nat, align: nat)

  datatype Interpreter = Interpreter(path: seq<byte>, offset: nat, size: nat)
  datatype AbiTag = AbiTag(os: nat, kernel: seq<nat>)
  datatype Info = Info(interpreter: Option<Interpreter>, needed: seq<seq<byte>>, rpath: seq<seq<byte>>,
                       runpath: seq<seq<byte>>, abiTag: Option<AbiTag>)
  datatype Entry = Entry(tag: nat, value: nat)

  // ----- reads

  /** A `DataView` read of `width` bytes. A negative 64-bit dynamic tag is a large number here; it
      equals none of the tags the reader looks for either way. */
  function Get(bytes: seq<byte>, at: nat, width: nat): Result<nat, Error> {
    if at + width <= |bytes| then Ok(GetLE(bytes[at..at + width])) else Err(OutOfRange)
  }

  /** The bytes from `start` up to the first NUL, `end`, or the end of the buffer. */
  function CString(bytes: seq<byte>, start: nat, end: nat): (r: seq<byte>)
    ensures |r| > 0 ==> start + |r| <= end && start + |r| <= |bytes|
    decreases end - start
  {
    if start >= end || start >= |bytes| || bytes[start] == 0 then []
    else [bytes[start]] + CString(bytes, start + 1, end)
  }

  function ReadHeader(bytes: seq<byte>, at: nat): Result<ProgramHeader, Error> {
    if at + 56 > |bytes| then Err(OutOfRange)
    else Ok(ProgramHeader(GetLE(bytes[at..at + 4]), GetLE(bytes[at + 8..at + 16]), GetLE(bytes[at + 16..at + 24]),
                          GetLE(bytes[at + 32..at + 40]), GetLE(bytes[at + 48..at + 56])))
  }

  /** `count` headers, `size` bytes apart. */
  function ReadHeaders(bytes: seq<byte>, at: nat, size: nat, count: nat): Result<seq<ProgramHeader>, Error>
    decreases count
  {
    if count == 0 then Ok([]) else
      match ReadHeader(bytes, at)
      case Err(e) => Err(e)
      case Ok(h) =>
        match ReadHeaders(bytes, at + size, size, count - 1)
        case Err(e) => Err(e)
        case Ok(rest) => Ok([h] + rest)
  }

  /** Where the program headers are: offset, entry size, count. */
  datatype Table = Table(offset: nat, size: nat, count: nat)

  function ReadTable(bytes: seq<byte>): Result<Table, Error> {
    if |bytes| < 4 || bytes[..4] != [0x7f, 0x45, 0x4c, 0x46] then Err(NotElf)
    else if |bytes| < 64 then Err(TruncatedHeader)
    else if bytes[4] != 2 then Err(Not64Bit)
    else if bytes[5] != 1 then Err(NotLittleEndian)
    else if GetLE(bytes[18..20]) != EM_X86_64 then Err(WrongMachine)
    else
      var t := Table(GetLE(bytes[32..40]), GetLE(bytes[54..56]), GetLE(bytes[56..58]));
      if t.offset + t.size * t.count > |bytes| then Err(TruncatedProgramHeaders) else Ok(t)
  }

  function Headers(bytes: seq<byte>): Result<seq<ProgramHeader>, Error> {
    match ReadTable(bytes)
    case Err(e) => Err(e)
    case Ok(t) => ReadHeaders(bytes, t.offset, t.size, t.count)
  }

  /** File offset of a virtual address, through the first load segment that maps it. */
  function FileOffset(program: seq<ProgramHeader>, address: nat): Result<nat, Error> {
    if program == [] then Err(NotMapped)
    else
      var s := program[0];
      if s.kind == PT_LOAD && s.vaddr <= address < s.vaddr + s.filesz then Ok(s.offset + (address - s.vaddr))
      else FileOffset(program[1..], address)
  }

  // ----- the dynamic section

  function ReadEntries(bytes: seq<byte>, at: nat, end: nat): Result<seq<Entry>, Error>
    decreases end - at
  {
    if at + 16 > end then Ok([]) else
      match Get(bytes, at, 8)
      case Err(e) => Err(e)
      case Ok(tag) =>
        if tag == DT_NULL then Ok([]) else
          match Get(bytes, at + 8, 8)
          case Err(e) => Err(e)
          case Ok(value) =>
            match ReadEntries(bytes, at + 16, end)
            case Err(e) => Err(e)
            case Ok(rest) => Ok([Entry(tag, value)] + rest)
  }

  function FindStrtab(entries: seq<Entry>): Option<nat> {
    if entries == [] then None
    else if entries[0].tag == DT_STRTAB then Some(entries[0].value)
    else FindStrtab(entries[1..])
  }

  /** `value.split(':')` without the empty pieces; `piece` is what has been read of the current one. */
  function SplitPaths(value: seq<byte>, piece: seq<byte>): seq<seq<byte>>
    decreases |value|
  {
    var flushed := if piece == [] then [] else [piece];
    if value == [] then flushed
    else if value[0] == 58 then flushed + SplitPaths(value[1..], [])
    else SplitPaths(value[1..], piece + [value[0]])
  }

  function AddEntry(bytes: seq<byte>, base: nat, e: Entry, info: Info): Info {
    var text := CString(bytes, base + e.value, |bytes|);
    if e.tag == DT_NEEDED then info.(needed := info.needed + [text])
    else if e.tag == DT_RPATH then info.(rpath := info.rpath + SplitPaths(text, []))
    else if e.tag == DT_RUNPATH then info.(runpath := info.runpath + SplitPaths(text, []))
    else info
  }

  function AddEntries(bytes: seq<byte>, base: nat, entries: seq<Entry>, info: Info): Info
    decreases |entries|
  {
    if entries == [] then info else AddEntries(bytes, base, entries[1..], AddEntry(bytes, base, entries[0], info))
  }

  function ReadDynamic(bytes: seq<byte>, program: seq<ProgramHeader>, s: ProgramHeader,
                       info: Info): Result<Info, Error>
  {
    match ReadEntries(bytes, s.offset, s.offset + s.filesz)
    case Err(e) => Err(e)
    case Ok(entries) =>
      match FindStrtab(entries)
      case None => Ok(info)
      case Some(address) =>
        match FileOffset(program, address)
        case Err(e) => Err(e)
        case Ok(base) => Ok(AddEntries(bytes, base, entries, info))
  }

  // ----- notes

  function Pad(n: nat, align: nat): (r: nat)
    requires align > 0
    ensures r >= n
  {
    (n + align - 1) / align * align
  }

  /** One note's header: name size, descriptor size and type, and where its name and descriptor lie. */
  datatype Note = Note(namesz: nat, descsz: nat, kind: nat)

  function ReadNote(bytes: seq<byte>, at: nat): Result<Note, Error> {
    if at + 12 > |bytes| then Err(OutOfRange)
    else Ok(Note(GetLE(bytes[at..at + 4]), GetLE(bytes[at + 4..at + 8]), GetLE(bytes[at + 8..at + 12])))
  }

  predicate IsAbiTag(bytes: seq<byte>, at: nat, end: nat, align: nat, n: Note)
    requires align > 0
  {
    CString(bytes, at + 12, at + 12 + n.namesz) == GNU && n.kind == NT_GNU_ABI_TAG && n.descsz >= 16
    && at + 12 + Pad(n.namesz, align) + 16 <= end
  }

  function ReadAbiTag(bytes: seq<byte>, desc: nat): Result<AbiTag, Error> {
    if desc + 16 > |bytes| then Err(OutOfRange)
    else Ok(AbiTag(GetLE(bytes[desc..desc + 4]),
                   [GetLE(bytes[desc + 4..desc + 8]), GetLE(bytes[desc + 8..desc + 12]),
                    GetLE(bytes[desc + 12..desc + 16])]))
  }

  function ReadNotes(bytes: seq<byte>, at: nat, end: nat, align: nat,
                     tag: Option<AbiTag>): Result<Option<AbiTag>, Error>
    requires align > 0
    decreases end - at
  {
    if at + 12 > end then Ok(tag) else
      match ReadNote(bytes, at)
      case Err(e) => Err(e)
      case Ok(n) =>
        var desc := at + 12 + Pad(n.namesz, align);
        var next := desc + Pad(n.descsz, align);
        if IsAbiTag(bytes, at, end, align, n) then
          match ReadAbiTag(bytes, desc)
          case Err(e) => Err(e)
          case Ok(found) => ReadNotes(bytes, next, end, align, Some(found))
        else ReadNotes(bytes, next, end, align, tag)
  }

  function AlignOf(s: ProgramHeader): nat { if s.align == 8 then 8 else 4 }

  // ----- the whole object

  function ReadSegment(bytes: seq<byte>, program: seq<ProgramHeader>, s: ProgramHeader,
                       info: Info): Result<Info, Error>
  {
    if s.kind == PT_INTERP then
      if s.offset + s.filesz > |bytes| then Err(TruncatedInterpreter)
      else Ok(info.(interpreter := Some(Interpreter(CString(bytes, s.offset, s.offset + s.filesz), s.offset,
                                                    s.filesz))))
    else if s.kind == PT_DYNAMIC then ReadDynamic(bytes, program, s, info)
    else if s.kind == PT_NOTE then
      match ReadNotes(bytes, s.offset, s.offset + s.filesz, AlignOf(s), info.abiTag)
      case Err(e) => Err(e)
      case Ok(tag) => Ok(info.(abiTag := tag))
    else Ok(info)
  }

  function ReadSegments(bytes: seq<byte>, program: seq<ProgramHeader>, left: seq<ProgramHeader>,
                        info: Info): Result<Info, Error>
    decreases |left|
  {
    if left == [] then Ok(info) else
      match ReadSegment(bytes, program, left[0], info)
      case Err(e) => Err(e)
      case Ok(more) => ReadSegments(bytes, program, left[1..], more)
  }

  const NOTHING := Info(None, [], [], [], None)

  function Read(bytes: seq<byte>): Result<Info, Error> {
    match Headers(bytes)
    case Err(e) => Err(e)
    case Ok(program) => ReadSegments(bytes, program, program, NOTHING)
  }

  // ----- rewriting the interpreter

  function Zeros(n: nat): (r: seq<byte>)
    ensures |r| == n
  {
    seq(n, i => 0)
  }

  /** The object after `fill` and `set`. */
  function Rewritten(bytes: seq<byte>, at: nat, size: nat, path: seq<byte>): seq<byte>
    requires at + size <= |bytes| && |path| <= size
  {
    bytes[..at] + path + Zeros(size - |path|) + bytes[at + size..]
  }

  /** Everything `Read` looks at, apart from interpreter paths, lies outside `lo..hi`: the ELF header,
      the program headers, the dynamic segments and the strings they name, and the notes. */
  ghost predicate Apart(lo: nat, hi: nat, from: nat, to: nat) {
    to <= lo || hi <= from
  }

  ghost predicate HeadersApart(lo: nat, hi: nat, t: Table) {
    forall i: nat :: i < t.count ==> Apart(lo, hi, HeaderAt(t, i), HeaderAt(t, i) + 56)
  }

  function HeaderAt(t: Table, i: nat): nat { t.offset + i * t.size }

  ghost predicate StringsApart(bytes: seq<byte>, lo: nat, hi: nat, base: nat, entries: seq<Entry>) {
    forall i :: 0 <= i < |entries| && entries[i].tag in {DT_NEEDED, DT_RPATH, DT_RUNPATH} ==>
      var start := base + entries[i].value;
      Apart(lo, hi, start, start + |CString(bytes, start, |bytes|)| + 1)
  }

  ghost predicate DynamicApart(bytes: seq<byte>, lo: nat, hi: nat, program: seq<ProgramHeader>, s: ProgramHeader) {
    && Apart(lo, hi, s.offset, s.offset + s.filesz)
    && match ReadEntries(bytes, s.offset, s.offset + s.filesz)
       case Err(_) => true
       case Ok(entries) =>
         var strtab := FindStrtab(entries);
         strtab.Some? && FileOffset(program, strtab.value).Ok? ==>
           StringsApart(bytes, lo, hi, FileOffset(program, strtab.value).value, entries)
  }

  ghost predicate NotesApart(bytes: seq<byte>, lo: nat, hi: nat, at: nat, end: nat, align: nat)
    requires align > 0
    decreases end - at
  {
    at + 12 <= end ==>
      && Apart(lo, hi, at, end)
      && match ReadNote(bytes, at)
         case Err(_) => true
         case Ok(n) =>
           && Apart(lo, hi, at + 12, at + 12 + n.namesz)
           && NotesApart(bytes, lo, hi, at + 12 + Pad(n.namesz, align) + Pad(n.descsz, align), end, align)
  }

  ghost predicate SegmentApart(b: seq<byte>, lo: nat, hi: nat, program: seq<ProgramHeader>, s: ProgramHeader) {
    && (s.kind == PT_DYNAMIC ==> DynamicApart(b, lo, hi, program, s))
    && (s.kind == PT_NOTE ==> NotesApart(b, lo, hi, s.offset, s.offset + s.filesz, AlignOf(s)))
  }

  ghost predicate WellPlaced(bytes: seq<byte>, lo: nat, hi: nat) {
    && 64 <= lo
    && (ReadTable(bytes).Ok? ==> HeadersApart(lo, hi, ReadTable(bytes).value))
    && (Headers(bytes).Ok? ==>
        var program := Headers(bytes).value;
        forall i :: 0 <= i < |program| ==> SegmentApart(bytes, lo, hi, program, program[i]))
  }

  // ----- reading is the same where the bytes are

  ghost predicate Agree(b: seq<byte>, c: seq<byte>, lo: nat, hi: nat) {
    |b| == |c| && forall i :: 0 <= i < |b| && (i < lo || hi <= i) ==> b[i] == c[i]
  }

  lemma SameSlice(b: seq<byte>, c: seq<byte>, lo: nat, hi: nat, from: nat, to: nat)
    requires Agree(b, c, lo, hi) && Apart(lo, hi, from, to) && from <= to <= |b|
    ensures b[from..to] == c[from..to]
  {}

  /** A smaller range inside one that is apart. */
  lemma SameInside(b: seq<byte>, c: seq<byte>, lo: nat, hi: nat, from: nat, to: nat, i: nat, j: nat)
    requires Agree(b, c, lo, hi) && Apart(lo, hi, from, to) && from <= i <= j <= to && j <= |b|
    ensures b[i..j] == c[i..j]
  {
    SameSlice(b, c, lo, hi, i, j);
  }

  lemma {:induction false} SameCString(b: seq<byte>, c: seq<byte>, lo: nat, hi: nat, start: nat, end: nat)
    requires Agree(b, c, lo, hi) && lo < hi
    requires Apart(lo, hi, start, start + |CString(b, start, end)| + 1) || Apart(lo, hi, start, end)
    ensures CString(c, start, end) == CString(b, start, end)
    decreases end - start
  {
    if start < end && start < |b| && b[start] != 0 {
      SameCString(b, c, lo, hi, start + 1, end);
    }
  }

  lemma SameTable(b: seq<byte>, c: seq<byte>, lo: nat, hi: nat)
    requires Agree(b, c, lo, hi) && 64 <= lo
    ensures ReadTable(c) == ReadTable(b)
  {
    if |b| >= 64 {
      SameInside(b, c, lo, hi, 0, 64, 0, 4);
      SameInside(b, c, lo, hi, 0, 64, 18, 20);
      SameInside(b, c, lo, hi, 0, 64, 32, 40);
      SameInside(b, c, lo, hi, 0, 64, 54, 56);
      SameInside(b, c, lo, hi, 0, 64, 56, 58);
    } else if |b| >= 4 {
      SameInside(b, c, lo, hi, 0, 4, 0, 4);
    }
  }

  lemma SameHeader(b: seq<byte>, c: seq<byte>, lo: nat, hi: nat, at: nat)
    requires Agree(b, c, lo, hi) && Apart(lo, hi, at, at + 56)
    ensures ReadHeader(c, at) == ReadHeader(b, at)
  {
    if at + 56 <= |b| {
      SameInside(b, c, lo, hi, at, at + 56, at, at + 4);
      SameInside(b, c, lo, hi, at, at + 56, at + 8, at + 16);
      SameInside(b, c, lo, hi, at, at + 56, at + 16, at + 24);
      SameInside(b, c, lo, hi, at, at + 56, at + 32, at + 40);
      SameInside(b, c, lo, hi, at, at + 56, at + 48, at + 56);
    }
  }

  lemma {:induction false} SameHeaders(b: seq<byte>, c: seq<byte>, lo: nat, hi: nat, t: Table, k: nat)
    requires Agree(b, c, lo, hi) && HeadersApart(lo, hi, t) && k <= t.count
    ensures ReadHeaders(c, HeaderAt(t, k), t.size, t.count - k) == ReadHeaders(b, HeaderAt(t, k), t.size, t.count - k)
    decreases t.count - k
  {
    hide Agree, ReadHeader;
    if k < t.count {
      SameHeader(b, c, lo, hi, HeaderAt(t, k));
      assert HeaderAt(t, k) + t.size == HeaderAt(t, k + 1);
      SameHeaders(b, c, lo, hi, t, k + 1);
    }
  }

  lemma SameGet(b: seq<byte>, c: seq<byte>, lo: nat, hi: nat, at: nat, width: nat)
    requires Agree(b, c, lo, hi) && Apart(lo, hi, at, at + width)
    ensures Get(c, at, width) == Get(b, at, width)
  {
    if at + width <= |b| {
      SameSlice(b, c, lo, hi, at, at + width);
    }
  }

  lemma {:induction false} SameEntries(b: seq<byte>, c: seq<byte>, lo: nat, hi: nat, at: nat, end: nat)
    requires Agree(b, c, lo, hi) && Apart(lo, hi, at, end)
    ensures ReadEntries(c, at, end) == ReadEntries(b, at, end)
    decreases end - at
  {
    if at + 16 <= end {
      SameGet(b, c, lo, hi, at, 8);
      SameGet(b, c, lo, hi, at + 8, 8);
      SameEntries(b, c, lo, hi, at + 16, end);
    }
  }

  lemma {:induction false} SameStrings(b: seq<byte>, c: seq<byte>, lo: nat, hi: nat, base: nat, entries: seq<Entry>,
                                       info: Info)
    requires Agree(b, c, lo, hi) && lo < hi && StringsApart(b, lo, hi, base, entries)
    ensures AddEntries(c, base, entries, info) == AddEntries(b, base, entries, info)
    decreases |entries|
  {
    if entries != [] {
      var e := entries[0];
      if e.tag in {DT_NEEDED, DT_RPATH, DT_RUNPATH} {
        SameCString(b, c, lo, hi, base + e.value, |b|);
      }
      assert AddEntry(c, base, e, info) == AddEntry(b, base, e, info);
      SameStrings(b, c, lo, hi, base, entries[1..], AddEntry(b, base, e, info));
    }
  }

  lemma SameDynamic(b: seq<byte>, c: seq<byte>, lo: nat, hi: nat, program: seq<ProgramHeader>, s: ProgramHeader,
                    info: Info)
    requires Agree(b, c, lo, hi) && lo < hi && DynamicApart(b, lo, hi, program, s)
    ensures ReadDynamic(c, program, s, info) == ReadDynamic(b, program, s, info)
  {
    SameEntries(b, c, lo, hi, s.offset, s.offset + s.filesz);
    var entries := ReadEntries(b, s.offset, s.offset + s.filesz);
    if entries.Ok? {
      var strtab := FindStrtab(entries.value);
      if strtab.Some? && FileOffset(program, strtab.value).Ok? {
        SameStrings(b, c, lo, hi, FileOffset(program, strtab.value).value, entries.value, info);
      }
    }
  }

  lemma SameNote(b: seq<byte>, c: seq<byte>, lo: nat, hi: nat, at: nat)
    requires Agree(b, c, lo, hi) && Apart(lo, hi, at, at + 12)
    ensures ReadNote(c, at) == ReadNote(b, at)
  {
    if at + 12 <= |b| {
      SameInside(b, c, lo, hi, at, at + 12, at, at + 4);
      SameInside(b, c, lo, hi, at, at + 12, at + 4, at + 8);
      SameInside(b, c, lo, hi, at, at + 12, at + 8, at + 12);
    }
  }

  lemma SameAbiTag(b: seq<byte>, c: seq<byte>, lo: nat, hi: nat, desc: nat)
    requires Agree(b, c, lo, hi) && Apart(lo, hi, desc, desc + 16)
    ensures ReadAbiTag(c, desc) == ReadAbiTag(b, desc)
  {
    if desc + 16 <= |b| {
      SameInside(b, c, lo, hi, desc, desc + 16, desc, desc + 4);
      SameInside(b, c, lo, hi, desc, desc + 16, desc + 4, desc + 8);
      SameInside(b, c, lo, hi, desc, desc + 16, desc + 8, desc + 12);
      SameInside(b, c, lo, hi, desc, desc + 16, desc + 12, desc + 16);
    }
  }

  lemma {:induction false} SameNotes(b: seq<byte>, c: seq<byte>, lo: nat, hi: nat, at: nat, end: nat, align: nat,
                                     tag: Option<AbiTag>)
    requires align > 0 && Agree(b, c, lo, hi) && lo < hi && NotesApart(b, lo, hi, at, end, align)
    ensures ReadNotes(c, at, end, align, tag) == ReadNotes(b, at, end, align, tag)
    decreases end - at
  {
    hide ReadNote, ReadAbiTag, Pad, Agree, CString;
    if at + 12 <= end {
      SameNote(b, c, lo, hi, at);
      if ReadNote(b, at).Ok? {
        var n := ReadNote(b, at).value;
        var desc := at + 12 + Pad(n.namesz, align);
        var next := desc + Pad(n.descsz, align);
        SameCString(b, c, lo, hi, at + 12, at + 12 + n.namesz);
        if IsAbiTag(b, at, end, align, n) {
          SameAbiTag(b, c, lo, hi, desc);
          if ReadAbiTag(b, desc).Ok? {
            SameNotes(b, c, lo, hi, next, end, align, Some(ReadAbiTag(b, desc).value));
          }
        } else {
          SameNotes(b, c, lo, hi, next, end, align, tag);
        }
      }
    }
  }

  /** The information with the interpreter's path read again from other bytes. */
  function Reread(c: seq<byte>, info: Info): Info {
    match info.interpreter
    case None => info
    case Some(i) => info.(interpreter := Some(Interpreter(CString(c, i.offset, i.offset + i.size), i.offset, i.size)))
  }

  function RereadResult(c: seq<byte>, r: Result<Info, Error>): Result<Info, Error> {
    match r
    case Err(e) => Err(e)
    case Ok(info) => Ok(Reread(c, info))
  }

  lemma DynamicKeepsInterpreter(b: seq<byte>, base: nat, entries: seq<Entry>, info: Info, i: Option<Interpreter>)
    ensures AddEntries(b, base, entries, info.(interpreter := i))
              == AddEntries(b, base, entries, info).(interpreter := i)
    decreases |entries|
  {
    if entries != [] {
      DynamicKeepsInterpreter(b, base, entries[1..], AddEntry(b, base, entries[0], info), i);
    }
  }

  lemma {:induction false} EntriesKeepInterpreter(b: seq<byte>, base: nat, entries: seq<Entry>, info: Info)
    ensures AddEntries(b, base, entries, info).interpreter == info.interpreter
    decreases |entries|
  {
    if entries != [] {
      EntriesKeepInterpreter(b, base, entries[1..], AddEntry(b, base, entries[0], info));
    }
  }

  lemma SameDynamicSegment(b: seq<byte>, c: seq<byte>, lo: nat, hi: nat, program: seq<ProgramHeader>, s: ProgramHeader,
                           info: Info)
    requires Agree(b, c, lo, hi) && lo < hi && DynamicApart(b, lo, hi, program, s)
    ensures ReadDynamic(c, program, s, Reread(c, info)) == RereadResult(c, ReadDynamic(b, program, s, info))
  {
    SameDynamic(b, c, lo, hi, program, s, Reread(c, info));
    hide Agree, Apart, DynamicApart, ReadEntries, FileOffset, FindStrtab, AddEntries, Reread;
    var entries := ReadEntries(b, s.offset, s.offset + s.filesz);
    if entries.Ok? {
      var strtab := FindStrtab(entries.value);
      if strtab.Some? && FileOffset(program, strtab.value).Ok? {
        EntriesReread(b, c, FileOffset(program, strtab.value).value, entries.value, info);
      }
    }
  }

  lemma EntriesReread(b: seq<byte>, c: seq<byte>, base: nat, entries: seq<Entry>, info: Info)
    ensures AddEntries(b, base, entries, Reread(c, info)) == Reread(c, AddEntries(b, base, entries, info))
  {
    hide CString, AddEntries;
    DynamicKeepsInterpreter(b, base, entries, info, Reread(c, info).interpreter);
    EntriesKeepInterpreter(b, base, entries, info);
  }

  lemma SameNoteSegment(b: seq<byte>, c: seq<byte>, lo: nat, hi: nat, program: seq<ProgramHeader>, s: ProgramHeader,
                        info: Info)
    requires Agree(b, c, lo, hi) && lo < hi && s.kind == PT_NOTE
    requires NotesApart(b, lo, hi, s.offset, s.offset + s.filesz, AlignOf(s))
    ensures ReadSegment(c, program, s, Reread(c, info)) == RereadResult(c, ReadSegment(b, program, s, info))
  {
    SameNotes(b, c, lo, hi, s.offset, s.offset + s.filesz, AlignOf(s), info.abiTag);
    RereadTagged(c, info);
    hide ReadNotes, NotesApart, Agree, CString, Reread;
  }

  lemma RereadTagged(c: seq<byte>, info: Info)
    ensures Reread(c, info).abiTag == info.abiTag
    ensures forall tag :: Reread(c, info.(abiTag := tag)) == Reread(c, info).(abiTag := tag)
  {
    hide CString;
  }

  lemma SameSegment(b: seq<byte>, c: seq<byte>, lo: nat, hi: nat, program: seq<ProgramHeader>, s: ProgramHeader,
                    info: Info)
    requires Agree(b, c, lo, hi) && lo < hi && SegmentApart(b, lo, hi, program, s)
    ensures ReadSegment(c, program, s, Reread(c, info)) == RereadResult(c, ReadSegment(b, program, s, info))
  {
    if s.kind == PT_NOTE {
      hide ReadSegment, NotesApart, Agree;
      SameNoteSegment(b, c, lo, hi, program, s, info);
    } else if s.kind == PT_DYNAMIC {
      SameDynamicSegment(b, c, lo, hi, program, s, info);
      hide ReadDynamic, DynamicApart, Agree, RereadResult;
    } else {
      hide ReadDynamic, ReadNotes, CString;
      SameLength(b, c, lo, hi);
    }
  }

  lemma SameLength(b: seq<byte>, c: seq<byte>, lo: nat, hi: nat)
    requires Agree(b, c, lo, hi)
    ensures |b| == |c|
  {}

  lemma {:induction false} SameSegments(b: seq<byte>, c: seq<byte>, lo: nat, hi: nat, program: seq<ProgramHeader>,
                                        left: seq<ProgramHeader>, info: Info)
    requires Agree(b, c, lo, hi) && lo < hi
    requires forall i :: 0 <= i < |left| ==> SegmentApart(b, lo, hi, program, left[i])
    ensures ReadSegments(c, program, left, Reread(c, info)) == RereadResult(c, ReadSegments(b, program, left, info))
    decreases |left|
  {
    hide ReadSegment, SegmentApart;
    if left != [] {
      SameSegment(b, c, lo, hi, program, left[0], info);
      var next := ReadSegment(b, program, left[0], info);
      if next.Ok? {
        SameSegments(b, c, lo, hi, program, left[1..], next.value);
      }
    }
  }

  /** Bytes that change only in a well-placed range change what is read only in interpreter paths. */
  lemma SameRead(b: seq<byte>, c: seq<byte>, lo: nat, hi: nat)
    requires Agree(b, c, lo, hi) && lo < hi && WellPlaced(b, lo, hi)
    ensures Read(c) == RereadResult(c, Read(b))
  {
    hide Agree, SegmentApart, HeadersApart, ReadHeaders, ReadSegments, ReadTable;
    SameTable(b, c, lo, hi);
    if ReadTable(b).Ok? {
      var t := ReadTable(b).value;
      SameHeaders(b, c, lo, hi, t, 0);
      assert HeaderAt(t, 0) == t.offset;
      if Headers(b).Ok? {
        var program := Headers(b).value;
        SameSegments(b, c, lo, hi, program, program, NOTHING);
      }
    }
  }

  // ----- the rewritten object

  lemma {:induction false} InterpreterInside(b: seq<byte>, program: seq<ProgramHeader>, left: seq<ProgramHeader>,
                                             info: Info)
    requires info.interpreter.Some? ==> info.interpreter.value.offset + info.interpreter.value.size <= |b|
    ensures var r := ReadSegments(b, program, left, info);
            r.Ok? && r.value.interpreter.Some? ==>
                r.value.interpreter.value.offset + r.value.interpreter.value.size <= |b|
    decreases |left|
  {
    if left != [] {
      var next := ReadSegment(b, program, left[0], info);
      if next.Ok? {
        if left[0].kind == PT_DYNAMIC {
          var entries := ReadEntries(b, left[0].offset, left[0].offset + left[0].filesz).value;
          var strtab := FindStrtab(entries);
          if strtab.Some? {
            EntriesKeepInterpreter(b, FileOffset(program, strtab.value).value, entries, info);
          }
        }
        InterpreterInside(b, program, left[1..], next.value);
      }
    }
  }

  /** The part of the path before its first NUL. */
  function UpToNul(path: seq<byte>): (r: seq<byte>)
    ensures r == path <==> 0 !in path
    ensures |r| <= |path|
  {
    if path == [] || path[0] == 0 then [] else [path[0]] + UpToNul(path[1..])
  }

  lemma {:induction false} PaddedPath(bytes: seq<byte>, start: nat, end: nat, path: seq<byte>)
    requires start + |path| < end <= |bytes|
    requires bytes[start..start + |path|] == path && bytes[start + |path|] == 0
    ensures CString(bytes, start, end) == UpToNul(path)
    decreases |path|
  {
    if path == [] {
    } else {
      assert bytes[start] == bytes[start..start + |path|][0];
      assert bytes[start + 1..start + |path|] == bytes[start..start + |path|][1..];
      if path[0] != 0 {
        PaddedPath(bytes, start + 1, end, path[1..]);
      }
    }
  }

  lemma ReadsBack(bytes: seq<byte>, after: seq<byte>, info: Info, i: Interpreter, path: seq<byte>)
    requires Read(bytes) == Ok(info) && info.interpreter == Some(i)
    requires |path| + 1 <= i.size && WellPlaced(bytes, i.offset, i.offset + i.size)
    requires Agree(bytes, after, i.offset, i.offset + i.size)
    requires CString(after, i.offset, i.offset + i.size) == UpToNul(path)
    ensures Read(after) == Ok(info.(interpreter := Some(i.(path := UpToNul(path)))))
  {
    hide *;
    SameRead(bytes, after, i.offset, i.offset + i.size);
    RereadAs(after, info, i, path);
  }

  lemma RereadAs(after: seq<byte>, info: Info, i: Interpreter, path: seq<byte>)
    requires info.interpreter == Some(i) && CString(after, i.offset, i.offset + i.size) == UpToNul(path)
    ensures RereadResult(after, Ok(info)) == Ok(info.(interpreter := Some(i.(path := UpToNul(path)))))
  {}

  /** Rewriting keeps the length and every byte outside the segment; reading the object again gives
      the same information with the path up to its first NUL as the interpreter's path, so exactly
      the new path when it holds no NUL. */
  lemma RewriteReadsBack(bytes: seq<byte>, info: Info, i: Interpreter, path: seq<byte>)
    requires Read(bytes) == Ok(info) && info.interpreter == Some(i)
    requires i.offset + i.size <= |bytes| && |path| + 1 <= i.size && WellPlaced(bytes, i.offset, i.offset + i.size)
    ensures Agree(bytes, Rewritten(bytes, i.offset, i.size, path), i.offset, i.offset + i.size)
    ensures Read(Rewritten(bytes, i.offset, i.size, path)) == Ok(info.(interpreter := Some(i.(path := UpToNul(path)))))
    ensures Read(Rewritten(bytes, i.offset, i.size, path)) == Ok(info.(interpreter := Some(i.(path := path))))
       <==> 0 !in path
  {
    hide *;
    var after := Rewritten(bytes, i.offset, i.size, path);
    RewrittenBytes(bytes, i.offset, i.size, path);
    PaddedPath(after, i.offset, i.offset + i.size, path);
    ReadsBack(bytes, after, info, i, path);
  }

  lemma RewrittenBytes(bytes: seq<byte>, at: nat, size: nat, path: seq<byte>)
    requires at + size <= |bytes| && |path| + 1 <= size
    ensures |Rewritten(bytes, at, size, path)| == |bytes|
    ensures var after := Rewritten(bytes, at, size, path);
            && Agree(bytes, after, at, at + size)
            && after[at..at + |path|] == path && after[at + |path|] == 0
  {}
}
