/** The ELF reader against a printer of the gABI's structures (chapters 4 and 5, "ELF Header", "Program
    Header", "Dynamic Section" and "Note Section"), each field at its width and in the standard's order. */
module ElfLayout {
  import opened Wrappers
  import opened Bytes
  import opened Elf
  import opened ElfMeaning

  // ----- little-endian fields

  /** `n` in `width` little-endian bytes. */
  function PutLE(n: nat, width: nat): (r: seq<byte>)
    ensures |r| == width
  {
    if width == 0 then [] else [n % 256] + PutLE(n / 256, width - 1)
  }

  function Bound(width: nat): nat {
    if width == 0 then 1 else 256 * Bound(width - 1)
  }

  lemma {:induction false} LERoundTrip(n: nat, width: nat)
    requires n < Bound(width)
    ensures GetLE(PutLE(n, width)) == n
  {
    if width > 0 {
      LERoundTrip(n / 256, width - 1);
      assert PutLE(n, width)[1..] == PutLE(n / 256, width - 1);
    }
  }

  /** A field of a structure: its value and width. */
  datatype Field = Field(value: nat, width: nat)

  predicate Fits(fields: seq<Field>) {
    forall f :: f in fields ==> f.value < Bound(f.width)
  }

  function Print(fields: seq<Field>): seq<byte> {
    if fields == [] then [] else PutLE(fields[0].value, fields[0].width) + Print(fields[1..])
  }

  /** Where field `k` starts. */
  function Offset(fields: seq<Field>, k: nat): nat
    requires k <= |fields|
  {
    if k == 0 then 0 else fields[0].width + Offset(fields[1..], k - 1)
  }

  lemma {:induction false} FieldAt(fields: seq<Field>, k: nat)
    requires k < |fields|
    ensures var o, w := Offset(fields, k), fields[k].width;
            o + w <= |Print(fields)| && Print(fields)[o..o + w] == PutLE(fields[k].value, w)
  {
    var first := PutLE(fields[0].value, fields[0].width);
    var rest := Print(fields[1..]);
    if k > 0 {
      FieldAt(fields[1..], k - 1);
      var o, w := Offset(fields[1..], k - 1), fields[k].width;
      assert (first + rest)[|first| + o..|first| + o + w] == rest[o..o + w];
    }
  }

  /** A structure lies at `at`. */
  predicate LiesAt(bytes: seq<byte>, at: nat, printed: seq<byte>) {
    at + |printed| <= |bytes| && bytes[at..at + |printed|] == printed
  }

  lemma SliceOfSlice(s: seq<byte>, i: nat, n: nat, o: nat, w: nat)
    requires i + n <= |s| && o + w <= n
    ensures s[i..i + n][o..o + w] == s[i + o..i + o + w]
  {
    var l, r := s[i..i + n][o..o + w], s[i + o..i + o + w];
    assert |l| == |r| && forall k :: 0 <= k < |l| ==> l[k] == s[i..i + n][o + k] == s[i + (o + k)] == r[k];
  }

  lemma PartLies(bytes: seq<byte>, at: nat, printed: seq<byte>, o: nat, w: nat)
    requires LiesAt(bytes, at, printed) && o + w <= |printed|
    ensures at + o + w <= |bytes| && bytes[at + o..at + o + w] == printed[o..o + w]
  {
    SliceOfSlice(bytes, at, |printed|, o, w);
  }

  lemma FieldFits(fields: seq<Field>, k: nat)
    requires Fits(fields) && k < |fields|
    ensures fields[k].value < Bound(fields[k].width)
  {
    assert fields[k] in fields;
  }

  /** Reading a field where the structure has it gives its value. */
  lemma FieldReads(bytes: seq<byte>, at: nat, fields: seq<Field>, k: nat)
    requires LiesAt(bytes, at, Print(fields)) && Fits(fields) && k < |fields|
    ensures var o, w := Offset(fields, k), fields[k].width;
            at + o + w <= |bytes| && GetLE(bytes[at + o..at + o + w]) == fields[k].value
  {
    hide Print, PutLE, GetLE, Offset, Bound, Fits, LiesAt;
    FieldFits(fields, k);
    FieldAt(fields, k);
    LERoundTrip(fields[k].value, fields[k].width);
    PartLies(bytes, at, Print(fields), Offset(fields, k), fields[k].width);
  }

  lemma {:induction false} OffsetNext(fields: seq<Field>, k: nat)
    requires k < |fields|
    ensures Offset(fields, 0) == 0 && Offset(fields, k + 1) == Offset(fields, k) + fields[k].width
    decreases k
  {
    if k > 0 {
      OffsetNext(fields[1..], k - 1);
    }
  }

  lemma {:induction false} PrintLength(fields: seq<Field>)
    ensures |Print(fields)| == Offset(fields, |fields|)
  {
    if fields != [] {
      PrintLength(fields[1..]);
    }
  }

  // ----- the tables of codes

  const SEGMENT_TYPES: seq<string> := ["PT_NULL", "PT_LOAD", "PT_DYNAMIC", "PT_INTERP", "PT_NOTE", "PT_SHLIB",
                                       "PT_PHDR"]

  const DYNAMIC_TAGS: seq<string> := [
    "DT_NULL", "DT_NEEDED", "DT_PLTRELSZ", "DT_PLTGOT", "DT_HASH", "DT_STRTAB", "DT_SYMTAB", "DT_RELA",
    "DT_RELASZ", "DT_RELAENT", "DT_STRSZ", "DT_SYMENT", "DT_INIT", "DT_FINI", "DT_SONAME", "DT_RPATH",
    "DT_SYMBOLIC", "DT_REL", "DT_RELSZ", "DT_RELENT", "DT_PLTREL", "DT_DEBUG", "DT_TEXTREL", "DT_JMPREL",
    "DT_BIND_NOW", "DT_INIT_ARRAY", "DT_FINI_ARRAY", "DT_INIT_ARRAYSZ", "DT_FINI_ARRAYSZ", "DT_RUNPATH"]

  /** The codes the reader looks for are those the standard's tables number so. */
  lemma CodesAreStandard()
    ensures SEGMENT_TYPES[PT_LOAD] == "PT_LOAD" && SEGMENT_TYPES[PT_DYNAMIC] == "PT_DYNAMIC"
    ensures SEGMENT_TYPES[PT_INTERP] == "PT_INTERP" && SEGMENT_TYPES[PT_NOTE] == "PT_NOTE"
    ensures DYNAMIC_TAGS[DT_NULL] == "DT_NULL" && DYNAMIC_TAGS[DT_NEEDED] == "DT_NEEDED"
    ensures DYNAMIC_TAGS[DT_STRTAB] == "DT_STRTAB" && DYNAMIC_TAGS[DT_RPATH] == "DT_RPATH"
    ensures DYNAMIC_TAGS[DT_RUNPATH] == "DT_RUNPATH"
  {}

  // ----- program headers

  /** Type, flags, offset, virtual address, physical address, file size, memory size, alignment. */
  function ProgramHeaderFields(h: ProgramHeader, flags: nat, paddr: nat, memsz: nat): seq<Field> {
    [Field(h.kind, 4), Field(flags, 4), Field(h.offset, 8), Field(h.vaddr, 8), Field(paddr, 8),
     Field(h.filesz, 8), Field(memsz, 8), Field(h.align, 8)]
  }

  /** A program header as the standard lays it out is read as what it says. */
  lemma HeaderReads(bytes: seq<byte>, at: nat, h: ProgramHeader, flags: nat, paddr: nat, memsz: nat)
    requires var fields := ProgramHeaderFields(h, flags, paddr, memsz);
             Fits(fields) && LiesAt(bytes, at, Print(fields))
    ensures ReadHeader(bytes, at) == Ok(h)
  {
    hide Print, Offset, GetLE, Bound, LiesAt, PutLE;
    var f := ProgramHeaderFields(h, flags, paddr, memsz);
    Offsets(f);
    assert Offset(f, 1) == 4 && Offset(f, 2) == 8 && Offset(f, 3) == 16 && Offset(f, 4) == 24 && Offset(f, 5) == 32;
    assert Offset(f, 6) == 40 && Offset(f, 7) == 48;
    FieldReads(bytes, at, f, 0);
    FieldReads(bytes, at, f, 2);
    FieldReads(bytes, at, f, 3);
    FieldReads(bytes, at, f, 5);
    FieldReads(bytes, at, f, 7);
  }

  /** The offsets of a structure of at most thirteen fields. */
  lemma Offsets(f: seq<Field>)
    ensures Offset(f, 0) == 0
    ensures forall k :: 0 <= k < |f| ==> Offset(f, k + 1) == Offset(f, k) + f[k].width
  {
    forall k | 0 <= k < |f| ensures Offset(f, k + 1) == Offset(f, k) + f[k].width {
      OffsetNext(f, k);
    }
  }

  // ----- the ELF header

  /** What follows the sixteen bytes of identification. */
  datatype ElfHeader = ElfHeader(fileType: nat, machine: nat, version: nat, entry: nat, phoff: nat, shoff: nat,
                                 flags: nat,
                                 ehsize: nat, phentsize: nat, phnum: nat, shentsize: nat, shnum: nat, shstrndx: nat)

  function ElfHeaderFields(e: ElfHeader): seq<Field> {
    [Field(e.fileType, 2), Field(e.machine, 2), Field(e.version, 4), Field(e.entry, 8), Field(e.phoff, 8),
     Field(e.shoff, 8),
     Field(e.flags, 4), Field(e.ehsize, 2), Field(e.phentsize, 2), Field(e.phnum, 2), Field(e.shentsize, 2),
     Field(e.shnum, 2), Field(e.shstrndx, 2)]
  }

  /** The identification: the magic number, 64 bits, little-endian. */
  predicate IsIdentified(bytes: seq<byte>) {
    |bytes| >= 16 && bytes[..6] == [0x7f, 'E' as byte, 'L' as byte, 'F' as byte, 2, 1]
  }

  lemma ElfHeaderOffsets(e: ElfHeader)
    ensures var f := ElfHeaderFields(e);
            && |f| == 13 && f[1] == Field(e.machine, 2) && f[4] == Field(e.phoff, 8) && f[8] == Field(e.phentsize, 2)
            && f[9] == Field(e.phnum, 2) && f[12].width == 2
            && Offset(f, 1) == 2 && Offset(f, 4) == 16 && Offset(f, 8) == 38 && Offset(f, 9) == 40
                 && Offset(f, 12) == 46
  {
    hide Offset;
    var f := ElfHeaderFields(e);
    Offsets(f);
    assert Offset(f, 1) == 2 && Offset(f, 2) == 4 && Offset(f, 3) == 8 && Offset(f, 4) == 16 && Offset(f, 5) == 24;
    assert Offset(f, 6) == 32 && Offset(f, 7) == 36 && Offset(f, 8) == 38 && Offset(f, 9) == 40 && Offset(f, 10) == 42;
    assert Offset(f, 11) == 44 && Offset(f, 12) == 46;
  }

  lemma ElfHeaderReads(bytes: seq<byte>, e: ElfHeader)
    requires Fits(ElfHeaderFields(e)) && LiesAt(bytes, 16, Print(ElfHeaderFields(e)))
    ensures |bytes| >= 64
    ensures GetLE(bytes[18..20]) == e.machine && GetLE(bytes[32..40]) == e.phoff
    ensures GetLE(bytes[54..56]) == e.phentsize && GetLE(bytes[56..58]) == e.phnum
  {
    hide Print, Offset, GetLE, Bound, PutLE, LiesAt, Fits, ElfHeaderFields;
    var f := ElfHeaderFields(e);
    ElfHeaderOffsets(e);
    FieldReads(bytes, 16, f, 1);
    FieldReads(bytes, 16, f, 4);
    FieldReads(bytes, 16, f, 8);
    FieldReads(bytes, 16, f, 9);
    FieldReads(bytes, 16, f, 12);
  }

  /** The table of program headers is where, as long and as wide as the ELF header says, on the one
      machine, and inside the buffer. */
  lemma TableReads(bytes: seq<byte>, e: ElfHeader)
    requires IsIdentified(bytes) && Fits(ElfHeaderFields(e)) && LiesAt(bytes, 16, Print(ElfHeaderFields(e)))
    ensures ReadTable(bytes) ==
              if e.machine != 62 then Err(WrongMachine)
              else if e.phoff + e.phentsize * e.phnum > |bytes| then Err(TruncatedProgramHeaders)
              else Ok(Table(e.phoff, e.phentsize, e.phnum))
  {
    ElfHeaderReads(bytes, e);
    IdentBytes(bytes);
    hide Print, GetLE, Fits, LiesAt, ElfHeaderFields, IsIdentified;
  }

  lemma IdentBytes(bytes: seq<byte>)
    requires IsIdentified(bytes)
    ensures |bytes| >= 16 && bytes[..4] == [0x7f, 0x45, 0x4c, 0x46] && bytes[4] == 2 && bytes[5] == 1
  {
    var ident := bytes[..6];
    assert bytes[..4] == ident[..4] && bytes[4] == ident[4] && bytes[5] == ident[5];
  }

  /** A program header in full. */
  datatype Printed = Printed(header: ProgramHeader, flags: nat, paddr: nat, memsz: nat)

  /** The header lies in the table's slot `i`, as the standard lays it out. */
  predicate LiesInSlot(bytes: seq<byte>, at: nat, size: nat, i: nat, p: Printed) {
    var fields := ProgramHeaderFields(p.header, p.flags, p.paddr, p.memsz);
    Fits(fields) && LiesAt(bytes, at + i * size, Print(fields))
  }

  lemma {:induction false} HeadersRead(bytes: seq<byte>, at: nat, size: nat, printed: seq<Printed>)
    requires forall i :: 0 <= i < |printed| ==> LiesInSlot(bytes, at, size, i, printed[i])
    ensures var program := ReadHeaders(bytes, at, size, |printed|);
            && program.Ok? && |program.value| == |printed|
            && forall i :: 0 <= i < |printed| ==> program.value[i] == printed[i].header
    decreases |printed|
  {
    hide ReadHeader, Print, Fits, LiesAt;
    if printed != [] {
      var p := printed[0];
      assert LiesInSlot(bytes, at, size, 0, p);
      HeaderReads(bytes, at, p.header, p.flags, p.paddr, p.memsz);
      forall i | 0 <= i < |printed| - 1 ensures LiesInSlot(bytes, at + size, size, i, printed[1..][i]) {
        assert LiesInSlot(bytes, at, size, i + 1, printed[i + 1]);
        assert at + (i + 1) * size == at + size + i * size;
      }
      HeadersRead(bytes, at + size, size, printed[1..]);
    }
  }

  /** An object whose ELF header and program headers are laid out by the standard is read as those
      program headers. */
  lemma ProgramReads(bytes: seq<byte>, e: ElfHeader, printed: seq<Printed>)
    requires IsIdentified(bytes) && Fits(ElfHeaderFields(e)) && LiesAt(bytes, 16, Print(ElfHeaderFields(e)))
    requires e.machine == 62 && e.phnum == |printed| && e.phoff + e.phentsize * e.phnum <= |bytes|
    requires forall i :: 0 <= i < |printed| ==> LiesInSlot(bytes, e.phoff, e.phentsize, i, printed[i])
    ensures var program := Headers(bytes);
            && program.Ok? && |program.value| == |printed|
            && forall i :: 0 <= i < |printed| ==> program.value[i] == printed[i].header
  {
    hide ReadTable, ReadHeaders, Fits, LiesAt, LiesInSlot, ElfHeaderFields, Print;
    TableReads(bytes, e);
    HeadersRead(bytes, e.phoff, e.phentsize, printed);
  }

  const MAGIC: seq<byte> := [0x7f, 'E' as byte, 'L' as byte, 'F' as byte]

  /** What is refused before any table is looked at, in this order. */
  lemma IdentChecked(bytes: seq<byte>)
    ensures ReadTable(bytes) == Err(NotElf) <==> !(MAGIC <= bytes)
    ensures ReadTable(bytes) == Err(TruncatedHeader) <==> MAGIC <= bytes && |bytes| < 64
    ensures ReadTable(bytes) == Err(Not64Bit) <==> MAGIC <= bytes && |bytes| >= 64 && bytes[4] != 2
    ensures ReadTable(bytes) == Err(NotLittleEndian)
       <==> MAGIC <= bytes && |bytes| >= 64 && bytes[4] == 2 && bytes[5] != 1
  {
    assert |bytes| >= 4 ==> (MAGIC <= bytes <==> bytes[..4] == MAGIC);
  }

  // ----- notes

  function NoteFields(n: Note): seq<Field> { [Field(n.namesz, 4), Field(n.descsz, 4), Field(n.kind, 4)] }

  lemma NoteReads(bytes: seq<byte>, at: nat, n: Note)
    requires Fits(NoteFields(n)) && LiesAt(bytes, at, Print(NoteFields(n)))
    ensures ReadNote(bytes, at) == Ok(n)
  {
    hide Print, Offset, GetLE, Bound, LiesAt, PutLE;
    var f := NoteFields(n);
    Offsets(f);
    FieldReads(bytes, at, f, 0);
    FieldReads(bytes, at, f, 1);
    FieldReads(bytes, at, f, 2);
  }

  function AbiTagFields(os: nat, major: nat, minor: nat, patch: nat): seq<Field> {
    [Field(os, 4), Field(major, 4), Field(minor, 4), Field(patch, 4)]
  }

  lemma AbiTagReads(bytes: seq<byte>, at: nat, os: nat, major: nat, minor: nat, patch: nat)
    requires var f := AbiTagFields(os, major, minor, patch); Fits(f) && LiesAt(bytes, at, Print(f))
    ensures ReadAbiTag(bytes, at) == Ok(AbiTag(os, [major, minor, patch]))
  {
    hide Print, Offset, GetLE, Bound, LiesAt, PutLE;
    var f := AbiTagFields(os, major, minor, patch);
    Offsets(f);
    FieldReads(bytes, at, f, 0);
    FieldReads(bytes, at, f, 1);
    FieldReads(bytes, at, f, 2);
    FieldReads(bytes, at, f, 3);
  }

  /** A note: its name, its type, its descriptor. */
  datatype NoteData = NoteData(name: seq<byte>, kind: nat, desc: seq<byte>)

  /** A size is padded to the least multiple of the alignment that holds it. */
  lemma PadMeans(n: nat, align: nat)
    requires align > 0
    ensures n <= Pad(n, align) < n + align && exists q :: Pad(n, align) == q * align
  {
    var q := (n + align - 1) / align;
    assert n + align - 1 == q * align + (n + align - 1) % align;
  }

  function Padded(s: seq<byte>, align: nat): (r: seq<byte>)
    requires align > 0
    ensures |r| == Pad(|s|, align)
  {
    s + Zeros(Pad(|s|, align) - |s|)
  }

  function PrintNote(n: NoteData, align: nat): seq<byte>
    requires align > 0
  {
    Print(NoteFields(Note(|n.name|, |n.desc|, n.kind))) + Padded(n.name, align) + Padded(n.desc, align)
  }

  function PrintNotes(notes: seq<NoteData>, align: nat): seq<byte>
    requires align > 0
  {
    if notes == [] then [] else PrintNote(notes[0], align) + PrintNotes(notes[1..], align)
  }

  predicate Writable(n: NoteData) {
    |n.name| < Bound(4) && |n.desc| < Bound(4) && n.kind < Bound(4)
  }

  /** glibc's ABI tag: a note of type 1 whose name up to its first NUL is `GNU`, with room for four
      words. */
  ghost predicate HoldsTag(n: NoteData) {
    && n.kind == 1 && |n.desc| >= 16
    && ['G' as byte, 'N' as byte, 'U' as byte] <= n.name && (|n.name| == 3 || n.name[3] == 0)
  }

  function Word(s: seq<byte>, k: nat): nat
    requires 4 * k + 4 <= |s|
  {
    GetLE(s[4 * k..4 * k + 4])
  }

  ghost function TagOf(n: NoteData, known: Option<AbiTag>): Option<AbiTag> {
    if HoldsTag(n) then Some(AbiTag(Word(n.desc, 0), [Word(n.desc, 1), Word(n.desc, 2), Word(n.desc, 3)])) else known
  }

  /** The last tag among the notes, or the one known before. */
  ghost function LastTag(notes: seq<NoteData>, known: Option<AbiTag>): Option<AbiTag> {
    if notes == [] then known else LastTag(notes[1..], TagOf(notes[0], known))
  }

  lemma NameIsGnu(bytes: seq<byte>, start: nat, name: seq<byte>)
    requires LiesAt(bytes, start, name)
    ensures CString(bytes, start, start + |name|) == GNU <==>
              ['G' as byte, 'N' as byte, 'U' as byte] <= name && (|name| == 3 || name[3] == 0)
  {
    CStringMeans(bytes, start, start + |name|);
    var r := CString(bytes, start, start + |name|);
    hide CString;
    assert forall k :: 0 <= k < |name| ==> name[k] == bytes[start + k];
    assert forall k :: 0 <= k < |r| ==> r[k] == bytes[start + k];
    if ['G' as byte, 'N' as byte, 'U' as byte] <= name && (|name| == 3 || name[3] == 0) {
      assert name[0] == 71 && name[1] == 78 && name[2] == 85;
      assert forall k :: 0 <= k < |r| ==> r[k] in r;
      assert |name| > 3 ==> bytes[start + 3] == 0;
      assert |r| == 3;
      assert r == GNU;
    }
    if r == GNU {
      assert r[0] == 71 && r[1] == 78 && r[2] == 85;
    }
  }

  lemma LiesInside(bytes: seq<byte>, at: nat, a: seq<byte>, b: seq<byte>)
    requires LiesAt(bytes, at, a + b)
    ensures LiesAt(bytes, at, a) && LiesAt(bytes, at + |a|, b)
  {
    SliceOfSlice(bytes, at, |a + b|, 0, |a|);
    SliceOfSlice(bytes, at, |a + b|, |a|, |b|);
    assert (a + b)[0..|a|] == a && (a + b)[|a|..|a| + |b|] == b;
  }

  /** Where the parts of a printed note are. */
  lemma NoteLies(bytes: seq<byte>, at: nat, n: NoteData, align: nat)
    requires align > 0 && LiesAt(bytes, at, PrintNote(n, align))
    ensures var desc := at + 12 + Pad(|n.name|, align);
            && LiesAt(bytes, at, Print(NoteFields(Note(|n.name|, |n.desc|, n.kind))))
            && LiesAt(bytes, at + 12, n.name) && LiesAt(bytes, desc, n.desc)
            && |PrintNote(n, align)| == 12 + Pad(|n.name|, align) + Pad(|n.desc|, align)
  {
    hide LiesAt, Print, Padded, Pad;
    var f := NoteFields(Note(|n.name|, |n.desc|, n.kind));
    assert |Print(f)| == 12 by {
      PrintLength(f);
      Offsets(f);
      assert Offset(f, 1) == 4 && Offset(f, 2) == 8 && Offset(f, 3) == 12;
    }
    LiesInside(bytes, at, Print(f) + Padded(n.name, align), Padded(n.desc, align));
    LiesInside(bytes, at, Print(f), Padded(n.name, align));
    UnpaddedLies(bytes, at + 12, n.name, align);
    UnpaddedLies(bytes, at + 12 + Pad(|n.name|, align), n.desc, align);
  }

  lemma UnpaddedLies(bytes: seq<byte>, at: nat, s: seq<byte>, align: nat)
    requires align > 0 && LiesAt(bytes, at, Padded(s, align))
    ensures LiesAt(bytes, at, s)
  {
    hide LiesAt, Pad;
    LiesInside(bytes, at, s, Zeros(Pad(|s|, align) - |s|));
  }

  lemma TagReads(bytes: seq<byte>, desc: nat, data: seq<byte>)
    requires LiesAt(bytes, desc, data) && |data| >= 16
    ensures ReadAbiTag(bytes, desc) == Ok(AbiTag(Word(data, 0), [Word(data, 1), Word(data, 2), Word(data, 3)]))
  {
    hide GetLE;
    SliceOfSlice(bytes, desc, |data|, 0, 4);
    SliceOfSlice(bytes, desc, |data|, 4, 4);
    SliceOfSlice(bytes, desc, |data|, 8, 4);
    SliceOfSlice(bytes, desc, |data|, 12, 4);
  }

  /** One note of a section is read as what it says, and the next is where it ends. */
  lemma NoteRead(bytes: seq<byte>, at: nat, end: nat, n: NoteData, align: nat, known: Option<AbiTag>)
    requires align > 0 && Writable(n) && LiesAt(bytes, at, PrintNote(n, align)) && at + |PrintNote(n, align)| <= end
    ensures ReadNotes(bytes, at, end, align, known)
         == ReadNotes(bytes, at + |PrintNote(n, align)|, end, align, TagOf(n, known))
  {
    hide GetLE, CString, LiesAt, PrintNote, Bound, ReadNote, ReadAbiTag, Word;
    var note := Note(|n.name|, |n.desc|, n.kind);
    var desc := at + 12 + Pad(|n.name|, align);
    NoteLies(bytes, at, n, align);
    NoteReads(bytes, at, note);
    NameIsGnu(bytes, at + 12, n.name);
    assert Pad(|n.desc|, align) >= |n.desc|;
    hide Pad;
    assert IsAbiTag(bytes, at, end, align, note) <==> HoldsTag(n);
    if HoldsTag(n) {
      TagReads(bytes, desc, n.desc);
    }
  }

  lemma NotesCons(notes: seq<NoteData>, align: nat, known: Option<AbiTag>)
    requires align > 0 && notes != []
    ensures PrintNotes(notes, align) == PrintNote(notes[0], align) + PrintNotes(notes[1..], align)
    ensures LastTag(notes, known) == LastTag(notes[1..], TagOf(notes[0], known))
  {
    hide PrintNote, TagOf;
  }

  lemma NoNotes(bytes: seq<byte>, at: nat, align: nat, known: Option<AbiTag>)
    requires align > 0
    ensures PrintNotes([], align) == [] && LastTag([], known) == known
    ensures ReadNotes(bytes, at, at, align, known) == Ok(known)
  {
    hide PrintNote, TagOf;
  }

  /** A section of notes: the tag found is the last one's. */
  lemma {:induction false} NotesRead(bytes: seq<byte>, at: nat, notes: seq<NoteData>, align: nat, known: Option<AbiTag>)
    requires align > 0 && (forall n :: n in notes ==> Writable(n)) && LiesAt(bytes, at, PrintNotes(notes, align))
    ensures ReadNotes(bytes, at, at + |PrintNotes(notes, align)|, align, known) == Ok(LastTag(notes, known))
    decreases |notes|
  {
    hide *;
    if notes == [] {
      NoNotes(bytes, at, align, known);
    } else {
      var n, next := notes[0], TagOf(notes[0], known);
      var first, rest := PrintNote(n, align), PrintNotes(notes[1..], align);
      NotesCons(notes, align, known);
      LiesInside(bytes, at, first, rest);
      NoteRead(bytes, at, at + |first| + |rest|, n, align, known);
      NotesRead(bytes, at + |first|, notes[1..], align, next);
    }
  }

  // ----- the dynamic section

  function EntryFields(e: Entry): seq<Field> { [Field(e.tag, 8), Field(e.value, 8)] }

  function PrintEntries(entries: seq<Entry>): seq<byte> {
    if entries == [] then [] else Print(EntryFields(entries[0])) + PrintEntries(entries[1..])
  }

  lemma EntryReads(bytes: seq<byte>, at: nat, e: Entry)
    requires Fits(EntryFields(e)) && LiesAt(bytes, at, Print(EntryFields(e)))
    ensures |Print(EntryFields(e))| == 16 && Get(bytes, at, 8) == Ok(e.tag) && Get(bytes, at + 8, 8) == Ok(e.value)
  {
    hide Print, Offset, GetLE, Bound, LiesAt, PutLE;
    var f := EntryFields(e);
    Offsets(f);
    PrintLength(f);
    FieldReads(bytes, at, f, 0);
    FieldReads(bytes, at, f, 1);
  }

  /** A dynamic section's entries are read up to its first `DT_NULL`, or to its end. */
  lemma {:induction false} EntriesRead(bytes: seq<byte>, at: nat, end: nat, entries: seq<Entry>)
    requires (forall e :: e in entries ==> Fits(EntryFields(e)) && e.tag != DT_NULL)
               && LiesAt(bytes, at, PrintEntries(entries))
    requires var next := at + |PrintEntries(entries)|;
             next <= end && (end < next + 16 || Get(bytes, next, 8) == Ok(DT_NULL))
    ensures ReadEntries(bytes, at, end) == Ok(entries)
    decreases |entries|
  {
    hide Print, Get, LiesAt, Fits;
    if entries != [] {
      var first, rest := Print(EntryFields(entries[0])), PrintEntries(entries[1..]);
      LiesInside(bytes, at, first, rest);
      EntryReads(bytes, at, entries[0]);
      EntriesRead(bytes, at + 16, end, entries[1..]);
      assert [entries[0]] + entries[1..] == entries;
    }
  }
}
