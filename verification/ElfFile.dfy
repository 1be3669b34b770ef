/** Files to flatten: a writer of ELF64 files, read back by the code's own reader, and the
    files on which flattening does not do what its callers expect. */
module ElfFile {
  import opened Bytes
  import opened Outcomes
  import opened Message
  import opened Receive
  import opened Elf

  const EH_LEN: nat := 64
  const PH_LEN: nat := 56

  // ------------------------------------------------------------------- the writer

  /** One PT_LOAD program header. */
  function PhBytes(offset: u64, s: Segment): (b: seq<byte>)
    ensures |b| == PH_LEN
  {
    ToLe(PT_LOAD, 4) + ToLe(0, 4) + ToLe(offset, 8) + ToLe(0, 8) + ToLe(s.paddr, 8)
    + ToLe(|s.file|, 8) + ToLe(s.memsz, 8) + ToLe(0, 8)
  }

  /** The ELF header of an executable for a 64-bit little-endian machine. */
  function EhBytes(entry: u64, count: u16): (b: seq<byte>)
    ensures |b| == EH_LEN
  {
    [0x7f, 0x45, 0x4c, 0x46, 2, 1, 1] + Zeros(17) + ToLe(entry, 8) + ToLe(EH_LEN, 8) + Zeros(14)
    + ToLe(PH_LEN, 2) + ToLe(count, 2) + Zeros(6)
  }

  /** Where the content of segment `i` lies, when the first one's lies at `at`. */
  function OffsetOf(segs: seq<Segment>, at: nat, i: nat): (n: nat)
    requires i <= |segs|
    ensures n >= at
  {
    if i == 0 then at else OffsetOf(segs[1..], at + |segs[0].file|, i - 1)
  }

  predicate Fitting(segs: seq<Segment>, at: nat) { OffsetOf(segs, at, |segs|) < U64 }

  function Table(segs: seq<Segment>, at: nat): (b: seq<byte>)
    requires Fitting(segs, at)
    ensures |b| == PH_LEN * |segs|
    decreases |segs|
  {
    if segs == [] then [] else PhBytes(at, segs[0]) + Table(segs[1..], at + |segs[0].file|)
  }

  function Contents(segs: seq<Segment>): seq<byte>
    decreases |segs|
  {
    if segs == [] then [] else segs[0].file + Contents(segs[1..])
  }

  function DataAt(segs: seq<Segment>): nat { EH_LEN + PH_LEN * |segs| }

  /** Segments a file can hold: at most 65535, none empty, all within 64-bit offsets. */
  predicate Writable(segs: seq<Segment>) {
    && |segs| < 0x1_0000
    && (forall i :: 0 <= i < |segs| ==> segs[i].memsz > 0)
    && Fitting(segs, DataAt(segs))
  }

  function FileOf(entry: u64, segs: seq<Segment>): seq<byte>
    requires Writable(segs)
  {
    EhBytes(entry, |segs|) + Table(segs, DataAt(segs)) + Contents(segs)
  }

  // ----------------------------------------------------------------- field by field

  lemma Reads64(d: seq<byte>, off: u64, n: u64)
    requires off + 8 <= |d| && d[off..off + 8] == ToLe(n, 8)
    ensures Read64(d, off) == Ok(n)
  {
    hide ToLe, FromLe;
    Field(n, 8);
  }

  lemma Reads32(d: seq<byte>, off: u64, n: u32)
    requires off + 4 <= |d| && d[off..off + 4] == ToLe(n, 4)
    ensures Read32(d, off) == Ok(n)
  {
    hide ToLe, FromLe;
    Field(n, 4);
  }

  lemma Reads16(d: seq<byte>, off: u64, n: u16)
    requires off + 2 <= |d| && d[off..off + 2] == ToLe(n, 2)
    ensures Read16(d, off) == Ok(n)
  {
    hide ToLe, FromLe;
    Field(n, 2);
  }

  lemma PhFields(offset: u64, s: Segment)
    ensures var b := PhBytes(offset, s);
      && b[0..4] == ToLe(PT_LOAD, 4) && b[8..16] == ToLe(offset, 8) && b[24..32] == ToLe(s.paddr, 8)
      && b[32..40] == ToLe(|s.file|, 8) && b[40..48] == ToLe(s.memsz, 8)
  {
    hide ToLe;
    var p2 := ToLe(PT_LOAD, 4) + ToLe(0, 4);
    var p3 := p2 + ToLe(offset, 8);
    var p5 := p3 + ToLe(0, 8) + ToLe(s.paddr, 8);
    var p6 := p5 + ToLe(|s.file|, 8);
    var p7 := p6 + ToLe(s.memsz, 8);
    var b := p7 + ToLe(0, 8);
    assert b == PhBytes(offset, s);
    assert b[40..48] == p7[40..48] == ToLe(s.memsz, 8);
    assert b[32..40] == p6[32..40] == ToLe(|s.file|, 8);
    assert b[24..32] == p5[24..32] == ToLe(s.paddr, 8);
    assert b[8..16] == p3[8..16] == ToLe(offset, 8);
    assert b[0..4] == p2[0..4] == ToLe(PT_LOAD, 4);
  }

  lemma Within(d: seq<byte>, at: nat, b: seq<byte>, lo: nat, hi: nat)
    requires lo <= hi <= |b| && at + |b| <= |d| && d[at..at + |b|] == b
    ensures d[at + lo..at + hi] == b[lo..hi]
  {
    var x, y := d[at + lo..at + hi], b[lo..hi];
    forall k | 0 <= k < hi - lo ensures x[k] == y[k] {
      assert x[k] == d[at..at + |b|][lo + k];
    }
  }

  /** A program header in a file is read back as its segment. */
  lemma EntryRoundTrip(d: seq<byte>, ph: u64, offset: u64, s: Segment)
    requires ph + PH_LEN <= |d| < U64 && d[ph..ph + PH_LEN] == PhBytes(offset, s)
    requires offset + |s.file| <= |d| && d[offset..offset + |s.file|] == s.file && s.memsz > 0
    ensures ReadEntry(d, ph) == Ok(Some(s))
  {
    hide ToLe, PhBytes, Read64, Read32;
    var b := PhBytes(offset, s);
    PhFields(offset, s);
    Within(d, ph, b, 0, 4);
    Within(d, ph, b, 8, 16);
    Within(d, ph, b, 24, 32);
    Within(d, ph, b, 32, 40);
    Within(d, ph, b, 40, 48);
    Reads32(d, ph + PH_TYPE, PT_LOAD);
    Reads64(d, ph + PH_OFFSET, offset);
    Reads64(d, ph + PH_PADDR, s.paddr);
    Reads64(d, ph + PH_FILESZ, |s.file|);
    Reads64(d, ph + PH_MEMSZ, s.memsz);
  }

  // ------------------------------------------------------------------- whole files

  lemma {:induction false} TableAt(segs: seq<Segment>, at: nat, i: nat)
    requires Fitting(segs, at) && i < |segs|
    ensures OffsetOf(segs, at, i) < U64
    ensures PH_LEN * i + PH_LEN <= |Table(segs, at)|
    ensures Table(segs, at)[PH_LEN * i..PH_LEN * i + PH_LEN] == PhBytes(OffsetOf(segs, at, i), segs[i])
    decreases |segs|
  {
    hide PhBytes;
    OffsetGrows(segs, at, i);
    var t := Table(segs, at);
    if i > 0 {
      TableAt(segs[1..], at + |segs[0].file|, i - 1);
      var rest := Table(segs[1..], at + |segs[0].file|);
      var k := PH_LEN * (i - 1);
      assert t[PH_LEN * i..PH_LEN * i + PH_LEN] == rest[k..k + PH_LEN];
    }
  }

  lemma {:induction false} OffsetGrows(segs: seq<Segment>, at: nat, i: nat)
    requires i < |segs|
    ensures OffsetOf(segs, at, i) + |segs[i].file| <= OffsetOf(segs, at, |segs|)
    decreases |segs|
  {
    if i > 0 { OffsetGrows(segs[1..], at + |segs[0].file|, i - 1); }
  }

  lemma {:induction false} ContentsAt(segs: seq<Segment>, at: nat, i: nat)
    requires i < |segs|
    ensures var o := OffsetOf(segs, at, i) - at;
      o + |segs[i].file| <= |Contents(segs)| && Contents(segs)[o..o + |segs[i].file|] == segs[i].file
    decreases |segs|
  {
    if i > 0 {
      ContentsAt(segs[1..], at + |segs[0].file|, i - 1);
      var o := OffsetOf(segs[1..], at + |segs[0].file|, i - 1) - (at + |segs[0].file|);
      var n := |segs[0].file|;
      assert Contents(segs)[n + o..n + o + |segs[i].file|] == Contents(segs[1..])[o..o + |segs[i].file|];
    }
  }

  lemma {:induction false} ContentsSize(segs: seq<Segment>, at: nat)
    ensures OffsetOf(segs, at, |segs|) == at + |Contents(segs)|
    decreases |segs|
  {
    if segs != [] { ContentsSize(segs[1..], at + |segs[0].file|); }
  }

  /** What the fixed header of a written file says. */
  function HeaderOfFile(entry: u64, segs: seq<Segment>): ElfHeader
    requires Writable(segs)
  {
    ElfHeader(entry, EH_LEN, PH_LEN, |segs|)
  }

  lemma EhFields(entry: u64, count: u16)
    ensures var b := EhBytes(entry, count);
      && b[..4] == [0x7f, 0x45, 0x4c, 0x46] && b[4] == 2 && b[5] == 1
      && b[24..32] == ToLe(entry, 8) && b[32..40] == ToLe(EH_LEN, 8)
      && b[54..56] == ToLe(PH_LEN, 2) && b[56..58] == ToLe(count, 2)
  {
    hide ToLe;
    var p1: seq<byte> := [0x7f, 0x45, 0x4c, 0x46, 2, 1, 1] + Zeros(17);
    var p2 := p1 + ToLe(entry, 8);
    var p3 := p2 + ToLe(EH_LEN, 8);
    var p4 := p3 + Zeros(14) + ToLe(PH_LEN, 2);
    var p5 := p4 + ToLe(count, 2);
    var b := p5 + Zeros(6);
    assert b == EhBytes(entry, count);
    assert b[56..58] == p5[56..58] == ToLe(count, 2);
    assert b[54..56] == p4[54..56] == ToLe(PH_LEN, 2);
    assert b[32..40] == p3[32..40] == ToLe(EH_LEN, 8);
    assert b[24..32] == p2[24..32] == ToLe(entry, 8);
    assert b[..4] == p1[..4] == [0x7f, 0x45, 0x4c, 0x46];
    assert b[4] == p1[4] && b[5] == p1[5];
  }

  lemma HeaderReads(entry: u64, segs: seq<Segment>)
    requires Writable(segs)
    ensures ReadHeader(FileOf(entry, segs)) == Ok(HeaderOfFile(entry, segs))
    ensures IsElf(FileOf(entry, segs))
  {
    hide ToLe, EhBytes, Table, Contents, Read64, Read16, Fitting;
    var d, b := FileOf(entry, segs), EhBytes(entry, |segs|);
    EhFields(entry, |segs|);
    assert d[0..0 + |b|] == b;
    Within(d, 0, b, 24, 32);
    Within(d, 0, b, 32, 40);
    Within(d, 0, b, 54, 56);
    Within(d, 0, b, 56, 58);
    Within(d, 0, b, 0, 4);
    Reads64(d, E_ENTRY, entry);
    Reads64(d, E_PHOFF, EH_LEN);
    Reads16(d, E_PHENTSIZE, PH_LEN);
    Reads16(d, E_PHNUM, |segs|);
    assert d[4] == b[4] && d[5] == b[5];
  }

  lemma EntryReads(entry: u64, segs: seq<Segment>, i: nat)
    requires Writable(segs) && i < |segs|
    ensures ReadEntry(FileOf(entry, segs), EntryAt(HeaderOfFile(entry, segs), i)) == Ok(Some(segs[i]))
  {
    hide ToLe, EhBytes, Table, Contents, ReadEntry, OffsetOf, PhBytes;
    var at := DataAt(segs);
    var eh, t, c := EhBytes(entry, |segs|), Table(segs, at), Contents(segs);
    var d := FileOf(entry, segs);
    TableAt(segs, at, i);
    ContentsAt(segs, at, i);
    ContentsSize(segs, at);
    var ph, off := EH_LEN + PH_LEN * i, OffsetOf(segs, at, i);
    var s := segs[i];
    assert d == eh + t + c;
    assert d[EH_LEN..EH_LEN + |t|] == t;
    Within(d, EH_LEN, t, PH_LEN * i, PH_LEN * i + PH_LEN);
    assert d[at..at + |c|] == c;
    Within(d, at, c, off - at, off - at + |s.file|);
    EntryRoundTrip(d, ph, off, s);
  }

  lemma {:induction false} SegmentsRead(entry: u64, segs: seq<Segment>, n: nat)
    requires Writable(segs) && n <= |segs|
    ensures Segments(FileOf(entry, segs), HeaderOfFile(entry, segs), n) == Ok(segs[..n])
    decreases n
  {
    hide FileOf, ReadEntry, EntryAt, Fitting;
    if n > 0 {
      SegmentsRead(entry, segs, n - 1);
      EntryReads(entry, segs, n - 1);
      assert segs[..n - 1] + [segs[n - 1]] == segs[..n];
    }
  }

  /** Reading inverts writing: the reader finds in a written file its entry point and
      exactly its segments, in order. */
  lemma FileRoundTrip(entry: u64, segs: seq<Segment>)
    requires Writable(segs)
    ensures Says(FileOf(entry, segs), HeaderOfFile(entry, segs), segs)
  {
    hide FileOf, Segments, ReadHeader, Fitting;
    HeaderReads(entry, segs);
    SegmentsRead(entry, segs, |segs|);
    assert segs[..|segs|] == segs;
  }

  lemma FlattensAs(entry: u64, segs: seq<Segment>, heap: nat)
    requires Writable(segs)
    ensures Flatten(FileOf(entry, segs), heap) == Arrange(entry, segs, heap)
  {
    hide FileOf, Segments, ReadHeader, Fitting, Arrange;
    FileRoundTrip(entry, segs);
  }

  /** An ELF file that holds exactly these segments. */
  ghost predicate Holds(data: seq<byte>, segs: seq<Segment>) {
    var h := ReadHeader(data);
    h.Ok? && Says(data, h.value, segs)
  }

  lemma FileHolds(entry: u64, segs: seq<Segment>)
    requires Writable(segs)
    ensures Holds(FileOf(entry, segs), segs)
  {
    hide FileOf, Segments, ReadHeader, Writable;
    FileRoundTrip(entry, segs);
  }

  // ----------------------------------------------------------- files that surprise

  lemma OneBacked(s: Segment)
    requires s.file != []
    ensures Backed([s]) == [s] && Base([s]) == Min(U64 - 1, s.paddr) && Top([s]) == FileEnd(s) % U64
    ensures MemTop([s]) == Add64(s.paddr, s.memsz)
  {
    assert [] + [s] == [s];
    GrowAll([], s);
    GrowBacked([], s);
  }

  lemma OneSkipped(s: Segment)
    requires s.file == []
    ensures Backed([s]) == [] && MemTop([s]) == Add64(s.paddr, s.memsz)
  {
    assert [] + [s] == [s];
    GrowAll([], s);
  }

  /** A file whose second segment runs over the top of the address space crashes
      flattening, whatever the heap. */
  lemma OverflowCrashes(heap: nat) returns (data: seq<byte>, segs: seq<Segment>)
    ensures Holds(data, segs) && Flatten(data, heap).Crashed?
    ensures |segs| == 2 && FileEnd(segs[0]) < U64 <= FileEnd(segs[1])
  {
    hide Holds, FileOf, Writable;
    var low, high := Segment(0, 1, [1]), Segment(U64 - 1, 2, [2, 3]);
    segs := [low] + [high];
    OneBacked(low);
    GrowAll([low], high);
    GrowBacked([low], high);
    assert Backed(segs) == segs && FileEnd(segs[0]) < U64 <= FileEnd(segs[1]) && Base(segs) == 0;
    assert !Contained(segs);
    CrashIff(0, segs, heap);
    TwoWritable(low, high);
    FlattensAs(0, segs, heap);
    FileHolds(0, segs);
    data := FileOf(0, segs);
  }

  /** A single segment, even one that wraps, becomes an image of just its file bytes. */
  lemma ArrangeOne(s: Segment, heap: nat)
    requires s.file != [] && |s.file| <= heap && s.memsz < U32
    ensures Arrange(s.paddr, [s], heap) == Flattened(Flat(s.paddr, 0, s.memsz, s.file))
  {
    hide Backed, Base, Top, MemTop, Paint, Add64, Sub64;
    OneBacked(s);
    WrapCases(FileEnd(s));
    SubCases(FileEnd(s) % U64, s.paddr);
    SubCases(s.paddr, s.paddr);
    AddSub(s.paddr, s.memsz);
    assert Fits(s, s.paddr, |s.file|);
    OnePainted(s);
  }

  lemma AddSub(a: u64, b: u64)
    ensures Sub64(Add64(a, b), a) == b
  {
    WrapCases(a + b);
    SubCases(Add64(a, b), a);
  }

  lemma OnePainted(s: Segment)
    requires Fits(s, s.paddr, |s.file|)
    ensures Paint([s], s.paddr, |s.file|) == s.file
  {
    assert Front([s]) == [];
  }

  lemma OneWritable(s: Segment)
    requires s.memsz > 0 && |s.file| < 0x1_0000
    ensures Writable([s])
  {
    assert [s][1..] == [];
    assert OffsetOf([s], DataAt([s]), 1) == OffsetOf([], DataAt([s]) + |s.file|, 0);
  }

  lemma TwoWritable(a: Segment, b: Segment)
    requires a.memsz > 0 && b.memsz > 0 && |a.file| < 0x1_0000 && |b.file| < 0x1_0000
    ensures Writable([a] + [b])
  {
    var segs := [a] + [b];
    var at := DataAt(segs);
    assert segs[1..] == [b];
    assert OffsetOf(segs, at, 2) == OffsetOf([b], at + |a.file|, 1);
    assert [b][1..] == [];
    assert OffsetOf([b], at + |a.file|, 1) == OffsetOf([], at + |a.file| + |b.file|, 0);
  }

  /** The same segment alone does no harm. */
  lemma LoneOverflowFlattens(heap: nat) returns (data: seq<byte>)
    requires heap >= 2
    ensures Holds(data, [Segment(U64 - 1, 2, [2, 3])])
    ensures Flatten(data, heap) == Flattened(Flat(U64 - 1, 0, 2, [2, 3]))
  {
    hide Flatten, FileOf, Arrange, Writable, Holds;
    var s := Segment(U64 - 1, 2, [2, 3]);
    ArrangeOne(s, heap);
    OneWritable(s);
    FileHolds(U64 - 1, [s]);
    FlattensAs(U64 - 1, [s], heap);
    data := FileOf(U64 - 1, [s]);
  }

  /** Nothing keeps the memory top from lying below the top of the file content. This
      file flattens to an image larger than its footprint. */
  lemma MemTopBelowTop(heap: nat) returns (data: seq<byte>, segs: seq<Segment>, f: Flat)
    requires heap >= 2
    ensures Holds(data, segs) && MemTop(segs) < Top(Backed(segs))
    ensures Flatten(data, heap) == Flattened(f) && |f.bytes| > f.memLen
  {
    hide Holds, FileOf, Writable, Backed, MemTop, Top, Flatten, Arrange;
    var s := Segment(0x20_0000, 1, [1, 2]);
    segs := [s];
    f := Flat(0x20_0000, 0, 1, [1, 2]);
    OneBacked(s);
    OneWritable(s);
    ArrangeOne(s, heap);
    FileHolds(0x20_0000, segs);
    FlattensAs(0x20_0000, segs, heap);
    data := FileOf(0x20_0000, segs);
  }

  /** BSS, then data. */
  lemma ArrangeBss(bss: Segment, text: Segment, heap: nat)
    requires bss == Segment(0x20_0000, 16, []) && text == Segment(0x20_0800, 4, [1, 2, 3, 4]) && heap >= 4
    ensures Arrange(0x20_0800, [bss] + [text], heap) == Flattened(Flat(0x20_0800, 0, 4, [1, 2, 3, 4]))
  {
    hide Backed, Base, Top, MemTop, Paint;
    OneSkipped(bss);
    GrowAll([bss], text);
    OneBacked(text);
    assert [] + [text] == [text];
    assert Fits(text, 0x20_0800, 4);
    OnePainted(text);
  }

  /** A well-formed file whose BSS segment lies below its data: it flattens, and what is
      loaded is not what the file says. */
  lemma BssBelowHappens(heap: nat) returns (data: seq<byte>, segs: seq<Segment>, f: Flat)
    requires heap >= 4
    ensures Holds(data, segs) && WellFormed(segs) && Flatten(data, heap) == Flattened(f)
    ensures |f.bytes| <= f.memLen && !Faithful(segs, f)
  {
    hide Holds, FileOf, Writable, Flatten, Arrange, Faithful;
    var bss, text := Segment(0x20_0000, 16, []), Segment(0x20_0800, 4, [1, 2, 3, 4]);
    segs := [bss] + [text];
    f := Flat(0x20_0800, 0, 4, [1, 2, 3, 4]);
    ArrangeBss(bss, text, heap);
    TwoWritable(bss, text);
    FileHolds(0x20_0800, segs);
    FlattensAs(0x20_0800, segs, heap);
    data := FileOf(0x20_0800, segs);
    FaithfulIff(0x20_0800, segs, heap, f);
    assert segs[0].paddr < f.base;
  }
}
