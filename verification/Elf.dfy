/** Flattening an ELF64 file into one image plus a zero-filled tail.

    The code reads the program headers once, keeping a running base, top and memory
    top, and then copies each file-backed segment into a zeroed buffer. Addresses are
    64-bit and wrap, as in an optimised build. */
module Elf {
  import opened Bytes
  import opened Outcomes
  import opened Message
  import opened Receive
  import opened LoaderSafety
  import Frame

  const E_ENTRY: nat := 24
  const E_PHOFF: nat := 32
  const E_PHENTSIZE: nat := 54
  const E_PHNUM: nat := 56
  const PT_LOAD: nat := 1
  const PH_TYPE: nat := 0
  const PH_OFFSET: nat := 8
  const PH_PADDR: nat := 24
  const PH_FILESZ: nat := 32
  const PH_MEMSZ: nat := 40

  datatype ElfError = NotElf64Le | TruncatedElf | PastEndOfFile | NoLoadableData | ImageTooLarge | EntryOutOfRange

  /** `d.get(off..off + n)`. A sum that leaves 64 bits leaves the file as well. */
  function Slice(d: seq<byte>, off: u64, n: u64, e: ElfError): (r: Result<seq<byte>, ElfError>)
    ensures r.Ok? ==> |r.value| == n
  {
    if off + n <= |d| then Ok(d[off..off + n]) else Err(e)
  }

  function Read16(d: seq<byte>, off: u64): Result<u16, ElfError> {
    if off + 2 <= |d| then Ok(Rd16(d, off)) else Err(TruncatedElf)
  }

  function Read32(d: seq<byte>, off: u64): Result<u32, ElfError> {
    if off + 4 <= |d| then Ok(Rd32(d, off)) else Err(TruncatedElf)
  }

  function Read64(d: seq<byte>, off: u64): Result<u64, ElfError> {
    if off + 8 <= |d| then Ok(Rd64(d, off)) else Err(TruncatedElf)
  }

  function Add64(a: u64, b: u64): u64 { (a + b) % U64 }

  function Sub64(a: u64, b: u64): u64 { (a - b) % U64 }

  // ---------------------------------------------------------- what a file says

  /** File bytes of one segment: their number is a 64-bit field. */
  type content = s: seq<byte> | |s| < 0x1_0000_0000_0000_0000

  /** A non-empty PT_LOAD entry: where it goes, how much memory it takes, and the
      file bytes it starts with. */
  datatype Segment = Segment(paddr: u64, memsz: u64, file: content)

  datatype ElfHeader = ElfHeader(entry: u64, phoff: u64, phentsize: u16, phnum: u16)

  function ReadHeader(data: seq<byte>): Result<ElfHeader, ElfError> {
    if |data| <= 5 || data[4] != 2 || data[5] != 1 then Err(NotElf64Le)
    else
      var entry :- Read64(data, E_ENTRY);
      var phoff :- Read64(data, E_PHOFF);
      var phentsize :- Read16(data, E_PHENTSIZE);
      var phnum :- Read16(data, E_PHNUM);
      Ok(ElfHeader(entry, phoff, phentsize, phnum))
  }

  /** One program header; `None` when it loads nothing. */
  function ReadEntry(data: seq<byte>, ph: u64): Result<Option<Segment>, ElfError> {
    var ty :- Read32(data, Add64(ph, PH_TYPE));
    if ty != PT_LOAD then Ok(None)
    else
      var memsz :- Read64(data, Add64(ph, PH_MEMSZ));
      if memsz == 0 then Ok(None)
      else
        var paddr :- Read64(data, Add64(ph, PH_PADDR));
        var filesz :- Read64(data, Add64(ph, PH_FILESZ));
        if filesz == 0 then Ok(Some(Segment(paddr, memsz, [])))
        else
          var offset :- Read64(data, Add64(ph, PH_OFFSET));
          var src :- Slice(data, offset, filesz, PastEndOfFile);
          Ok(Some(Segment(paddr, memsz, src)))
  }

  /** The address of program header `i`. */
  function EntryAt(h: ElfHeader, i: nat): u64 { (h.phoff + i * h.phentsize) % U64 }

  /** What the first `n` program headers load, in order. */
  function Segments(data: seq<byte>, h: ElfHeader, n: nat): Result<seq<Segment>, ElfError>
    decreases n
  {
    if n == 0 then Ok([])
    else
      var before :- Segments(data, h, n - 1);
      var entry :- ReadEntry(data, EntryAt(h, n - 1));
      Ok(if entry.Some? then before + [entry.value] else before)
  }

  predicate IsElf(data: seq<byte>) {
    |data| >= 4 && data[..4] == [0x7f, 0x45, 0x4c, 0x46]
  }

  /** The header and the segments of a file, read the way the code reads them. */
  ghost predicate Says(data: seq<byte>, h: ElfHeader, segs: seq<Segment>) {
    IsElf(data) && ReadHeader(data) == Ok(h) && Segments(data, h, h.phnum) == Ok(segs)
  }

  // ------------------------------------------------------------- what comes out

  datatype Flat = Flat(base: u64, entryOff: u32, memLen: u32, bytes: seq<byte>)

  /** A crash is a failed allocation or an index panic. */
  datatype Outcome = Flattened(flat: Flat) | Refused(error: ElfError) | Crashed

  function Last(segs: seq<Segment>): Segment
    requires segs != []
  {
    segs[|segs| - 1]
  }

  function Front(segs: seq<Segment>): seq<Segment>
    requires segs != []
  {
    segs[..|segs| - 1]
  }

  /** The segments with file content. */
  function Backed(segs: seq<Segment>): (b: seq<Segment>)
    ensures forall i :: 0 <= i < |b| ==> b[i] in segs && b[i].file != []
  {
    if segs == [] then []
    else if Last(segs).file != [] then Backed(Front(segs)) + [Last(segs)]
    else Backed(Front(segs))
  }

  /** Lowest address of the segments given; all of memory when there are none. */
  function Base(backed: seq<Segment>): u64 {
    if backed == [] then U64 - 1
    else if Last(backed).paddr < Base(Front(backed)) then Last(backed).paddr
    else Base(Front(backed))
  }

  /** Highest end of file content. */
  function Top(backed: seq<Segment>): u64 {
    if backed == [] then 0
    else
      var end := (Last(backed).paddr + |Last(backed).file|) % U64;
      if end > Top(Front(backed)) then end else Top(Front(backed))
  }

  /** Highest end of memory. */
  function MemTop(segs: seq<Segment>): u64 {
    if segs == [] then 0
    else
      var end := Add64(Last(segs).paddr, Last(segs).memsz);
      if end > MemTop(Front(segs)) then end else MemTop(Front(segs))
  }

  predicate Fits(s: Segment, base: nat, size: nat) {
    base <= s.paddr && s.paddr - base + |s.file| <= size
  }

  /** A zeroed buffer with the segments copied in, one after the other. */
  function Paint(backed: seq<Segment>, base: nat, size: nat): (image: seq<byte>)
    requires forall i :: 0 <= i < |backed| ==> Fits(backed[i], base, size)
    ensures |image| == size
  {
    if backed == [] then Zeros(size)
    else
      assert Fits(backed[|backed| - 1], base, size);
      Write(Paint(Front(backed), base, size), Last(backed).paddr - base, Last(backed).file)
  }

  /** The image for the segments read, when at most `heap` bytes can be allocated. */
  function Arrange(entry: u64, segs: seq<Segment>, heap: nat): Outcome {
    var backed := Backed(segs);
    if backed == [] then Refused(NoLoadableData)
    else
      var base := Base(backed);
      var size := Sub64(Top(backed), base);
      if size > heap || exists i :: 0 <= i < |backed| && !Fits(backed[i], base, size) then Crashed
      else
        var memLen := Sub64(MemTop(segs), base);
        var entryOff := Sub64(entry, base);
        if memLen >= U32 then Refused(ElfError.ImageTooLarge)
        else if entryOff >= U32 then Refused(EntryOutOfRange)
        else Flattened(Flat(base, entryOff, memLen, Paint(backed, base, size)))
  }

  function Flatten(data: seq<byte>, heap: nat): Outcome {
    var h := ReadHeader(data);
    if h.Err? then Refused(h.error)
    else
      var segs := Segments(data, h.value, h.value.phnum);
      if segs.Err? then Refused(segs.error) else Arrange(h.value.entry, segs.value, heap)
  }

  /** Nothing empty is ever collected. */
  lemma {:induction false} SegmentsTakeSpace(data: seq<byte>, h: ElfHeader, n: nat)
    requires Segments(data, h, n).Ok?
    ensures forall i :: 0 <= i < |Segments(data, h, n).value| ==> Segments(data, h, n).value[i].memsz > 0
    decreases n
  {
    if n > 0 { SegmentsTakeSpace(data, h, n - 1); }
  }

  // ------------------------------------------------------------------ the code

  function Min(a: u64, b: u64): u64 { if b < a then b else a }

  function Max(a: u64, b: u64): u64 { if b > a then b else a }

  lemma GrowAll(segs: seq<Segment>, s: Segment)
    ensures Backed(segs + [s]) == if s.file == [] then Backed(segs) else Backed(segs) + [s]
    ensures MemTop(segs + [s]) == Max(MemTop(segs), Add64(s.paddr, s.memsz))
  {
    assert Front(segs + [s]) == segs && Last(segs + [s]) == s;
  }

  lemma GrowBacked(segs: seq<Segment>, s: Segment)
    ensures Base(segs + [s]) == Min(Base(segs), s.paddr)
    ensures Top(segs + [s]) == Max(Top(segs), (s.paddr + |s.file|) % U64)
  {
    assert Front(segs + [s]) == segs && Last(segs + [s]) == s;
  }

  lemma {:induction false} ErrorStays(data: seq<byte>, h: ElfHeader, i: nat, n: nat)
    requires Segments(data, h, i).Err? && i <= n
    ensures Segments(data, h, n) == Err(Segments(data, h, i).error)
    decreases n
  {
    hide ReadEntry;
    if i < n { ErrorStays(data, h, i, n - 1); }
  }

  /** The header loop: four running values over the program headers. */
  method ReadSegments(data: seq<byte>, h: ElfHeader)
    returns (r: Result<seq<Segment>, ElfError>, base: u64, top: u64, memTop: u64)
    ensures var segs := Segments(data, h, h.phnum);
      if segs.Err? then r == Err(segs.error)
      else
        && r == Ok(Backed(segs.value))
        && base == Base(Backed(segs.value)) && top == Top(Backed(segs.value)) && memTop == MemTop(segs.value)
  {
    hide EntryAt, Base, Top, MemTop, Backed;
    var segments: seq<Segment> := [];
    base, top, memTop := U64 - 1, 0, 0;
    Grow0();
    ghost var all: seq<Segment> := [];
    var i := 0;
    while i < h.phnum
      invariant 0 <= i <= h.phnum
      invariant Segments(data, h, i) == Ok(all)
      invariant segments == Backed(all)
      invariant base == Base(segments) && top == Top(segments) && memTop == MemTop(all)
    {
      var entry := ReadOne(data, EntryAt(h, i));
      if entry.Err? {
        ErrorStays(data, h, i + 1, h.phnum);
        return Err(entry.error), base, top, memTop;
      }
      if entry.value.Some? {
        var s := entry.value.value;
        GrowAll(all, s);
        memTop := Max(memTop, Add64(s.paddr, s.memsz));
        if s.file != [] {
          GrowBacked(segments, s);
          base := Min(base, s.paddr);
          top := Max(top, (s.paddr + |s.file|) % U64);
          segments := segments + [s];
        }
        all := all + [s];
      }
      i := i + 1;
    }
    r := Ok(segments);
  }

  lemma Grow0()
    ensures Backed([]) == [] && Base([]) == U64 - 1 && Top([]) == 0 && MemTop([]) == 0
  {}

  /** The body of the header loop, with the early exits the code takes. */
  method ReadOne(data: seq<byte>, ph: u64) returns (r: Result<Option<Segment>, ElfError>)
    ensures r == ReadEntry(data, ph)
  {
    var ty :- Read32(data, Add64(ph, PH_TYPE));
    if ty != PT_LOAD {
      return Ok(None);
    }
    var memsz :- Read64(data, Add64(ph, PH_MEMSZ));
    if memsz == 0 {
      return Ok(None);
    }
    var paddr :- Read64(data, Add64(ph, PH_PADDR));
    var filesz :- Read64(data, Add64(ph, PH_FILESZ));
    if filesz == 0 {
      return Ok(Some(Segment(paddr, memsz, [])));
    }
    var offset :- Read64(data, Add64(ph, PH_OFFSET));
    var src :- Slice(data, offset, filesz, PastEndOfFile);
    r := Ok(Some(Segment(paddr, memsz, src)));
  }

  /** The copy loop. `None` when a slice falls outside the buffer. */
  method Copy(segments: seq<Segment>, base: u64, size: u64) returns (image: Option<seq<byte>>)
    requires base == Base(segments)
    ensures image.None? <==> exists i :: 0 <= i < |segments| && !Fits(segments[i], base, size)
    ensures image.Some? ==> image.value == Paint(segments, base, size)
  {
    hide Base, Write;
    var buf := new byte[size](_ => 0);
    var k := 0;
    assert buf[..] == Paint(segments[..0], base, size);
    while k < |segments|
      invariant 0 <= k <= |segments|
      invariant forall i :: 0 <= i < k ==> Fits(segments[i], base, size)
      invariant buf[..] == Paint(segments[..k], base, size)
    {
      var s := segments[k];
      BaseIsLeast(segments, k);
      var start := s.paddr - base;
      if start + |s.file| > size {
        assert !Fits(segments[k], base, size);
        return None;
      }
      PaintOne(segments, k, base, size);
      CopyHere(buf, start, s.file);
      k := k + 1;
    }
    assert segments[..k] == segments;
    image := Some(buf[..]);
  }

  method CopyHere(buf: array<byte>, start: nat, src: seq<byte>)
    requires start + |src| <= buf.Length
    modifies buf
    ensures buf[..] == Write(old(buf[..]), start, src)
  {
    ghost var was := buf[..];
    Frame.CopyInto(buf, start, src);
    assert was[..start] == old(buf[..start]) && was[start + |src|..] == old(buf[start + |src|..]);
  }

  lemma PaintOne(segments: seq<Segment>, k: nat, base: nat, size: nat)
    requires k < |segments| && forall i :: 0 <= i <= k ==> Fits(segments[i], base, size)
    ensures Paint(segments[..k + 1], base, size)
      == Write(Paint(segments[..k], base, size), segments[k].paddr - base, segments[k].file)
  {
    hide Write;
    assert Front(segments[..k + 1]) == segments[..k];
  }

  /** The whole of `flatten_elf`. */
  method FlattenElf(data: seq<byte>, heap: nat) returns (r: Outcome)
    ensures r == Flatten(data, heap)
  {
    hide Segments, ReadHeader, Base, Top, MemTop, Paint, Backed;
    var h := ReadHeader(data);
    if h.Err? {
      return Refused(h.error);
    }
    var segments, base, top, memTop := ReadSegments(data, h.value);
    if segments.Err? {
      return Refused(segments.error);
    }
    if segments.value == [] {
      return Refused(NoLoadableData);
    }
    var size := Sub64(top, base);
    if size > heap {
      return Crashed;
    }
    var image := Copy(segments.value, base, size);
    if image.None? {
      return Crashed;
    }
    var memLen := Sub64(memTop, base);
    if memLen >= U32 {
      return Refused(ElfError.ImageTooLarge);
    }
    var entryOff := Sub64(h.value.entry, base);
    if entryOff >= U32 {
      return Refused(EntryOutOfRange);
    }
    r := Flattened(Flat(base, entryOff, memLen, image.value));
  }

  // ----------------------------------------------------------- running values

  lemma {:induction false} BaseIsLeast(backed: seq<Segment>, i: nat)
    requires i < |backed|
    ensures Base(backed) <= backed[i].paddr
  {
    if i < |backed| - 1 { BaseIsLeast(Front(backed), i); }
  }

  lemma {:induction false} BaseIsTaken(backed: seq<Segment>) returns (i: nat)
    requires backed != []
    ensures i < |backed| && Base(backed) == backed[i].paddr
  {
    i := |backed| - 1;
    if Last(backed).paddr >= Base(Front(backed)) {
      if Front(backed) != [] {
        i := BaseIsTaken(Front(backed));
      }
    }
  }

  lemma {:induction false} TopIsGreatest(backed: seq<Segment>, i: nat)
    requires i < |backed|
    ensures (backed[i].paddr + |backed[i].file|) % U64 <= Top(backed)
  {
    if i < |backed| - 1 { TopIsGreatest(Front(backed), i); }
  }

  lemma {:induction false} MemTopIsGreatest(segs: seq<Segment>, i: nat)
    requires i < |segs|
    ensures Add64(segs[i].paddr, segs[i].memsz) <= MemTop(segs)
  {
    if i < |segs| - 1 { MemTopIsGreatest(Front(segs), i); }
  }

  lemma {:induction false} TopIsTaken(backed: seq<Segment>) returns (i: nat)
    requires Top(backed) > 0
    ensures i < |backed| && Top(backed) == (backed[i].paddr + |backed[i].file|) % U64
  {
    i := |backed| - 1;
    if Top(backed) == Top(Front(backed)) {
      i := TopIsTaken(Front(backed));
    }
  }

  lemma {:induction false} MemTopIsTaken(segs: seq<Segment>) returns (i: nat)
    requires MemTop(segs) > 0
    ensures i < |segs| && MemTop(segs) == Add64(segs[i].paddr, segs[i].memsz)
  {
    i := |segs| - 1;
    if MemTop(segs) == MemTop(Front(segs)) {
      i := MemTopIsTaken(Front(segs));
    }
  }

  /** Every backed segment is one of the segments, and the other way round. */
  lemma {:induction false} BackedFinds(segs: seq<Segment>, i: nat) returns (k: nat)
    requires i < |segs| && segs[i].file != []
    ensures k < |Backed(segs)| && Backed(segs)[k] == segs[i]
  {
    if i == |segs| - 1 {
      k := |Backed(segs)| - 1;
    } else {
      k := BackedFinds(Front(segs), i);
    }
  }

  // -------------------------------------------------------------- ELF's meaning

  predicate Covers(s: Segment, a: nat) { s.paddr <= a < s.paddr + s.memsz }

  /** What the ELF format demands of its loadable segments: no more file than memory,
      memory inside the address space, and no two segments on the same byte. */
  predicate WellFormed(segs: seq<Segment>) {
    && (forall i :: 0 <= i < |segs| ==> |segs[i].file| <= segs[i].memsz && segs[i].paddr + segs[i].memsz < U64)
    && (forall i, j :: 0 <= i < j < |segs| ==>
          segs[i].paddr + segs[i].memsz <= segs[j].paddr || segs[j].paddr + segs[j].memsz <= segs[i].paddr)
  }

  /** One segment loaded: its file bytes, then zeros. */
  function LoadOne(mem: seq<byte>, s: Segment): (m: seq<byte>)
    requires |s.file| <= s.memsz && s.paddr + s.memsz <= |mem|
    ensures |m| == |mem|
  {
    Write(mem, s.paddr, s.file + Zeros(s.memsz - |s.file|))
  }

  predicate Room(segs: seq<Segment>, n: nat) {
    forall i :: 0 <= i < |segs| ==> |segs[i].file| <= segs[i].memsz && segs[i].paddr + segs[i].memsz <= n
  }

  /** The reference: an ELF loader takes the segments one after the other. */
  function LoadAll(mem: seq<byte>, segs: seq<Segment>): (m: seq<byte>)
    requires Room(segs, |mem|)
    ensures |m| == |mem|
  {
    if segs == [] then mem
    else
      assert |Last(segs).file| <= Last(segs).memsz && Last(segs).paddr + Last(segs).memsz <= |mem|;
      LoadOne(LoadAll(mem, Front(segs)), Last(segs))
  }

  /** The byte a segment puts at one of its addresses. */
  function SegByte(s: Segment, a: nat): byte
    requires Covers(s, a)
  {
    if a - s.paddr < |s.file| then s.file[a - s.paddr] else 0
  }

  lemma LoadOneAt(mem: seq<byte>, s: Segment, a: nat)
    requires |s.file| <= s.memsz && s.paddr + s.memsz <= |mem| && a < |mem|
    ensures LoadOne(mem, s)[a] == if Covers(s, a) then SegByte(s, a) else mem[a]
  {
    hide Write;
    WriteAt(mem, s.paddr, s.file + Zeros(s.memsz - |s.file|), a);
  }

  lemma FrontWellFormed(segs: seq<Segment>)
    requires segs != [] && WellFormed(segs)
    ensures WellFormed(Front(segs))
    ensures forall i :: 0 <= i < |segs| - 1 ==> Front(segs)[i] == segs[i]
  {}

  lemma {:induction false} LoadedCovered(mem: seq<byte>, segs: seq<Segment>, i: nat, a: nat)
    requires Room(segs, |mem|) && WellFormed(segs) && i < |segs| && Covers(segs[i], a) && a < |mem|
    ensures LoadAll(mem, segs)[a] == SegByte(segs[i], a)
    decreases |segs|
  {
    hide LoadOne;
    FrontWellFormed(segs);
    var before := LoadAll(mem, Front(segs));
    assert Last(segs) == segs[|segs| - 1];
    LoadOneAt(before, Last(segs), a);
    if i < |segs| - 1 {
      LoadedCovered(mem, Front(segs), i, a);
    }
  }

  // ------------------------------------------------------- the painted image

  predicate InFile(s: Segment, a: nat) { s.paddr <= a < s.paddr + |s.file| }

  lemma PaintAt(backed: seq<Segment>, base: nat, size: nat, a: nat)
    requires forall i :: 0 <= i < |backed| ==> Fits(backed[i], base, size)
    requires backed != [] && a < size
    ensures var s := backed[|backed| - 1];
      Paint(backed, base, size)[a]
        == if InFile(s, base + a) then s.file[base + a - s.paddr] else Paint(Front(backed), base, size)[a]
  {
    hide Write;
    var s := backed[|backed| - 1];
    WriteAt(Paint(Front(backed), base, size), s.paddr - base, s.file, a);
  }

  lemma {:induction false} PaintedNothing(backed: seq<Segment>, base: nat, size: nat, a: nat)
    requires forall i :: 0 <= i < |backed| ==> Fits(backed[i], base, size)
    requires a < size
    requires forall i :: 0 <= i < |backed| ==> !InFile(backed[i], base + a)
    ensures Paint(backed, base, size)[a] == 0
    decreases |backed|
  {
    if backed != [] {
      hide Paint;
      PaintAt(backed, base, size, a);
      PaintedNothing(Front(backed), base, size, a);
    }
  }

  lemma {:induction false} PaintedFile(backed: seq<Segment>, base: nat, size: nat, k: nat, a: nat)
    requires forall i :: 0 <= i < |backed| ==> Fits(backed[i], base, size)
    requires WellFormed(backed) && k < |backed| && a < size && InFile(backed[k], base + a)
    ensures Paint(backed, base, size)[a] == backed[k].file[base + a - backed[k].paddr]
    decreases |backed|
  {
    hide Paint, Fits;
    FrontWellFormed(backed);
    PaintAt(backed, base, size, a);
    if k < |backed| - 1 {
      Apart(backed, k, |backed| - 1, base + a);
      PaintedFile(Front(backed), base, size, k, a);
    }
  }

  lemma Apart(segs: seq<Segment>, i: nat, j: nat, a: nat)
    requires WellFormed(segs) && i < |segs| && j < |segs| && i != j && InFile(segs[i], a)
    ensures !InFile(segs[j], a)
  {}

  lemma {:induction false} BackedWellFormed(segs: seq<Segment>)
    requires WellFormed(segs)
    ensures WellFormed(Backed(segs))
    decreases |segs|
  {
    if segs != [] {
      FrontWellFormed(segs);
      BackedWellFormed(Front(segs));
    }
  }

  lemma NoWrap(segs: seq<Segment>, i: nat)
    requires WellFormed(segs) && i < |segs|
    ensures (segs[i].paddr + |segs[i].file|) % U64 == segs[i].paddr + |segs[i].file|
    ensures Add64(segs[i].paddr, segs[i].memsz) == segs[i].paddr + segs[i].memsz
    ensures |segs[i].file| <= segs[i].memsz
  {}

  lemma FileBounds(backed: seq<Segment>)
    requires WellFormed(backed) && backed != [] && forall i :: 0 <= i < |backed| ==> backed[i].file != []
    ensures Base(backed) < Top(backed)
    ensures forall i :: 0 <= i < |backed| ==> Fits(backed[i], Base(backed), Top(backed) - Base(backed))
  {
    hide Base, Top, WellFormed;
    forall i | 0 <= i < |backed|
      ensures Base(backed) <= backed[i].paddr && backed[i].paddr + |backed[i].file| <= Top(backed)
    {
      BaseIsLeast(backed, i);
      TopIsGreatest(backed, i);
      NoWrap(backed, i);
    }
    assert backed[0].file != [];
  }

  /** For well-formed segments the running values are the real bounds, so nothing wraps
      and every copy stays inside the buffer. */
  lemma Bounds(segs: seq<Segment>)
    requires WellFormed(segs) && Backed(segs) != []
    ensures var b := Backed(segs); Base(b) < Top(b) <= MemTop(segs)
    ensures var b := Backed(segs); forall i :: 0 <= i < |b| ==> Fits(b[i], Base(b), Top(b) - Base(b))
  {
    hide Base, Top, MemTop, Backed, WellFormed, Fits, Add64;
    var b := Backed(segs);
    BackedWellFormed(segs);
    FileBounds(b);
    var t := TopIsTaken(b);
    assert b[t] in segs;
    var i :| 0 <= i < |segs| && segs[i] == b[t];
    MemTopIsGreatest(segs, i);
    NoWrap(segs, i);
  }

  /** Either no segment's file content runs past the top of the address space, or every
      segment's does, and the part that comes round stays below the base. */
  predicate Contained(backed: seq<Segment>) {
    || (forall i :: 0 <= i < |backed| ==> FileEnd(backed[i]) < U64)
    || (forall i :: 0 <= i < |backed| ==> U64 <= FileEnd(backed[i]) < U64 + Base(backed))
  }

  function FileEnd(s: Segment): nat { s.paddr + |s.file| }

  lemma WrapCases(n: nat)
    requires n < 2 * U64
    ensures n % U64 == if n < U64 then n else n - U64
  {}

  lemma SubCases(a: u64, b: u64)
    ensures Sub64(a, b) == if a >= b then a - b else a - b + U64
  {}

  /** Nothing wraps: the top is the highest end. */
  lemma NoneWraps(backed: seq<Segment>, i: nat)
    requires i < |backed| && FileEnd(backed[i]) < U64
    ensures Base(backed) <= backed[i].paddr && FileEnd(backed[i]) <= Top(backed)
  {
    hide Base, Top;
    BaseIsLeast(backed, i);
    TopIsGreatest(backed, i);
    WrapCases(FileEnd(backed[i]));
  }

  /** Everything wraps, and comes round below the base: so does the top. */
  lemma AllWrap(backed: seq<Segment>, i: nat)
    requires i < |backed| && forall k :: 0 <= k < |backed| ==> U64 <= FileEnd(backed[k]) < U64 + Base(backed)
    ensures Base(backed) <= backed[i].paddr && FileEnd(backed[i]) - U64 <= Top(backed) < Base(backed)
  {
    hide Base, Top;
    BaseIsLeast(backed, i);
    TopIsGreatest(backed, i);
    WrapCases(FileEnd(backed[i]));
    if Top(backed) > 0 {
      var t := TopIsTaken(backed);
      WrapCases(FileEnd(backed[t]));
    }
  }

  lemma ContainedFits(backed: seq<Segment>, i: nat)
    requires i < |backed| && Contained(backed) && backed[i].file != []
    ensures Fits(backed[i], Base(backed), Sub64(Top(backed), Base(backed)))
  {
    hide Base, Top, Sub64;
    SubCases(Top(backed), Base(backed));
    if FileEnd(backed[i]) < U64 {
      NoneWraps(backed, i);
    } else {
      AllWrap(backed, i);
    }
  }

  lemma FitsContained(backed: seq<Segment>)
    requires backed != [] && forall i :: 0 <= i < |backed| ==> backed[i].file != []
    requires forall i :: 0 <= i < |backed| ==> Fits(backed[i], Base(backed), Sub64(Top(backed), Base(backed)))
    ensures Contained(backed)
  {
    hide Base, Top, Sub64;
    var base, top := Base(backed), Top(backed);
    SubCases(top, base);
    forall i | 0 <= i < |backed|
      ensures if top >= base then FileEnd(backed[i]) < U64 else U64 <= FileEnd(backed[i]) < U64 + base
    {
      assert Fits(backed[i], base, Sub64(top, base));
      TopIsGreatest(backed, i);
      BaseIsLeast(backed, i);
      WrapCases(FileEnd(backed[i]));
      assert backed[i].file != [];
    }
  }

  /** Flattening crashes, on any segments whatever, exactly when there is file content and
      either the allocation fails or the content is not contained. Overlapping segments,
      and segments with more file than memory, never crash it. */
  lemma CrashIff(entry: u64, segs: seq<Segment>, heap: nat)
    ensures var b := Backed(segs);
      Arrange(entry, segs, heap).Crashed? <==>
        b != [] && (Sub64(Top(b), Base(b)) > heap || !Contained(b))
  {
    hide Base, Top, MemTop, Backed, Paint, Fits, Contained, Sub64;
    var b := Backed(segs);
    if b != [] {
      if Contained(b) {
        forall i | 0 <= i < |b| ensures Fits(b[i], Base(b), Sub64(Top(b), Base(b))) {
          ContainedFits(b, i);
        }
      } else if forall i :: 0 <= i < |b| ==> Fits(b[i], Base(b), Sub64(Top(b), Base(b))) {
        FitsContained(b);
      }
    }
  }

  /** Well-formed segments are contained, so they crash only for want of memory. */
  lemma WellFormedIsContained(segs: seq<Segment>)
    requires WellFormed(segs)
    ensures Contained(Backed(segs))
  {
    hide Backed, WellFormed, Base;
    BackedWellFormed(segs);
    var b := Backed(segs);
    forall i | 0 <= i < |b| ensures FileEnd(b[i]) < U64 {
      WellFormedEnd(b, i);
    }
  }

  lemma WellFormedEnd(segs: seq<Segment>, i: nat)
    requires WellFormed(segs) && i < |segs|
    ensures FileEnd(segs[i]) < U64
  {}

  lemma Arranged(entry: u64, segs: seq<Segment>, heap: nat, f: Flat)
    requires Arrange(entry, segs, heap) == Flattened(f)
    ensures var b := Backed(segs);
      && b != [] && f.base == Base(b) && |f.bytes| == Sub64(Top(b), Base(b)) && f.memLen == Sub64(MemTop(segs), Base(b))
      && (forall i :: 0 <= i < |b| ==> Fits(b[i], f.base, |f.bytes|))
      && f.bytes == Paint(b, f.base, |f.bytes|)
      && f.entryOff == Sub64(entry, f.base)
  {
    hide Base, Top, MemTop, Backed, Sub64, Fits;
  }

  // -------------------------------------------------------- image and footprint

  /** Where a segment's memory ends, as the code computes it. */
  function MemEnd(s: Segment): u64 { Add64(s.paddr, s.memsz) }

  /** Some segment's memory ends at `end` or higher. */
  predicate Reached(segs: seq<Segment>, end: nat) {
    exists j :: 0 <= j < |segs| && end <= MemEnd(segs[j])
  }

  /** Every end of file content, as the code computes it, is reached by memory. */
  predicate AllReached(segs: seq<Segment>, backed: seq<Segment>) {
    forall i :: 0 <= i < |backed| ==> Reached(segs, FileEnd(backed[i]) % U64)
  }

  /** Every segment's memory, as the code computes its end, ends below all file content:
      it has come round. */
  predicate AllRound(segs: seq<Segment>, backed: seq<Segment>) {
    forall i, j :: 0 <= i < |backed| && 0 <= j < |segs| ==> MemEnd(segs[j]) < backed[i].paddr
  }

  lemma MemTopBelow(segs: seq<Segment>, n: nat)
    requires segs != []
    ensures MemTop(segs) < n <==> forall j :: 0 <= j < |segs| ==> MemEnd(segs[j]) < n
  {
    hide MemTop, Add64;
    if MemTop(segs) < n {
      forall j | 0 <= j < |segs| ensures MemEnd(segs[j]) < n {
        MemTopIsGreatest(segs, j);
      }
    } else {
      MemTopIsGreatest(segs, 0);
      if MemTop(segs) > 0 {
        var j := MemTopIsTaken(segs);
      }
    }
  }

  lemma ReachedIff(segs: seq<Segment>, end: nat)
    requires segs != []
    ensures Reached(segs, end) <==> end <= MemTop(segs)
  {
    hide MemTop, MemEnd;
    MemTopBelow(segs, end);
  }

  /** On any segments, the running memory top is no lower than the running top exactly
      when every end of file content is reached by memory. */
  lemma TopIff(segs: seq<Segment>)
    ensures Top(Backed(segs)) <= MemTop(segs) <==> AllReached(segs, Backed(segs))
  {
    hide Top, MemTop, Backed, Reached;
    var b := Backed(segs);
    if b == [] {
      TopOfNone();
    } else {
      assert b[0] in segs;
      forall i | 0 <= i < |b| ensures FileEnd(b[i]) % U64 <= Top(b) {
        TopIsGreatest(b, i);
      }
      if Top(b) > 0 {
        var t := TopIsTaken(b);
        ReachedIff(segs, FileEnd(b[t]) % U64);
      }
      forall i | 0 <= i < |b| && Top(b) <= MemTop(segs) ensures Reached(segs, FileEnd(b[i]) % U64) {
        ReachedIff(segs, FileEnd(b[i]) % U64);
      }
    }
  }

  lemma TopOfNone()
    ensures Top([]) == 0
  {}

  lemma RoundIff(segs: seq<Segment>)
    requires Backed(segs) != []
    ensures MemTop(segs) < Base(Backed(segs)) <==> AllRound(segs, Backed(segs))
  {
    hide Base, MemTop, Backed, MemEnd;
    var b := Backed(segs);
    assert b[0] in segs;
    MemTopBelow(segs, Base(b));
    if MemTop(segs) < Base(b) {
      forall i, j | 0 <= i < |b| && 0 <= j < |segs| ensures MemEnd(segs[j]) < b[i].paddr {
        BaseIsLeast(b, i);
      }
    } else {
      var t := BaseIsTaken(b);
    }
  }

  /** Some file content runs past the top of the address space. */
  predicate Overruns(backed: seq<Segment>) {
    exists i :: 0 <= i < |backed| && FileEnd(backed[i]) >= U64
  }

  lemma TopSide(backed: seq<Segment>)
    requires backed != [] && Contained(backed) && forall i :: 0 <= i < |backed| ==> backed[i].file != []
    ensures Base(backed) <= Top(backed) <==> !Overruns(backed)
  {
    hide Base, Top;
    assert backed[0].file != [];
    if Overruns(backed) {
      AllWrap(backed, 0);
    } else {
      NoneWraps(backed, 0);
    }
  }

  /** When a footprint is no smaller than its image. On any segments that flatten at all:
      if the content stays inside the address space, exactly when memory reaches every end
      of it or comes round below it; and if it comes round, exactly when memory does both. */
  lemma FootprintIff(entry: u64, segs: seq<Segment>, heap: nat, f: Flat)
    requires Arrange(entry, segs, heap) == Flattened(f)
    ensures var b := Backed(segs);
      |f.bytes| <= f.memLen <==>
        if Overruns(b) then AllReached(segs, b) && AllRound(segs, b)
        else AllReached(segs, b) || AllRound(segs, b)
  {
    hide Base, Top, MemTop, Backed, Contained, Overruns, AllReached, AllRound, Arrange, Paint, Fits, Sub64;
    var b := Backed(segs);
    Arranged(entry, segs, heap, f);
    CrashIff(entry, segs, heap);
    TopSide(b);
    TopIff(segs);
    RoundIff(segs);
    SubCases(Top(b), Base(b));
    SubCases(MemTop(segs), Base(b));
  }

  /** No segment's memory or content runs past the top of the address space. */
  predicate InSpace(segs: seq<Segment>) {
    forall i :: 0 <= i < |segs| ==> segs[i].paddr + segs[i].memsz < U64 && FileEnd(segs[i]) < U64
  }

  predicate EndsWithin(segs: seq<Segment>, end: nat) {
    exists j :: 0 <= j < |segs| && end <= segs[j].paddr + segs[j].memsz
  }

  lemma PlainReached(segs: seq<Segment>, s: Segment)
    requires InSpace(segs) && s in segs
    ensures Reached(segs, FileEnd(s) % U64) <==> EndsWithin(segs, FileEnd(s))
    ensures MemEnd(s) >= s.paddr && FileEnd(s) < U64
  {
    assert forall j :: 0 <= j < |segs| ==> MemEnd(segs[j]) == segs[j].paddr + segs[j].memsz;
  }

  /** Away from the top of the address space: exactly when every backed segment's content
      ends no higher than some segment's memory. */
  lemma PlainFootprintIff(entry: u64, segs: seq<Segment>, heap: nat, f: Flat)
    requires Arrange(entry, segs, heap) == Flattened(f) && InSpace(segs)
    ensures |f.bytes| <= f.memLen <==>
      forall i :: 0 <= i < |segs| && segs[i].file != [] ==> EndsWithin(segs, FileEnd(segs[i]))
  {
    hide Arrange, Backed, InSpace, Reached, EndsWithin, MemEnd, Base, Top, MemTop, Sub64, Paint, Fits;
    var b := Backed(segs);
    FootprintIff(entry, segs, heap, f);
    Arranged(entry, segs, heap, f);
    forall i | 0 <= i < |b|
      ensures FileEnd(b[i]) < U64 && MemEnd(b[i]) >= b[i].paddr
      ensures Reached(segs, FileEnd(b[i]) % U64) <==> EndsWithin(segs, FileEnd(b[i]))
    {
      PlainReached(segs, b[i]);
    }
    assert b[0] in segs && !AllRound(segs, b);
    if AllReached(segs, b) {
      forall i | 0 <= i < |segs| && segs[i].file != [] ensures EndsWithin(segs, FileEnd(segs[i])) {
        var n := BackedFinds(segs, i);
      }
    }
  }

  /** What a successful flattening of well-formed segments consists of. */
  lemma FlatShape(entry: u64, segs: seq<Segment>, heap: nat, f: Flat)
    requires WellFormed(segs) && Arrange(entry, segs, heap) == Flattened(f)
    ensures var b := Backed(segs);
      && b != [] && f.base == Base(b) && f.base + |f.bytes| == Top(b) && f.base + f.memLen == MemTop(segs)
      && (forall i :: 0 <= i < |b| ==> Fits(b[i], f.base, |f.bytes|))
      && f.bytes == Paint(b, f.base, |f.bytes|)
      && 0 < |f.bytes| <= f.memLen
      && (f.base + f.entryOff) % U64 == entry
  {
    hide Base, Top, MemTop, Backed, Arrange, WellFormed, Paint;
    Arranged(entry, segs, heap, f);
    Bounds(segs);
  }

  /** The file bytes are at the image's front, the zeros behind them. */
  ghost predicate Placed(m: seq<byte>, f: Flat) {
    && |f.bytes| <= f.memLen
    && f.base + f.memLen <= |m|
    && m[f.base..f.base + |f.bytes|] == f.bytes
    && forall a :: f.base + |f.bytes| <= a < f.base + f.memLen ==> m[a] == 0
  }

  lemma ImageByte(segs: seq<Segment>, f: Flat, i: nat, a: nat)
    requires WellFormed(segs) && i < |segs| && Covers(segs[i], a)
    requires var b := Backed(segs);
      && (forall k :: 0 <= k < |b| ==> Fits(b[k], f.base, |f.bytes|))
      && f.bytes == Paint(b, f.base, |f.bytes|)
    requires f.base <= a < f.base + |f.bytes|
    ensures f.bytes[a - f.base] == SegByte(segs[i], a)
  {
    hide Backed, Paint, Base, Top;
    var b := Backed(segs);
    BackedWellFormed(segs);
    if a - segs[i].paddr < |segs[i].file| {
      var k := BackedFinds(segs, i);
      PaintedFile(b, f.base, |f.bytes|, k, a - f.base);
    } else {
      forall k | 0 <= k < |b| ensures !InFile(b[k], a) {
        assert b[k] in segs;
        var j :| 0 <= j < |segs| && segs[j] == b[k];
      }
      PaintedNothing(b, f.base, |f.bytes|, a - f.base);
    }
  }

  /** Flattening preserves meaning. Wherever the image has been put in place and its
      tail cleared, every address of every segment from the image's base up holds what
      loading the ELF file segment by segment would have left there. */
  lemma MeaningPreserved(
    entry: u64, segs: seq<Segment>, heap: nat, f: Flat, m: seq<byte>, mem: seq<byte>, i: nat, a: nat)
    requires WellFormed(segs) && Arrange(entry, segs, heap) == Flattened(f)
    requires Placed(m, f) && Room(segs, |mem|)
    requires i < |segs| && Covers(segs[i], a) && f.base <= a
    ensures a < f.base + f.memLen && a < |mem|
    ensures m[a] == LoadAll(mem, segs)[a] == SegByte(segs[i], a)
  {
    hide Backed, Paint, Base, Top, MemTop, LoadAll, Arrange, Fits;
    FlatShape(entry, segs, heap, f);
    MemTopIsGreatest(segs, i);
    LoadedCovered(mem, segs, i, a);
    if a < f.base + |f.bytes| {
      ImageByte(segs, f, i, a);
    } else {
      TailByte(segs, i, a, f.base + |f.bytes|);
    }
  }

  lemma TailByte(segs: seq<Segment>, i: nat, a: nat, top: nat)
    requires WellFormed(segs) && i < |segs| && Covers(segs[i], a)
    requires Top(Backed(segs)) == top <= a
    ensures SegByte(segs[i], a) == 0
  {
    hide Backed, Top, WellFormed;
    if a - segs[i].paddr < |segs[i].file| {
      var k := BackedFinds(segs, i);
      TopIsGreatest(Backed(segs), k);
      NoWrap(segs, i);
      assert false;
    }
  }

  /** The loader's writes for this image, on any memory. */
  function Install(mem: seq<byte>, f: Flat): (m: seq<byte>)
    requires |f.bytes| <= f.memLen && f.base + f.memLen <= |mem|
    ensures |m| == |mem| && Placed(m, f)
  {
    var w := Write(mem, f.base, f.bytes);
    var m := Zeroed(w, f.base + |f.bytes|, f.base + f.memLen);
    assert m[f.base..f.base + |f.bytes|] == w[f.base..f.base + |f.bytes|] == f.bytes;
    m
  }

  lemma InstallOutside(mem: seq<byte>, f: Flat, a: nat)
    requires |f.bytes| <= f.memLen && f.base + f.memLen <= |mem|
    requires a < f.base
    ensures Install(mem, f)[a] == mem[a]
  {
    hide Write;
    WriteAt(mem, f.base, f.bytes, a);
    var w := Write(mem, f.base, f.bytes);
    WriteAt(w, f.base + |f.bytes|, Zeros(f.memLen - |f.bytes|), a);
  }

  /** Memory agrees with the ELF on every segment, whatever was there before. */
  ghost predicate Faithful(segs: seq<Segment>, f: Flat)
    requires |f.bytes| <= f.memLen
  {
    forall mem: seq<byte>, i: nat, a: nat ::
      Room(segs, |mem|) && f.base + f.memLen <= |mem| && i < |segs| && Covers(segs[i], a) && a < |mem| ==>
        Install(mem, f)[a] == LoadAll(mem, segs)[a]
  }

  /** The exact condition: flattening is faithful if and only if no segment begins below
      the lowest file-backed one. Such a segment is pure BSS, and is never cleared. */
  lemma FaithfulIff(entry: u64, segs: seq<Segment>, heap: nat, f: Flat)
    requires WellFormed(segs) && Arrange(entry, segs, heap) == Flattened(f)
    requires forall i :: 0 <= i < |segs| ==> segs[i].memsz > 0
    ensures |f.bytes| <= f.memLen
    ensures Faithful(segs, f) <==> forall i :: 0 <= i < |segs| ==> segs[i].paddr >= f.base
  {
    hide LoadAll, Install, Room, WellFormed, Arrange;
    FlatShape(entry, segs, heap, f);
    if forall i :: 0 <= i < |segs| ==> segs[i].paddr >= f.base {
      forall mem: seq<byte>, i: nat, a: nat
        | Room(segs, |mem|) && f.base + f.memLen <= |mem| && i < |segs| && Covers(segs[i], a) && a < |mem|
        ensures Install(mem, f)[a] == LoadAll(mem, segs)[a]
      {
        MeaningPreserved(entry, segs, heap, f, Install(mem, f), mem, i, a);
      }
    } else {
      var i: nat :| i < |segs| && segs[i].paddr < f.base;
      var mem := BelowBase(entry, segs, heap, f, i);
      assert Install(mem, f)[segs[i].paddr] != LoadAll(mem, segs)[segs[i].paddr];
    }
  }

  lemma BelowBase(entry: u64, segs: seq<Segment>, heap: nat, f: Flat, i: nat) returns (mem: seq<byte>)
    requires WellFormed(segs) && Arrange(entry, segs, heap) == Flattened(f) && |f.bytes| <= f.memLen
    requires i < |segs| && segs[i].memsz > 0 && segs[i].paddr < f.base
    ensures Room(segs, |mem|) && f.base + f.memLen <= |mem| && Covers(segs[i], segs[i].paddr) && segs[i].paddr < |mem|
    ensures Install(mem, f)[segs[i].paddr] != LoadAll(mem, segs)[segs[i].paddr]
  {
    hide Backed, Paint, Base, Top, MemTop, LoadAll, Arrange, Fits, Install;
    FlatShape(entry, segs, heap, f);
    var ones: seq<byte> := seq(2 * U64, _ => 1);
    mem := ones;
    InstallOutside(mem, f, segs[i].paddr);
    LoadedCovered(mem, segs, i, segs[i].paddr);
    if segs[i].file != [] {
      var k := BackedFinds(segs, i);
      BaseIsLeast(Backed(segs), k);
    }
  }
}
