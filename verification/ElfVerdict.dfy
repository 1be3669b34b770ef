/** Every verdict of flattening, field by field and bound by bound: what the reader takes
    for a header, an entry and a segment, when a file is refused and why, and when it is
    not. */
module ElfVerdict {
  import opened Bytes
  import opened Outcomes
  import opened Elf
  import opened Layout

  // ------------------------------------------------------------------ the headers

  /** The file header: a 64-bit little-endian file of at least 58 bytes, its entry at 24,
      its program headers at 32, their size at 54 and their number at 56. */
  lemma HeaderVerdict(data: seq<byte>)
    ensures var r := ReadHeader(data);
      if |data| < 6 || data[4] != 2 || data[5] != 1 then r == Err(NotElf64Le)
      else if |data| < 58 then r == Err(TruncatedElf)
      else
        && r.Ok?
        && LeAt(data, 24, r.value.entry, 8) && LeAt(data, 32, r.value.phoff, 8)
        && LeAt(data, 54, r.value.phentsize, 2) && LeAt(data, 56, r.value.phnum, 2)
  {
    hide LeAt, FromLe;
    if |data| >= 58 {
      Taken(data, 24, 8);
      Taken(data, 32, 8);
      Taken(data, 54, 2);
      Taken(data, 56, 2);
    }
  }

  /** The five fields of a program header that count. */
  datatype Fields = Fields(ty: nat, offset: nat, paddr: nat, filesz: nat, memsz: nat)

  ghost predicate FieldsAt(data: seq<byte>, ph: nat, f: Fields) {
    && LeAt(data, ph, f.ty, 4) && LeAt(data, ph + 8, f.offset, 8) && LeAt(data, ph + 24, f.paddr, 8)
    && LeAt(data, ph + 32, f.filesz, 8) && LeAt(data, ph + 40, f.memsz, 8)
  }

  /** No slice in memory is longer than half the address space. */
  predicate Possible(data: seq<byte>) { |data| < 0x8000_0000_0000_0000 }

  lemma Read32At(data: seq<byte>, off: u64, n: nat)
    requires LeAt(data, off, n, 4)
    ensures off + 4 <= |data| && Read32(data, off) == Ok(n)
  {
    hide LeAt, FromLe;
    Fit(data, off, n, 4);
    Taken(data, off, 4);
    OneValue(data, off, n, FromLe(data[off..off + 4]), 4);
  }

  lemma Read64At(data: seq<byte>, off: u64, n: nat)
    requires LeAt(data, off, n, 8)
    ensures off + 8 <= |data| && n < U64 && Read64(data, off) == Ok(n)
  {
    hide LeAt, FromLe;
    Fit(data, off, n, 8);
    Spans();
    Taken(data, off, 8);
    OneValue(data, off, n, FromLe(data[off..off + 8]), 8);
  }

  lemma Fit(s: seq<byte>, off: nat, n: nat, k: nat)
    requires LeAt(s, off, n, k)
    ensures off + k <= |s| && n < Span(k)
  {}

  /** An entry cut off by the end of the file: only its type may still be told, and an
      entry that does not load need not be complete. */
  lemma CutEntry(data: seq<byte>, ph: u64, ty: nat)
    requires Possible(data) && ph + 48 > |data|
    requires ph + 4 <= |data| ==> LeAt(data, ph, ty, 4)
    ensures ReadEntry(data, ph) == if ph + 4 <= |data| && ty != 1 then Ok(None) else Err(TruncatedElf)
  {
    hide LeAt, FromLe;
    if ph + 4 <= |data| {
      Read32At(data, ph, ty);
    }
  }

  /** A complete entry: nothing unless it is loadable and takes memory; its address, its
      size in memory, and the content its offset and size in the file say, if the file is
      that long. */
  lemma EntryVerdict(data: seq<byte>, ph: u64, f: Fields)
    requires Possible(data) && ph + 48 <= |data| && FieldsAt(data, ph, f)
    ensures var r := ReadEntry(data, ph);
      if f.ty != 1 || f.memsz == 0 then r == Ok(None)
      else if f.offset + f.filesz > |data| && f.filesz > 0 then r == Err(PastEndOfFile)
      else
        && r.Ok? && r.value.Some?
        && var s := r.value.value;
          s.paddr == f.paddr && s.memsz == f.memsz
          && s.file == if f.filesz == 0 then [] else data[f.offset..f.offset + f.filesz]
  {
    hide LeAt, Read32, Read64;
    Read32At(data, ph, f.ty);
    Read64At(data, ph + 8, f.offset);
    Read64At(data, ph + 24, f.paddr);
    Read64At(data, ph + 32, f.filesz);
    Read64At(data, ph + 40, f.memsz);
  }

  /** Every complete entry has fields. */
  lemma HasFields(data: seq<byte>, ph: nat) returns (f: Fields)
    requires ph + 48 <= |data|
    ensures FieldsAt(data, ph, f)
  {
    hide LeAt, FromLe;
    Taken(data, ph, 4);
    Taken(data, ph + 8, 8);
    Taken(data, ph + 24, 8);
    Taken(data, ph + 32, 8);
    Taken(data, ph + 40, 8);
    f := Fields(
      FromLe(data[ph..ph + 4]), FromLe(data[ph + 8..ph + 16]), FromLe(data[ph + 24..ph + 32]),
      FromLe(data[ph + 32..ph + 40]), FromLe(data[ph + 40..ph + 48]));
  }

  // --------------------------------------------------------------- the header table

  /** What the entry numbered `i` gives, at the file's own spacing. */
  function EntryOf(data: seq<byte>, h: ElfHeader, i: nat): Result<Option<Segment>, ElfError> {
    ReadEntry(data, (h.phoff + i * h.phentsize) % U64)
  }

  /** `segs` are the segments of the entries numbered `from`, in order, and no other entry
      below `n` gives one. */
  ghost predicate Collects(data: seq<byte>, h: ElfHeader, n: nat, segs: seq<Segment>, from: seq<nat>) {
    && |from| == |segs|
    && (forall k :: 0 <= k < |from| ==> from[k] < n && EntryOf(data, h, from[k]) == Ok(Some(segs[k])))
    && (forall j, k :: 0 <= j < k < |from| ==> from[j] < from[k])
    && (forall i :: 0 <= i < n ==> EntryOf(data, h, i).Ok? && (EntryOf(data, h, i).value.Some? ==> i in from))
  }

  /** Entry `i` is the first that cannot be read. */
  ghost predicate FirstBad(data: seq<byte>, h: ElfHeader, n: nat, i: nat, e: ElfError) {
    i < n && EntryOf(data, h, i) == Err(e) && forall j :: 0 <= j < i ==> EntryOf(data, h, j).Ok?
  }

  /** The first entry that cannot be read decides; otherwise all are collected. */
  lemma {:induction false} TableVerdict(data: seq<byte>, h: ElfHeader, n: nat) returns (from: seq<nat>)
    ensures Segments(data, h, n).Ok? ==> Collects(data, h, n, Segments(data, h, n).value, from)
    ensures Segments(data, h, n).Err? ==> exists i :: FirstBad(data, h, n, i, Segments(data, h, n).error)
    decreases n
  {
    hide ReadEntry;
    from := [];
    if n > 0 {
      from := TableVerdict(data, h, n - 1);
      if Segments(data, h, n - 1).Err? {
        var i :| FirstBad(data, h, n - 1, i, Segments(data, h, n - 1).error);
        assert FirstBad(data, h, n, i, Segments(data, h, n).error);
      } else if EntryOf(data, h, n - 1).Err? {
        NoneBad(data, h, n - 1, from);
        assert FirstBad(data, h, n, n - 1, EntryOf(data, h, n - 1).error);
      }
      var before, entry := Segments(data, h, n - 1), EntryOf(data, h, n - 1);
      assert EntryAt(h, n - 1) == (h.phoff + (n - 1) * h.phentsize) % U64;
      if before.Ok? && entry.Ok? && entry.value.Some? {
        from := from + [n - 1];
      }
    }
  }

  lemma NoneBad(data: seq<byte>, h: ElfHeader, n: nat, from: seq<nat>)
    requires Segments(data, h, n).Ok? && Collects(data, h, n, Segments(data, h, n).value, from)
    ensures forall j :: 0 <= j < n ==> EntryOf(data, h, j).Ok?
  {}

  // ------------------------------------------------------------------- the bounds

  /** The lowest address of a segment with content. */
  ghost predicate IsBase(segs: seq<Segment>, base: nat) {
    && (exists i :: 0 <= i < |segs| && segs[i].file != [] && segs[i].paddr == base)
    && forall i :: 0 <= i < |segs| && segs[i].file != [] ==> base <= segs[i].paddr
  }

  /** The highest end of content, and of memory, as the code computes ends. */
  ghost predicate IsTop(segs: seq<Segment>, top: nat) {
    && (exists i :: 0 <= i < |segs| && segs[i].file != [] && FileEnd(segs[i]) % U64 == top)
    && forall i :: 0 <= i < |segs| && segs[i].file != [] ==> FileEnd(segs[i]) % U64 <= top
  }

  ghost predicate IsMemTop(segs: seq<Segment>, top: nat) {
    && (exists i :: 0 <= i < |segs| && MemEnd(segs[i]) == top)
    && forall i :: 0 <= i < |segs| ==> MemEnd(segs[i]) <= top
  }

  predicate HasContent(segs: seq<Segment>) {
    exists i :: 0 <= i < |segs| && segs[i].file != []
  }

  lemma ContentIff(segs: seq<Segment>)
    ensures HasContent(segs) <==> Backed(segs) != []
  {
    hide Backed, HasContent;
    if Backed(segs) != [] {
      BackedHasContent(segs);
    }
    if HasContent(segs) {
      ContentIsBacked(segs);
    }
  }

  lemma BackedHasContent(segs: seq<Segment>)
    requires Backed(segs) != []
    ensures HasContent(segs)
  {
    hide Backed;
    assert Backed(segs)[0] in segs;
  }

  lemma ContentIsBacked(segs: seq<Segment>)
    requires HasContent(segs)
    ensures Backed(segs) != []
  {
    hide Backed;
    var i :| 0 <= i < |segs| && segs[i].file != [];
    var k := BackedFinds(segs, i);
  }

  lemma BoundsAre(segs: seq<Segment>)
    requires Backed(segs) != []
    ensures IsBase(segs, Base(Backed(segs))) && IsTop(segs, Top(Backed(segs))) && IsMemTop(segs, MemTop(segs))
  {
    hide Backed, Base, Top, MemTop, Add64;
    var b := Backed(segs);
    forall i | 0 <= i < |segs| && segs[i].file != []
      ensures Base(b) <= segs[i].paddr && FileEnd(segs[i]) % U64 <= Top(b)
    {
      var k := BackedFinds(segs, i);
      BaseIsLeast(b, k);
      TopIsGreatest(b, k);
    }
    forall i | 0 <= i < |segs| ensures MemEnd(segs[i]) <= MemTop(segs) { MemTopIsGreatest(segs, i); }
    var k := BaseIsTaken(b);
    assert b[k] in segs;
    assert b[0] in segs;
    if Top(b) > 0 {
      var t := TopIsTaken(b);
      assert b[t] in segs;
    }
    if MemTop(segs) > 0 {
      var t := MemTopIsTaken(segs);
    }
  }

  lemma OneBase(segs: seq<Segment>, a: nat, b: nat)
    requires IsBase(segs, a) && IsBase(segs, b)
    ensures a == b
  {}

  lemma OneTop(segs: seq<Segment>, a: nat, b: nat)
    ensures IsTop(segs, a) && IsTop(segs, b) ==> a == b
    ensures IsMemTop(segs, a) && IsMemTop(segs, b) ==> a == b
  {}

  // ------------------------------------------------------------------ the verdict

  /** `a - b` in 64 bits. */
  function Apart(a: nat, b: nat): nat
    requires a < U64 && b < U64
  {
    if a >= b then a - b else a + U64 - b
  }

  lemma ApartIs(a: u64, b: u64)
    ensures Sub64(a, b) == Apart(a, b)
  {
    SubCases(a, b);
  }

  /** Every outcome, on any segments, from the lowest address with content, the highest end
      of content and the highest end of memory. Without content there is nothing to load.
      Content that cannot be allocated or is not contained crashes. Then a footprint of
      4 GiB or more is too large, an entry 4 GiB or more above the base is out of range,
      and anything else is flattened, with those very numbers. */
  lemma FlattenVerdict(entry: u64, segs: seq<Segment>, heap: nat, base: u64, top: u64, memTop: u64)
    requires HasContent(segs) ==> IsBase(segs, base) && IsTop(segs, top) && IsMemTop(segs, memTop)
    ensures var r := Arrange(entry, segs, heap);
      if !HasContent(segs) then r == Refused(NoLoadableData)
      else if Apart(top, base) > heap || !Contained(Backed(segs)) then r == Crashed
      else if Apart(memTop, base) >= 0x1_0000_0000 then r == Refused(ElfError.ImageTooLarge)
      else if Apart(entry, base) >= 0x1_0000_0000 then r == Refused(EntryOutOfRange)
      else
        && r.Flattened?
        && r.flat.base == base && r.flat.entryOff == Apart(entry, base) && r.flat.memLen == Apart(memTop, base)
        && |r.flat.bytes| == Apart(top, base)
  {
    hide Base, Top, MemTop, Backed, Paint, Contained, Sub64, Fits, IsBase, IsTop, IsMemTop, HasContent;
    ContentIff(segs);
    if HasContent(segs) {
      BoundsAre(segs);
      OneBase(segs, base, Base(Backed(segs)));
      OneTop(segs, top, Top(Backed(segs)));
      OneTop(segs, memTop, MemTop(segs));
      ApartIs(top, base);
      ApartIs(memTop, base);
      ApartIs(entry, base);
      CrashIff(entry, segs, heap);
    }
  }

  /** For well-formed segments nothing wraps but the entry: they are flattened exactly when
      there is content, it can be allocated, the footprint is below 4 GiB, and the entry is
      from the base up and less than 4 GiB above it. */
  lemma WellFormedVerdict(entry: u64, segs: seq<Segment>, heap: nat, base: u64, top: u64, memTop: u64)
    requires WellFormed(segs) && HasContent(segs)
    requires IsBase(segs, base) && IsTop(segs, top) && IsMemTop(segs, memTop)
    ensures base < top <= memTop
    ensures var r := Arrange(entry, segs, heap);
      && (r.Flattened? <==>
            && top - base <= heap && memTop - base < 0x1_0000_0000
            && (base <= entry < base + 0x1_0000_0000 || entry + U64 < base + 0x1_0000_0000))
      && (r == Crashed <==> top - base > heap)
      && (r == Refused(ElfError.ImageTooLarge) <==> top - base <= heap && memTop - base >= 0x1_0000_0000)
  {
    hide Base, Top, MemTop, Backed, Paint, Contained, Sub64, Fits, IsBase, IsTop, IsMemTop, HasContent;
    hide WellFormed, Arrange;
    ContentIff(segs);
    WellFormedIsContained(segs);
    Bounds(segs);
    BoundsAre(segs);
    OneBase(segs, base, Base(Backed(segs)));
    OneTop(segs, top, Top(Backed(segs)));
    OneTop(segs, memTop, MemTop(segs));
    FlattenVerdict(entry, segs, heap, base, top, memTop);
  }

  /** Segment `k` is the last whose content covers the address. */
  predicate LastOver(backed: seq<Segment>, k: nat, a: nat) {
    k < |backed| && InFile(backed[k], a) && forall j :: k < j < |backed| ==> !InFile(backed[j], a)
  }

  /** Where contents overlap the later segment wins. */
  lemma {:induction false} LaterWins(backed: seq<Segment>, base: nat, size: nat, a: nat, k: nat)
    requires forall i :: 0 <= i < |backed| ==> Elf.Fits(backed[i], base, size)
    requires a < size && LastOver(backed, k, base + a)
    ensures Paint(backed, base, size)[a] == backed[k].file[base + a - backed[k].paddr]
    decreases |backed|
  {
    hide Paint;
    PaintAt(backed, base, size, a);
    if k < |backed| - 1 {
      LaterWins(Front(backed), base, size, a, k);
    }
  }

  /** The verdict on a file: a wrong class or byte order first, then a missing header, then
      the first program header that cannot be read; otherwise the segments are those of the
      loadable entries in order, and the verdict is theirs. */
  lemma FileVerdict(data: seq<byte>, heap: nat) returns (h: ElfHeader, segs: seq<Segment>, from: seq<nat>)
    ensures var r := Flatten(data, heap);
      if |data| < 6 || data[4] != 2 || data[5] != 1 then r == Refused(NotElf64Le)
      else if |data| < 58 then r == Refused(TruncatedElf)
      else
        && LeAt(data, 24, h.entry, 8) && LeAt(data, 32, h.phoff, 8)
        && LeAt(data, 54, h.phentsize, 2) && LeAt(data, 56, h.phnum, 2)
        && ((exists i, e :: FirstBad(data, h, h.phnum, i, e) && r == Refused(e))
            || (Collects(data, h, h.phnum, segs, from) && r == Arrange(h.entry, segs, heap)))
  {
    hide Segments, ReadHeader, Arrange, LeAt, Collects;
    HeaderVerdict(data);
    h, segs, from := ElfHeader(0, 0, 0, 0), [], [];
    if ReadHeader(data).Ok? {
      h := ReadHeader(data).value;
      from := TableVerdict(data, h, h.phnum);
      if Segments(data, h, h.phnum).Ok? {
        segs := Segments(data, h, h.phnum).value;
      }
    }
  }
}
