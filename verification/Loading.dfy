/** From the file on the host's disk to the memory of the board: building the image,
    sending it, and what the machine holds when control reaches its entry. */
module Loading {
  import opened Bytes
  import opened Outcomes
  import opened Receive
  import opened Session
  import opened Protocol
  import opened Elf
  import Crc

  datatype BuildError = AllZeros | NotAnElf | BadElf(error: ElfError) | RawTooLarge

  /** What the configuration says about the file: whether it was named explicitly, and
      where a raw binary goes. */
  datatype Config = Config(named: bool, loadAddr: u64, entryOff: u32)

  datatype Built = Made(image: Image) | BadFile(error: BuildError) | Died

  /** The image for a file already read. */
  method Build(data: seq<byte>, cfg: Config, heap: nat) returns (r: Built)
    ensures r == BuildOf(data, cfg, heap)
  {
    hide Flatten, Crc.Checksum;
    var zero := AllZero(data);
    if zero {
      return BadFile(AllZeros);
    }
    if !cfg.named && !IsElf(data) {
      return BadFile(NotAnElf);
    }
    if IsElf(data) {
      var f := FlattenElf(data, heap);
      match f {
        case Refused(e) => return BadFile(BadElf(e));
        case Crashed => return Died;
        case Flattened(flat) =>
          var crc := Crc.Crc32Of(flat.bytes);
          return Made(Image(flat.base, flat.entryOff, flat.bytes, flat.memLen, crc));
      }
    }
    if |data| >= U32 {
      return BadFile(RawTooLarge);
    }
    var crc := Crc.Crc32Of(data);
    r := Made(Image(cfg.loadAddr, cfg.entryOff, data, |data|, crc));
  }

  method AllZero(data: seq<byte>) returns (z: bool)
    ensures z <==> forall i :: 0 <= i < |data| ==> data[i] == 0
  {
    for i := 0 to |data|
      invariant forall k :: 0 <= k < i ==> data[k] == 0
    {
      if data[i] != 0 {
        return false;
      }
    }
    z := true;
  }

  function BuildOf(data: seq<byte>, cfg: Config, heap: nat): Built {
    if forall i :: 0 <= i < |data| ==> data[i] == 0 then BadFile(AllZeros)
    else if IsElf(data) then
      match Flatten(data, heap)
      case Refused(e) => BadFile(BadElf(e))
      case Crashed => Died
      case Flattened(f) => Made(Image(f.base, f.entryOff, f.bytes, f.memLen, Crc.Checksum(f.bytes)))
    else if !cfg.named then BadFile(NotAnElf)
    else if |data| >= U32 then BadFile(RawTooLarge)
    else Made(Image(cfg.loadAddr, cfg.entryOff, data, |data|, Crc.Checksum(data)))
  }

  predicate AllZeroBytes(data: seq<byte>) { forall i :: 0 <= i < |data| ==> data[i] == 0 }

  /** DEL, then "ELF". */
  predicate StartsAsElf(data: seq<byte>) {
    |data| >= 4 && data[0] == 0x7f && data[1] == 0x45 && data[2] == 0x4c && data[3] == 0x46
  }

  /** Every verdict on a file, from its bytes and the configuration. An empty file counts as
      all zeros; only a file named in the configuration may be anything but an ELF file; a
      raw file of 4 GiB or more is too large, and a shorter one is taken as it is, to the
      address and the entry configured, with no more memory than its bytes. */
  lemma BuildVerdict(data: seq<byte>, cfg: Config, heap: nat)
    ensures var r := BuildOf(data, cfg, heap);
      && (r == BadFile(AllZeros) <==> AllZeroBytes(data))
      && (r == BadFile(NotAnElf) <==> !AllZeroBytes(data) && !StartsAsElf(data) && !cfg.named)
      && (r == BadFile(RawTooLarge) <==>
            !AllZeroBytes(data) && !StartsAsElf(data) && cfg.named && |data| >= 0x1_0000_0000)
      && (!AllZeroBytes(data) && !StartsAsElf(data) && cfg.named && |data| < 0x1_0000_0000 ==>
            && r.Made?
            && r.image.bytes == data && r.image.memLen == |data|
            && r.image.loadAddr == cfg.loadAddr && r.image.entryOff == cfg.entryOff)
      && (r.Made? ==> r.image.crc32 == Crc.Checksum(r.image.bytes))
  {
    hide Flatten, Crc.Checksum;
    ElfIff(data);
  }

  lemma ElfIff(data: seq<byte>)
    ensures IsElf(data) <==> StartsAsElf(data)
  {
    if |data| >= 4 {
      assert data[..4] == [data[0], data[1], data[2], data[3]];
    }
  }

  /** Of an ELF file: the refusals, the crashes and the image are flattening's. */
  lemma ElfBuildVerdict(data: seq<byte>, cfg: Config, heap: nat)
    requires IsElf(data)
    ensures var r := BuildOf(data, cfg, heap);
      && (forall e :: r == BadFile(BadElf(e)) <==> Flatten(data, heap) == Outcome.Refused(e))
      && (r.Died? <==> Flatten(data, heap).Crashed?)
      && (forall f :: Flatten(data, heap) == Flattened(f) <==> r.Made? && FlatOf(r.image) == f)
  {
    hide Flatten, Crc.Checksum;
    assert data[0] == data[..4][0] == 0x7f;
  }

  function FlatOf(image: Image): Flat {
    Flat(image.loadAddr, image.entryOff, image.memLen, image.bytes)
  }

  lemma BuiltFrom(data: seq<byte>, cfg: Config, heap: nat, h: ElfHeader, segs: seq<Segment>, image: Image)
    requires Says(data, h, segs) && BuildOf(data, cfg, heap) == Made(image)
    ensures Arrange(h.entry, segs, heap) == Flattened(FlatOf(image))
    ensures image.crc32 == Crc.Checksum(image.bytes)
  {
    hide Arrange, Segments, ReadHeader, Crc.Checksum;
  }

  lemma LandedIsPlaced(image: Image, l: Landing)
    requires Landed(image, l)
    ensures Placed(l.mem, FlatOf(image))
  {}

  /** `m` holds, at every segment address from `low` up, what loading the segments into
      `mem` puts there. */
  ghost predicate Agrees(segs: seq<Segment>, m: seq<byte>, mem: seq<byte>, low: nat)
    requires Room(segs, |mem|)
  {
    forall i: nat, a: nat {:trigger Covers(segs[i], a)} :: i < |segs| && Covers(segs[i], a) && low <= a ==>
      a < |m| && a < |mem| && m[a] == LoadAll(mem, segs)[a]
  }

  lemma PlacedAgrees(entry: u64, segs: seq<Segment>, heap: nat, f: Flat, m: seq<byte>, mem: seq<byte>)
    requires WellFormed(segs) && Arrange(entry, segs, heap) == Flattened(f)
    requires Placed(m, f) && Room(segs, |mem|)
    ensures Agrees(segs, m, mem, f.base)
  {
    hide WellFormed, Arrange, Room;
    forall i: nat, a: nat {:trigger Covers(segs[i], a)} | i < |segs| && Covers(segs[i], a) && f.base <= a
      ensures a < |m| && a < |mem| && m[a] == LoadAll(mem, segs)[a]
    {
      MeaningPreserved(entry, segs, heap, f, m, mem, i, a);
    }
  }

  /** A landed image is the loaded file: the jump goes to the file's own entry point, and
      every address of every segment from the image's base up holds exactly what loading
      the file would put there, whatever memory `mem` that reference load began with. */
  lemma LandedIsLoaded(
    data: seq<byte>, cfg: Config, heap: nat, h: ElfHeader, segs: seq<Segment>,
    image: Image, l: Landing, mem: seq<byte>)
    requires Says(data, h, segs) && WellFormed(segs) && BuildOf(data, cfg, heap) == Made(image)
    requires Landed(image, l) && Room(segs, |mem|)
    ensures l.jump.entry == h.entry && Agrees(segs, l.mem, mem, image.loadAddr)
  {
    hide Landed, Placed, BuildOf, WellFormed, Room, LoadAll, Arrange, Says, Agrees;
    BuiltFrom(data, cfg, heap, h, segs, image);
    LandedIsPlaced(image, l);
    EntryIsEntry(h.entry, segs, heap, image, l);
    PlacedAgrees(h.entry, segs, heap, FlatOf(image), l.mem, mem);
  }

  /** The jump enters a raw file where the configuration says, with the whole file in memory
      from its load address on. */
  ghost predicate RawLoaded(data: seq<byte>, cfg: Config, jump: Jump, m: seq<byte>) {
    && jump.entry == cfg.loadAddr + cfg.entryOff
    && cfg.entryOff < |data|
    && cfg.loadAddr + |data| <= |m|
    && m[cfg.loadAddr..cfg.loadAddr + |data|] == data
  }

  lemma LandedIsRaw(data: seq<byte>, cfg: Config, heap: nat, image: Image, l: Landing)
    requires BuildOf(data, cfg, heap) == Made(image) && !IsElf(data) && Landed(image, l)
    ensures RawLoaded(data, cfg, l.jump, l.mem)
  {
    hide BuildOf;
    RawIsFile(data, cfg, heap, image);
  }

  lemma RawIsFile(data: seq<byte>, cfg: Config, heap: nat, image: Image)
    requires BuildOf(data, cfg, heap) == Made(image) && !IsElf(data)
    ensures image.bytes == data && image.loadAddr == cfg.loadAddr && image.entryOff == cfg.entryOff
  {
    hide Flatten, Crc.Checksum;
  }

  /** The whole chain for a raw file: over any run that the host reports as a success the
      loader has jumped to the configured entry, and memory holds the file there. */
  lemma RawEndToEnd(
    data: seq<byte>, cfg: Config, heap: nat, b: Board, image: Image, w: World, acts: seq<Action>)
    requires BuildOf(data, cfg, heap) == Made(image) && !IsElf(data)
    requires Start(b, image, w) && Runs(b, image, w, acts) && Exec(b, image, w, acts).host.Booted?
    ensures var v := Exec(b, image, w, acts);
      v.landed.Some? && RawLoaded(data, cfg, v.landed.value.jump, v.landed.value.mem)
  {
    hide Landed, Exec, Runs, Start, BuildOf, RawLoaded;
    BootedMeansLanded(b, image, w, acts);
    LandedIsRaw(data, cfg, heap, image, Exec(b, image, w, acts).landed.value);
  }

  /** The whole chain. Take any well-formed ELF file, build its image, and load it over
      any run of the two parties and their lossy channels. If the host reports success,
      the loader has jumped, and what has landed is the loaded file. */
  lemma ElfEndToEnd(
    data: seq<byte>, cfg: Config, heap: nat, h: ElfHeader, segs: seq<Segment>,
    b: Board, image: Image, w: World, acts: seq<Action>, mem: seq<byte>)
    requires Says(data, h, segs) && WellFormed(segs) && BuildOf(data, cfg, heap) == Made(image)
    requires Start(b, image, w) && Runs(b, image, w, acts) && Room(segs, |mem|)
    requires Exec(b, image, w, acts).host.Booted?
    ensures var v := Exec(b, image, w, acts);
      && v.landed.Some?
      && v.landed.value.jump.entry == h.entry
      && Agrees(segs, v.landed.value.mem, mem, image.loadAddr)
  {
    hide Landed, Exec, Runs, Start, BuildOf, WellFormed, Room, LoadAll, Says, Agrees;
    BootedMeansLanded(b, image, w, acts);
    LandedIsLoaded(data, cfg, heap, h, segs, image, Exec(b, image, w, acts).landed.value, mem);
  }

  /** The wrapped difference the host sends becomes the true entry again. */
  lemma EntryIsEntry(entry: u64, segs: seq<Segment>, heap: nat, image: Image, l: Landing)
    requires WellFormed(segs) && Arrange(entry, segs, heap) == Flattened(FlatOf(image)) && Landed(image, l)
    ensures l.jump.entry == entry
    ensures image.loadAddr + image.memLen <= |l.mem|
  {
    hide Arrange, Backed, Paint, Base, Top, MemTop, Fits, WellFormed;
    FlatShape(entry, segs, heap, FlatOf(image));
  }
}
