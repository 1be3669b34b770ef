/** From the file on disk to the board, by the programs themselves: building the image and
    loading it byte by byte over the wire. */
module WireLoading {
  import opened Bytes
  import opened Outcomes
  import opened Receive
  import opened Session
  import opened Elf
  import opened Loading
  import Protocol
  import ByteLoop
  import HostMachine
  import LoaderMachine
  import Joint
  import JointRuns

  /** The memory and the entry of a loaded file, whatever memory a reference load of it
      begins with. */
  ghost predicate Loaded(h: ElfHeader, segs: seq<Segment>, base: nat, jump: Jump, m: seq<byte>) {
    && jump.entry == h.entry
    && forall mem: seq<byte> :: Room(segs, |mem|) ==> Agrees(segs, m, mem, base)
  }

  lemma LandedAlways(
    data: seq<byte>, cfg: Config, heap: nat, h: ElfHeader, segs: seq<Segment>, image: Image, l: Protocol.Landing)
    requires Says(data, h, segs) && WellFormed(segs) && BuildOf(data, cfg, heap) == Made(image)
    requires Protocol.Landed(image, l)
    ensures Loaded(h, segs, image.loadAddr, l.jump, l.mem)
  {
    hide Says, WellFormed, BuildOf, Protocol.Landed, Agrees, Arrange, Room;
    BuiltFrom(data, cfg, heap, h, segs, image);
    EntryIsEntry(h.entry, segs, heap, image, l);
    forall mem: seq<byte> | Room(segs, |mem|) ensures Agrees(segs, l.mem, mem, image.loadAddr) {
      LandedIsLoaded(data, cfg, heap, h, segs, image, l, mem);
    }
  }

  /** A load of a file. The host builds the image and runs its session on the pieces its
      port delivers; the loader runs on the bytes and pauses of its UART; both come from
      one joint run. If the session succeeds, the loader has jumped. For a well-formed ELF
      file that is to its entry, with every segment address from the base up in the memory
      array as the file says; for a raw file, to the configured entry, with the file in the
      array at its address. */
  method LoadFile(
    host: HostMachine.Host, loader: LoaderMachine.Receiver, data: seq<byte>, cfg: Config, heap: nat,
    inputs: seq<ByteLoop.Input>, ghost h: ElfHeader, ghost segs: seq<Segment>,
    ghost j: Joint.Pair, ghost acts: seq<Joint.JAct>)
    returns (built: Built, booted: bool, jump: Option<Jump>)
    requires host.Valid() && loader.Valid()
    requires {host, host.decoder, host.decoder.buf}
      !! {loader, loader.mem, loader.decoder, loader.decoder.buf} + loader.Live()
    requires j.loader == loader.Now(None)
    requires JointRuns.HostOf(j, host.inbox) == host.Due(HostStep(AwaitReady, [HelloPacket()]))
    requires var b := BuildOf(data, cfg, heap);
      b.Made? ==> JointRuns.Joined(loader.board, b.image, j, acts, host.inbox, inputs)
    modifies host, host.decoder, host.decoder.buf
    modifies loader, loader.mem, loader.Live(), loader.decoder, loader.decoder.buf
    ensures loader.Valid()
    ensures built == BuildOf(data, cfg, heap)
    ensures booted ==> built.Made? && jump.Some?
    ensures booted && Says(data, h, segs) && WellFormed(segs) ==>
      Loaded(h, segs, built.image.loadAddr, jump.value, loader.mem[..])
    ensures booted && !IsElf(data) ==> RawLoaded(data, cfg, jump.value, loader.mem[..])
  {
    hide Says, WellFormed, BuildOf, Loaded, RawLoaded, Protocol.Landed, JointRuns.Joined, HelloPacket;
    built := Build(data, cfg, heap);
    booted, jump := false, None;
    if built.Made? {
      var r;
      r, jump := JointRuns.LoadOverTheWire(host, loader, built.image, inputs, j, acts);
      booted := r.Ok?;
      if booted {
        ghost var l := Protocol.Landing(jump.value, loader.mem[..]);
        if Says(data, h, segs) && WellFormed(segs) {
          LandedAlways(data, cfg, heap, h, segs, built.image, l);
        }
        if !IsElf(data) {
          LandedIsRaw(data, cfg, heap, built.image, l);
        }
      }
    }
  }
}
