/** What the loader guarantees against any peer: over every sequence of frames, decode
    errors and timeouts, its invariant holds, it stores only where an accepted header
    allows, and it jumps only to a verified image with a cleared tail. */
module LoaderSafety {
  import opened Bytes
  import opened Outcomes
  import opened Frame
  import opened Message
  import opened Receive
  import Crc
  import Decoding

  lemma WriteAt(mem: seq<byte>, at: nat, bytes: seq<byte>, i: nat)
    requires at + |bytes| <= |mem| && i < |mem|
    ensures Write(mem, at, bytes)[i] == if at <= i < at + |bytes| then bytes[i - at] else mem[i]
  {}

  /** Appending a chunk extends the stored prefix by exactly that chunk. */
  lemma WriteExtends(mem: seq<byte>, base: nat, got: nat, bytes: seq<byte>)
    requires base + got + |bytes| <= |mem|
    ensures Write(mem, base + got, bytes)[base..base + got + |bytes|] == mem[base..base + got] + bytes
  {
    var m := Write(mem, base + got, bytes);
    assert m[base..base + got] == mem[base..base + got];
    assert m[base + got..base + got + |bytes|] == bytes;
  }

  lemma WriteKeeps(mem: seq<byte>, at: nat, bytes: seq<byte>, lo: nat, hi: nat)
    requires at + |bytes| <= |mem| && lo <= hi <= at
    ensures Write(mem, at, bytes)[lo..hi] == mem[lo..hi]
  {}

  // ---------------------------------------------------------------- one event

  lemma FootprintFits(b: Board, st: Loader)
    requires Inv(b, st) && st.transfer.Some?
    ensures var h := st.transfer.value.header; h.imageLen <= h.memLen && h.loadAddr + h.memLen <= |st.mem|
  {
    hide Crc.Raw, Crc.Xor;
  }

  lemma ChunkKeepsInv(b: Board, st: Loader, chunk: seq<byte>)
    requires Inv(b, st) && st.transfer.Some?
    requires st.transfer.value.received + |chunk| <= st.transfer.value.header.imageLen
    ensures st.transfer.value.header.loadAddr + st.transfer.value.received + |chunk| <= |st.mem|
    ensures Inv(b, TakeChunk(st, st.transfer.value, chunk).next)
  {
    hide Write, Crc.Raw, Crc.Xor, ValidateHeader;
    FootprintFits(b, st);
    var t := st.transfer.value;
    var base := t.header.loadAddr;
    WriteExtends(st.mem, base, t.received, chunk);
    Crc.RawSplit(0xffff_ffff, st.mem[base..base + t.received], chunk);
  }

  lemma BootKeepsInv(b: Board, st: Loader)
    requires Inv(b, st)
    ensures Inv(b, HandleBoot(b, st).next)
  {
    hide Crc.Raw, Crc.Xor;
    if st.transfer.Some? && st.transfer.value.verified {
      var h := st.transfer.value.header;
      WriteKeeps(st.mem, h.loadAddr + h.imageLen, Zeros(h.memLen - h.imageLen), h.loadAddr, h.loadAddr + h.imageLen);
    }
  }

  lemma HeaderKeepsInv(b: Board, st: Loader, payload: seq<byte>)
    requires Inv(b, st)
    ensures Inv(b, HandleHeader(b, st, payload).next)
  {
    hide ImageHeader.FromBytes;
    var h := ImageHeader.FromBytes(payload);
    if h.Ok? && ValidateHeader(b, h.value).None? {
      assert st.mem[h.value.loadAddr..h.value.loadAddr + 0] == [];
    }
  }

  lemma FrameKeepsInv(b: Board, st: Loader, p: Packet)
    requires Inv(b, st)
    ensures Inv(b, HandleFrame(b, st, p.ty, p.payload).next)
  {
    hide TransferOk, HandleData, HandleHeader, HandleBoot, SendReady, SendError, IdleBytes;
    HeaderKeepsInv(b, st, p.payload);
    BootKeepsInv(b, st);
    DataKeepsInv(b, st, p.payload);
  }

  /** Every event keeps the invariant, whoever the peer is. */
  lemma ReactKeepsInv(b: Board, st: Loader, e: Happening)
    requires Inv(b, st)
    ensures Inv(b, React(b, st, e).next)
  {
    hide TransferOk, HandleFrame, SendReady, SendError;
    if e.Arrived? {
      FrameKeepsInv(b, st.(contacted := true), e.packet);
    }
  }

  lemma DataKeepsInv(b: Board, st: Loader, payload: seq<byte>)
    requires Inv(b, st)
    ensures Inv(b, HandleData(b, st, payload).next)
  {
    hide TakeChunk, Crc.Raw, Crc.Xor, DataFrame.Decode;
    var d := DataFrame.Decode(payload);
    if st.transfer.Some? && d.Ok? && st.transfer.value.received + |d.value.chunk| <= st.transfer.value.header.imageLen {
      ChunkKeepsInv(b, st, d.value.chunk);
    }
  }

  /** `m` differs from the memory of `st` at `a` only if the live header claims `a`. */
  ghost predicate ChangesInside(b: Board, st: Loader, m: seq<byte>, a: nat)
    requires a < |st.mem|
  {
    && |m| == |st.mem|
    && (m[a] != st.mem[a] ==>
        && st.transfer.Some?
        && ValidateHeader(b, st.transfer.value.header).None?
        && InFootprint(st.transfer.value.header, a))
  }

  lemma DataChanges(b: Board, st: Loader, payload: seq<byte>, a: nat)
    requires Inv(b, st) && a < |st.mem|
    ensures ChangesInside(b, st, HandleData(b, st, payload).next.mem, a)
  {
    hide Crc.Raw, Crc.Xor, ValidateHeader, DataFrame.Decode, Write;
    var d := DataFrame.Decode(payload);
    if st.transfer.Some? && d.Ok? {
      FootprintFits(b, st);
      var t := st.transfer.value;
      if t.received + |d.value.chunk| <= t.header.imageLen {
        WriteAt(st.mem, t.header.loadAddr + t.received, d.value.chunk, a);
      }
    }
  }

  lemma BootChanges(b: Board, st: Loader, a: nat)
    requires Inv(b, st) && a < |st.mem|
    ensures ChangesInside(b, st, HandleBoot(b, st).next.mem, a)
  {
    hide Crc.Raw, Crc.Xor, ValidateHeader, Write;
    if st.transfer.Some? {
      FootprintFits(b, st);
      var h := st.transfer.value.header;
      WriteAt(st.mem, h.loadAddr + h.imageLen, Zeros(h.memLen - h.imageLen), a);
    }
  }

  lemma HeaderChangesNothing(b: Board, st: Loader, payload: seq<byte>)
    ensures HandleHeader(b, st, payload).next.mem == st.mem && HandleHeader(b, st, payload).jump.None?
  {
    hide ImageHeader.FromBytes, ValidateHeader, SendAck, SendError;
  }

  lemma FrameChanges(b: Board, st: Loader, p: Packet, a: nat)
    requires Inv(b, st) && a < |st.mem|
    ensures ChangesInside(b, st, HandleFrame(b, st, p.ty, p.payload).next.mem, a)
  {
    hide HandleData, HandleBoot, HandleHeader, ValidateHeader, InFootprint, Inv, SendReady, SendError, IdleBytes;
    DataChanges(b, st, p.payload, a);
    BootChanges(b, st, a);
    HeaderChangesNothing(b, st, p.payload);
  }

  /** One event changes only bytes the live header claims. */
  lemma ReactFrame(b: Board, st: Loader, e: Happening, a: nat)
    requires Inv(b, st) && a < |st.mem|
    ensures ChangesInside(b, st, React(b, st, e).next.mem, a)
  {
    hide HandleFrame, ValidateHeader, InFootprint, TransferOk, SendReady, SendError;
    if e.Arrived? {
      FrameChanges(b, st.(contacted := true), e.packet, a);
    }
  }

  /** What a jump hands over: a validated header, an entry inside the image, memory
      whose CRC is the header's, and a cleared tail. */
  ghost predicate Bootable(b: Board, mem: seq<byte>, j: Jump) {
    var h := j.header;
    && ValidateHeader(b, h).None?
    && h.loadAddr + h.memLen <= |mem|
    && h.imageLen <= h.memLen
    && h.loadAddr <= j.entry < h.loadAddr + h.imageLen
    && Crc.Checksum(mem[h.loadAddr..h.loadAddr + h.imageLen]) == h.imageCrc32
    && (forall a :: h.loadAddr + h.imageLen <= a < h.loadAddr + h.memLen ==> mem[a] == 0)
  }

  lemma BootHandsOver(b: Board, st: Loader)
    requires Inv(b, st)
    ensures var r := HandleBoot(b, st);
      && (r.jump.Some? <==> st.transfer.Some? && st.transfer.value.verified)
      && (r.jump.Some? ==> Bootable(b, r.next.mem, r.jump.value))
  {
    hide Crc.Raw, Crc.Xor;
    if st.transfer.Some? && st.transfer.value.verified {
      var h := st.transfer.value.header;
      var zeros := Zeros(h.memLen - h.imageLen);
      WriteKeeps(st.mem, h.loadAddr + h.imageLen, zeros, h.loadAddr, h.loadAddr + h.imageLen);
      var m := HandleBoot(b, st).next.mem;
      forall a | h.loadAddr + h.imageLen <= a < h.loadAddr + h.memLen ensures m[a] == 0 {
        WriteAt(st.mem, h.loadAddr + h.imageLen, zeros, a);
      }
    }
  }

  lemma DataNeverJumps(b: Board, st: Loader, payload: seq<byte>)
    requires Inv(b, st)
    ensures HandleData(b, st, payload).jump.None?
  {
    hide Crc.Raw, Crc.Xor, Write, ValidateHeader, DataFrame.Decode, SendAck, SendError;
  }

  lemma OnlyBootJumps(b: Board, st: Loader, e: Happening)
    requires Inv(b, st) && React(b, st, e).jump.Some?
    ensures e.Arrived? && e.packet.ty == FrameType.Boot
    ensures React(b, st, e) == HandleBoot(b, st.(contacted := true))
  {
    hide HandleData, HandleBoot, HandleHeader, ValidateHeader, TransferOk, SendReady, SendError, IdleBytes;
    if e.Arrived? {
      var on := st.(contacted := true);
      DataNeverJumps(b, on, e.packet.payload);
      HeaderChangesNothing(b, on, e.packet.payload);
    }
  }

  /** An unsupported version is reported without the supported one: the detail is 0. */
  lemma VersionNotReported(b: Board, st: Loader, v: byte)
    requires Inv(b, st) && st.contacted
    ensures var r := React(b, st, Garbled(Decoding.BadVersion(v)));
      && |r.replies| == 1 && r.replies[0].ty == FrameType.Error
      && |r.replies[0].payload| == 6 && Rd32(r.replies[0].payload, 2) == 0 != PROTOCOL_VERSION as nat
  {
    hide TransferOk, ErrorBytes, Rd16, Rd32;
    ErrorBack(ErrorCode.BadVersion, 0);
  }

  // -------------------------------------------------------------- whole runs

  datatype Ran = Ran(last: Loader, jump: Option<Jump>)

  /** The receive loop over a list of happenings; a jump ends it. */
  function Run(b: Board, st: Loader, es: seq<Happening>): (r: Ran)
    requires Inv(b, st)
    ensures Inv(b, r.last) && |r.last.mem| == |st.mem|
    decreases |es|
  {
    if es == [] then Ran(st, None)
    else
      ReactKeepsInv(b, st, es[0]);
      SameSize(b, st, es[0]);
      var r := React(b, st, es[0]);
      if r.jump.Some? then Ran(r.next, r.jump) else Run(b, r.next, es[1..])
  }

  lemma SameSize(b: Board, st: Loader, e: Happening)
    requires Inv(b, st)
    ensures |React(b, st, e).next.mem| == |st.mem|
  {
    hide React, ValidateHeader, InFootprint, TransferOk;
    ReactFrame(b, st, e, 0);
  }

  /** The headers that were live at some point of the run. */
  ghost function Claims(b: Board, st: Loader, es: seq<Happening>): set<ImageHeader>
    requires Inv(b, st)
    decreases |es|
  {
    var here := if st.transfer.Some? then {st.transfer.value.header} else {};
    if es == [] then here
    else
      ReactKeepsInv(b, st, es[0]);
      here + Claims(b, React(b, st, es[0]).next, es[1..])
  }

  /** No byte changes over a whole run, jump included, unless some header that passed
      validation claims it; so nothing outside the window and nothing of the loader. */
  lemma {:induction false} RunFrame(b: Board, st: Loader, es: seq<Happening>, a: nat)
    requires Inv(b, st) && a < |st.mem|
    requires Run(b, st, es).last.mem[a] != st.mem[a]
    ensures exists h :: h in Claims(b, st, es) && ValidateHeader(b, h).None? && InFootprint(h, a)
    ensures WINDOW_MIN <= a < b.limits.windowMax && !(b.loaderStart <= a < b.loaderEnd)
    decreases |es|
  {
    hide React, ValidateHeader, InFootprint, Inv;
    var r := React(b, st, es[0]);
    ReactKeepsInv(b, st, es[0]);
    ReactFrame(b, st, es[0], a);
    if r.next.mem[a] != st.mem[a] {
      var h := st.transfer.value.header;
      assert h in Claims(b, st, es);
      AcceptedIsSafe(b, h, a);
    } else {
      RunFrame(b, r.next, es[1..], a);
      var h :| h in Claims(b, r.next, es[1..]) && ValidateHeader(b, h).None? && InFootprint(h, a);
      assert h in Claims(b, st, es);
    }
  }

  /** Whatever the peer sends, a jump enters a verified image. */
  lemma {:induction false} RunJumpsVerified(b: Board, st: Loader, es: seq<Happening>)
    requires Inv(b, st) && Run(b, st, es).jump.Some?
    ensures Bootable(b, Run(b, st, es).last.mem, Run(b, st, es).jump.value)
    ensures exists k :: 0 <= k < |es| && es[k].Arrived? && es[k].packet.ty == FrameType.Boot
    decreases |es|
  {
    hide React, Inv, Bootable;
    var r := React(b, st, es[0]);
    ReactKeepsInv(b, st, es[0]);
    if r.jump.Some? {
      OnlyBootJumps(b, st, es[0]);
      ContactKeepsInv(b, st);
      BootHandsOver(b, st.(contacted := true));
    } else {
      RunJumpsVerified(b, r.next, es[1..]);
      var k :| 0 <= k < |es[1..]| && es[1..][k].Arrived? && es[1..][k].packet.ty == FrameType.Boot;
      assert es[k + 1] == es[1..][k];
    }
  }

  lemma ContactKeepsInv(b: Board, st: Loader)
    requires Inv(b, st)
    ensures Inv(b, st.(contacted := true))
  {}
}
