/** What the loader answers, by the bytes that come back, and what it keeps: for every
    state it can be in and everything it can meet, whoever the peer is. */
module Answers {
  import opened Bytes
  import opened Outcomes
  import opened Frame
  import opened Message
  import opened Receive
  import opened LoaderSafety
  import opened Layout
  import Decoding
  import Crc

  // -------------------------------------------------------------------- replies

  ghost predicate IsAck(p: Packet, n: nat) {
    p.ty == FrameType.Ack && |p.payload| == 4 && LeAt(p.payload, 0, n, 4)
  }

  ghost predicate IsError(p: Packet, code: nat, detail: nat) {
    p.ty == FrameType.Error && |p.payload| == 6 && LeAt(p.payload, 0, code, 2) && LeAt(p.payload, 2, detail, 4)
  }

  /** READY, with this board's window and the loader's fixed limits. */
  ghost predicate IsReady(p: Packet, b: Board) {
    && p.ty == FrameType.Ready && |p.payload| == 32
    && LeAt(p.payload, 0, 1, 4) && LeAt(p.payload, 4, b.limits.maxImageLen, 4)
    && LeAt(p.payload, 8, 0x20_0000, 8) && LeAt(p.payload, 16, b.limits.windowMax, 8)
    && LeAt(p.payload, 24, 0x800, 4) && LeAt(p.payload, 28, 1020, 2)
    && p.payload[30] == 0 && p.payload[31] == 0
  }

  ghost predicate IsIdle(p: Packet) {
    p.ty == FrameType.Idle && |p.payload| == 2 && LeAt(p.payload, 0, 120, 2)
  }

  ghost predicate AnswersAck(r: Reaction, n: nat) { |r.replies| == 1 && IsAck(r.replies[0], n) }

  ghost predicate AnswersError(r: Reaction, code: nat, detail: nat) {
    |r.replies| == 1 && IsError(r.replies[0], code, detail)
  }

  ghost predicate AnswersReady(r: Reaction, b: Board) { |r.replies| == 1 && IsReady(r.replies[0], b) }

  lemma AckIs(n: u32)
    ensures IsAck(SendAck(n), n)
  {
    hide LeAt;
    AckLayout(n, []);
  }

  lemma ErrorIs(c: ErrorCode, d: u32)
    ensures IsError(SendError(c, d), c.AsU16(), d)
  {
    hide LeAt;
    ErrorLayout(c, d);
  }

  lemma ReadyIs(b: Board)
    ensures IsReady(SendReady(b.limits), b)
  {
    hide LeAt, ReadyMsg.ToBytes;
    ReadyBytes(ReadyFor(b.limits));
  }

  lemma IdleIs()
    ensures IsIdle(Packet(FrameType.Idle, IdleBytes(LOW_POWER_HEARTBEAT_SECS)))
  {
    hide LeAt;
    SmallLayouts(0, LOW_POWER_HEARTBEAT_SECS);
  }

  // ------------------------------------------------------------------ no effect

  /** Nothing but the contact is noted. */
  predicate Unmoved(st: Loader, r: Reaction) {
    r.next == st.(contacted := true) && r.jump.None?
  }

  function Gets(ty: FrameType, payload: seq<byte>): Happening { Arrived(Packet(ty, payload)) }

  // ------------------------------------------------------------------------ DATA

  /** `now` is `was` with `bytes` at `at`, byte by byte. */
  ghost predicate StoredAt(was: seq<byte>, now: seq<byte>, at: nat, bytes: seq<byte>) {
    && |now| == |was| && at + |bytes| <= |was|
    && forall a :: 0 <= a < |was| ==> now[a] == if at <= a < at + |bytes| then bytes[a - at] else was[a]
  }

  /** DATA that is not the next piece, or has no place, changes nothing. */
  lemma DataRefused(b: Board, st: Loader, payload: seq<byte>, off: nat)
    requires Inv(b, st) && (|payload| >= 4 ==> LeAt(payload, 0, off, 4))
    ensures var r := React(b, st, Gets(FrameType.Data, payload));
      && (st.transfer.None? ==> Unmoved(st, r) && AnswersError(r, 5, 0))
      && (st.transfer.Some? ==>
            var t := st.transfer.value;
            && (|payload| < 4 ==> Unmoved(st, r) && AnswersError(r, 3, 0))
            && (|payload| >= 4 && off != t.received ==> Unmoved(st, r) && AnswersError(r, 10, t.received))
            && (|payload| >= 4 && off == t.received && off + |payload| - 4 > t.header.imageLen ==>
                  Unmoved(st, r) && AnswersError(r, 3, off)))
  {
    hide LeAt, TransferOk, DataFrame.Decode, TakeChunk, IsError, SendError;
    DataOffset(payload, off);
    ErrorIs(ErrorCode.Unexpected, 0);
    ErrorIs(ErrorCode.BadLength, 0);
    ContactKeepsInv(b, st);
    if st.transfer.Some? {
      ReceivedFits(b, st);
      ErrorIs(ErrorCode.OffsetMismatch, st.transfer.value.received);
      if st.transfer.value.received == off {
        ErrorIs(ErrorCode.BadLength, off);
      }
    }
  }

  lemma ReceivedFits(b: Board, st: Loader)
    requires Inv(b, st) && st.transfer.Some?
    ensures st.transfer.value.received <= st.transfer.value.header.imageLen < U32
  {
    hide Crc.Raw, Crc.Xor, ValidateHeader;
  }

  lemma DataOffset(payload: seq<byte>, off: nat)
    requires |payload| >= 4 ==> LeAt(payload, 0, off, 4)
    ensures DataFrame.Decode(payload).Ok? <==> |payload| >= 4
    ensures |payload| >= 4 ==> DataFrame.Decode(payload) == Ok(DataFrame(off, payload[4..]))
  {
    hide LeAt, FromLe;
    if |payload| >= 4 {
      Taken(payload, 0, 4);
      OneValue(payload, 0, off, FromLe(payload[0..4]), 4);
    }
  }

  /** The next piece, if it fits, is stored at its place and counted. While the image is
      short of its length, and when the stored bytes have the header's checksum, the new
      count is acknowledged; a complete image of another checksum is reported with the
      checksum found, and dropped. */
  ghost predicate Accepted(st: Loader, chunk: seq<byte>, r: Reaction)
    requires st.transfer.Some?
  {
    var t := st.transfer.value;
    var n := t.received + |chunk|;
    var m := r.next.mem;
    && StoredAt(st.mem, m, t.header.loadAddr + t.received, chunk)
    && t.header.loadAddr + n <= |m|
    && r.jump.None? && r.next.lowPower == st.lowPower
    && var sum := Crc.Checksum(m[t.header.loadAddr..t.header.loadAddr + n]);
      if n < t.header.imageLen || sum == t.header.imageCrc32 then
        && AnswersAck(r, n)
        && r.next.transfer.Some?
        && r.next.transfer.value.header == t.header && r.next.transfer.value.received == n
        && (r.next.transfer.value.verified <==> n == t.header.imageLen)
      else
        AnswersError(r, 11, sum as nat) && r.next.transfer.None?
  }

  lemma StoreIs(was: seq<byte>, at: nat, bytes: seq<byte>)
    requires at + |bytes| <= |was|
    ensures StoredAt(was, Write(was, at, bytes), at, bytes)
  {
    hide Write;
    forall a | 0 <= a < |was|
      ensures Write(was, at, bytes)[a] == if at <= a < at + |bytes| then bytes[a - at] else was[a]
    {
      WriteAt(was, at, bytes, a);
    }
  }

  lemma SumIs(st: Loader, t: Transfer, chunk: seq<byte>)
    requires t.header.loadAddr + t.received + |chunk| <= |st.mem|
    requires t.crc == Crc.Raw(0xffff_ffff, st.mem[t.header.loadAddr..t.header.loadAddr + t.received])
    ensures var m := Write(st.mem, t.header.loadAddr + t.received, chunk);
      Crc.Xor(Crc.Raw(t.crc, chunk), 0xffff_ffff)
        == Crc.Checksum(m[t.header.loadAddr..t.header.loadAddr + t.received + |chunk|])
  {
    hide Write, Crc.Raw, Crc.Xor;
    var base := t.header.loadAddr;
    WriteExtends(st.mem, base, t.received, chunk);
    Crc.RawSplit(0xffff_ffff, st.mem[base..base + t.received], chunk);
  }

  lemma ChunkAccepted(b: Board, st: Loader, chunk: seq<byte>)
    requires Inv(b, st) && st.transfer.Some?
    requires st.transfer.value.received + |chunk| <= st.transfer.value.header.imageLen
    ensures st.transfer.value.header.loadAddr + st.transfer.value.received + |chunk| <= |st.mem|
    ensures Accepted(st, chunk, TakeChunk(st, st.transfer.value, chunk))
  {
    hide Write, Crc.Raw, Crc.Xor, Crc.Checksum, ValidateHeader, StoredAt, IsAck, IsError, SendAck, SendError;
    FootprintFits(b, st);
    var t := st.transfer.value;
    var n := t.received + |chunk|;
    StoreIs(st.mem, t.header.loadAddr + t.received, chunk);
    SumIs(st, t, chunk);
    AckIs(n);
    var got := Crc.Xor(Crc.Raw(t.crc, chunk), 0xffff_ffff);
    NatFits(got);
    ErrorIs(ErrorCode.ImageCrc, got as nat);
  }

  lemma NatFits(w: bv32)
    ensures w as nat < U32
  {}

  /** DATA that is the next piece and fits. */
  lemma DataAccepted(b: Board, st: Loader, payload: seq<byte>)
    requires Inv(b, st) && st.transfer.Some? && |payload| >= 4
    requires LeAt(payload, 0, st.transfer.value.received, 4)
    requires st.transfer.value.received + |payload| - 4 <= st.transfer.value.header.imageLen
    ensures Accepted(st, payload[4..], React(b, st, Gets(FrameType.Data, payload)))
  {
    hide LeAt, Inv, DataFrame.Decode, TakeChunk, Accepted;
    DataOffset(payload, st.transfer.value.received);
    ContactKeepsInv(b, st);
    var on := st.(contacted := true);
    ChunkAccepted(b, on, payload[4..]);
    AcceptedOn(st, payload[4..], TakeChunk(on, on.transfer.value, payload[4..]));
  }

  lemma AcceptedOn(st: Loader, chunk: seq<byte>, r: Reaction)
    requires st.transfer.Some? && Accepted(st.(contacted := true), chunk, r)
    ensures Accepted(st, chunk, r)
  {
    hide StoredAt, IsAck, IsError;
  }

  // ---------------------------------------------------------------------- HEADER

  ghost predicate LengthWrong(h: ImageHeader) { h.imageLen == 0 || h.memLen < h.imageLen }

  ghost predicate Aligned(h: ImageHeader) { exists k: nat :: h.loadAddr == 0x800 * k }

  ghost predicate InWindow(b: Board, h: ImageHeader) {
    forall a: nat :: InFootprint(h, a) ==> 0x20_0000 <= a < b.limits.windowMax
  }

  ghost predicate OnLoader(b: Board, h: ImageHeader) {
    exists a: nat :: InFootprint(h, a) && b.loaderStart <= a < b.loaderEnd
  }

  /** Why a header is refused, in the order the reasons count, by error code; 0 when it is
      not. Addresses are judged byte by byte. */
  ghost function Refusal(b: Board, h: ImageHeader): nat {
    if LengthWrong(h) then 3
    else if h.imageLen > b.limits.maxImageLen then 9
    else if !Aligned(h) then 7
    else if !InWindow(b, h) then 6
    else if OnLoader(b, h) then 8
    else if h.entryOff >= h.imageLen then 6
    else 0
  }

  lemma AlignedIff(h: ImageHeader)
    ensures Aligned(h) <==> h.loadAddr % 0x800 == 0
  {
    if h.loadAddr % 0x800 == 0 {
      assert h.loadAddr == 0x800 * (h.loadAddr / 0x800);
    }
  }

  lemma InWindowIff(b: Board, h: ImageHeader)
    requires h.memLen > 0
    ensures InWindow(b, h) <==> 0x20_0000 <= h.loadAddr && h.loadAddr + h.memLen <= b.limits.windowMax
  {
    assert InFootprint(h, h.loadAddr) && InFootprint(h, h.loadAddr + h.memLen - 1);
  }

  lemma OnLoaderIff(b: Board, h: ImageHeader)
    requires h.memLen > 0 && b.loaderStart < b.loaderEnd
    ensures OnLoader(b, h) <==> h.loadAddr < b.loaderEnd && b.loaderStart < h.loadAddr + h.memLen
  {
    if h.loadAddr < b.loaderEnd && b.loaderStart < h.loadAddr + h.memLen {
      var a := if h.loadAddr < b.loaderStart then b.loaderStart else h.loadAddr;
      assert InFootprint(h, a) && b.loaderStart <= a < b.loaderEnd;
    }
  }

  lemma RefusalIs(b: Board, h: ImageHeader)
    requires b.loaderStart < b.loaderEnd
    ensures ValidateHeader(b, h).None? <==> Refusal(b, h) == 0
    ensures ValidateHeader(b, h).Some? ==> ValidateHeader(b, h).value.AsU16() == Refusal(b, h)
  {
    hide Aligned, InWindow, OnLoader;
    AlignedIff(h);
    if h.memLen > 0 {
      InWindowIff(b, h);
      OnLoaderIff(b, h);
    }
  }

  /** HEADER: a short one changes nothing. Otherwise the old transfer is gone: a header
      with no fault starts an empty one and is acknowledged with 0, any other is answered
      with the first fault. */
  lemma HeaderAnswer(b: Board, st: Loader, payload: seq<byte>)
    requires Inv(b, st) && b.loaderStart < b.loaderEnd
    ensures var r := React(b, st, Gets(FrameType.Header, payload));
      if |payload| < 28 then Unmoved(st, r) && AnswersError(r, 3, 0)
      else
        var h := ImageHeader.FromBytes(payload).value;
        && r.jump.None? && r.next.mem == st.mem && r.next.lowPower == st.lowPower
        && if Refusal(b, h) == 0
           then AnswersAck(r, 0) && r.next.transfer == Some(Transfer(h, 0, 0xffff_ffff, false))
           else AnswersError(r, Refusal(b, h), 0) && r.next.transfer.None?
  {
    hide Inv, ValidateHeader, Refusal, IsAck, IsError, SendAck, SendError, LeAt, Rd32, Rd64, RdWord;
    ErrorIs(ErrorCode.BadLength, 0);
    AckIs(0);
    if |payload| >= 28 {
      var h := ImageHeader.FromBytes(payload).value;
      RefusalIs(b, h);
      if ValidateHeader(b, h).Some? {
        ErrorIs(ValidateHeader(b, h).value, 0);
      }
    }
  }

  // ----------------------------------------------------------------- other frames

  /** HELLO abandons any transfer, wakes the loader and draws READY. */
  lemma HelloAnswer(b: Board, st: Loader, payload: seq<byte>)
    requires Inv(b, st)
    ensures var r := React(b, st, Gets(FrameType.Hello, payload));
      AnswersReady(r, b) && r.jump.None? && r.next == Loader(st.mem, None, false, true)
  {
    hide TransferOk, IsReady, SendReady;
    ReadyIs(b);
  }

  /** MODE is refused during a transfer, without a mode byte, and for any mode but 0 and 1;
      1 enters low power and draws IDLE, 0 leaves it and draws READY. */
  lemma ModeAnswer(b: Board, st: Loader, payload: seq<byte>)
    requires Inv(b, st)
    ensures var r := React(b, st, Gets(FrameType.Mode, payload));
      if st.transfer.Some? then Unmoved(st, r) && AnswersError(r, 5, 0)
      else if payload == [] then Unmoved(st, r) && AnswersError(r, 3, 0)
      else if payload[0] == 1 then
        r.jump.None? && r.next == Loader(st.mem, None, true, true) && |r.replies| == 1 && IsIdle(r.replies[0])
      else if payload[0] == 0 then
        r.jump.None? && r.next == Loader(st.mem, None, false, true) && AnswersReady(r, b)
      else Unmoved(st, r) && AnswersError(r, 5, payload[0] as nat)
  {
    hide TransferOk, IsReady, IsError, IsIdle, SendReady, SendError, IdleBytes;
    ReadyIs(b);
    IdleIs();
    ErrorIs(ErrorCode.Unexpected, 0);
    ErrorIs(ErrorCode.BadLength, 0);
    if payload != [] {
      ByteBack(payload[0]);
      ErrorIs(ErrorCode.Unexpected, payload[0] as nat);
    }
  }

  /** BOOT with a verified image acknowledges its length, clears the tail and nothing else,
      and jumps to the entry; without one it is refused. */
  lemma BootAnswer(b: Board, st: Loader, payload: seq<byte>)
    requires Inv(b, st)
    ensures var r := React(b, st, Gets(FrameType.Boot, payload));
      if st.transfer.None? || !st.transfer.value.verified then Unmoved(st, r) && AnswersError(r, 12, 0)
      else
        var h := st.transfer.value.header;
        && AnswersAck(r, h.imageLen)
        && r.jump == Some(Jump(h.loadAddr + h.entryOff, h))
        && StoredAt(st.mem, r.next.mem, h.loadAddr + h.imageLen, Zeros(h.memLen - h.imageLen))
        && r.next == st.(mem := r.next.mem, contacted := true)
  {
    hide ValidateHeader, Crc.Raw, Crc.Xor, IsAck, IsError, SendAck, SendError, Write, StoredAt;
    ErrorIs(ErrorCode.NoImage, 0);
    ContactKeepsInv(b, st);
    if st.transfer.Some? && st.transfer.value.verified {
      var h := st.transfer.value.header;
      FootprintFits(b, st);
      AckIs(h.imageLen);
      StoreIs(st.mem, h.loadAddr + h.imageLen, Zeros(h.memLen - h.imageLen));
    }
  }

  /** Frames that only a loader sends are refused. */
  lemma ConfusedAnswer(b: Board, st: Loader, ty: FrameType, payload: seq<byte>)
    requires Inv(b, st) && (ty.Ready? || ty.Ack? || ty.Error? || ty.Idle?)
    ensures var r := React(b, st, Gets(ty, payload)); Unmoved(st, r) && AnswersError(r, 5, 0)
  {
    hide TransferOk, IsError, SendError;
    ErrorIs(ErrorCode.Unexpected, 0);
  }

  /** A rejected frame is answered only once a peer has been heard, by what was wrong with
      it: 1 for the version, 4 for the type, 3 for the length, 2 for the CRC. */
  lemma GarbledAnswer(b: Board, st: Loader, e: Decoding.DecodeError)
    requires Inv(b, st)
    ensures var r := React(b, st, Garbled(e));
      && r.next == st && r.jump.None?
      && if !st.contacted then r.replies == []
         else
           match e
           case BadVersion(_) => AnswersError(r, 1, 0)
           case UnknownType(_) => AnswersError(r, 4, 0)
           case LengthTooLarge(_) => AnswersError(r, 3, 0)
           case BadCrc(_, _) => AnswersError(r, 2, 0)
  {
    hide TransferOk, IsError, SendError;
    ErrorIs(DecodeErrorCode(e), 0);
  }

  /** Three silent seconds matter only to a transfer: it is dropped, the peer is forgotten
      and READY goes out. */
  lemma ExpiredAnswer(b: Board, st: Loader)
    requires Inv(b, st)
    ensures var r := React(b, st, Expired);
      && r.jump.None?
      && if st.transfer.None? then r.next == st && r.replies == []
         else AnswersReady(r, b) && r.next == Loader(st.mem, None, st.lowPower, false)
  {
    hide TransferOk, IsReady, SendReady;
    ReadyIs(b);
  }

  // ------------------------------------------------------------- when an ACK comes

  /** The first `n` bytes of the image area. */
  ghost function Prefix(st: Loader, n: nat): seq<byte>
    requires st.transfer.Some?
  {
    var base := st.transfer.value.header.loadAddr;
    if base + n <= |st.mem| then st.mem[base..base + n] else []
  }

  /** A piece that is next and fits, and does not complete an image of another checksum
      than its header's. */
  ghost predicate GoodPiece(st: Loader, p: seq<byte>, n: nat) {
    && st.transfer.Some? && |p| >= 4
    && var t := st.transfer.value;
      && LeAt(p, 0, t.received, 4)
      && n == t.received + |p| - 4 <= t.header.imageLen
      && (n == t.header.imageLen ==> Crc.Checksum(Prefix(st, t.received) + p[4..]) == t.header.imageCrc32)
  }

  /** The three occasions of an ACK, and its number. */
  ghost predicate Earns(b: Board, st: Loader, e: Happening, n: nat) {
    && e.Arrived?
    && var p := e.packet.payload;
      match e.packet.ty
      case Header => |p| >= 28 && Refusal(b, ImageHeader.FromBytes(p).value) == 0 && n == 0
      case Data => GoodPiece(st, p, n)
      case Boot => st.transfer.Some? && st.transfer.value.verified && n == st.transfer.value.header.imageLen
      case _ => false
  }

  lemma AckUnique(r: Reaction, m: nat, n: nat)
    requires AnswersAck(r, m)
    ensures AnswersAck(r, n) ==> m == n
  {
    hide LeAt;
    if AnswersAck(r, n) {
      OneValue(r.replies[0].payload, 0, m, n, 4);
    }
  }

  lemma ErrorIsNoAck(r: Reaction, code: nat, detail: nat, n: nat)
    requires AnswersError(r, code, detail)
    ensures !AnswersAck(r, n)
  {}

  lemma PrefixGrows(st: Loader, m: seq<byte>, chunk: seq<byte>)
    requires st.transfer.Some?
    requires var t := st.transfer.value; StoredAt(st.mem, m, t.header.loadAddr + t.received, chunk)
    ensures var t := st.transfer.value;
      m[t.header.loadAddr..t.header.loadAddr + t.received + |chunk|] == Prefix(st, t.received) + chunk
  {
    var t := st.transfer.value;
    var base, k := t.header.loadAddr, t.received;
    var x := m[base..base + k + |chunk|];
    var y := Prefix(st, k) + chunk;
    assert |x| == |y|;
    forall i | 0 <= i < |x| ensures x[i] == y[i] {
      assert x[i] == m[base + i];
    }
  }

  lemma DataAckIff(b: Board, st: Loader, payload: seq<byte>, n: nat)
    requires Inv(b, st)
    ensures AnswersAck(React(b, st, Gets(FrameType.Data, payload)), n) <==> GoodPiece(st, payload, n)
  {
    hide Inv, React, LeAt, IsAck, IsError, AnswersAck, AnswersError, Prefix, StoredAt, Crc.Checksum;
    var r := React(b, st, Gets(FrameType.Data, payload));
    var off := OffsetOf(payload);
    DataRefused(b, st, payload, off);
    if st.transfer.None? {
      ErrorIsNoAck(r, 5, 0, n);
    } else if |payload| < 4 {
      ErrorIsNoAck(r, 3, 0, n);
    } else {
      var t := st.transfer.value;
      if LeAt(payload, 0, t.received, 4) { OneValue(payload, 0, off, t.received, 4); }
      if off != t.received {
        ErrorIsNoAck(r, 10, t.received, n);
      } else if off + |payload| - 4 > t.header.imageLen {
        ErrorIsNoAck(r, 3, off, n);
      } else {
        DataAccepted(b, st, payload);
        PrefixGrows(st, r.next.mem, payload[4..]);
        var k := t.received + |payload| - 4;
        var sum := Crc.Checksum(Prefix(st, t.received) + payload[4..]);
        if k < t.header.imageLen || sum == t.header.imageCrc32 {
          AckUnique(r, k, n);
        } else {
          ErrorIsNoAck(r, 11, sum as nat, n);
        }
      }
    }
  }

  lemma OffsetOf(payload: seq<byte>) returns (off: nat)
    ensures |payload| >= 4 ==> LeAt(payload, 0, off, 4)
  {
    hide LeAt, FromLe;
    off := 0;
    if |payload| >= 4 {
      Taken(payload, 0, 4);
      off := FromLe(payload[0..4]);
    }
  }

  /** An ACK comes back exactly when it is earned, and with the number it is earned for:
      0 for an accepted HEADER, the new count for a good piece, the length at BOOT. */
  lemma AckIff(b: Board, st: Loader, e: Happening, n: nat)
    requires Inv(b, st) && b.loaderStart < b.loaderEnd
    ensures AnswersAck(React(b, st, e), n) <==> Earns(b, st, e, n)
  {
    hide Inv, React, IsAck, IsError, IsReady, AnswersAck, AnswersError, AnswersReady, GoodPiece, Refusal;
    var r := React(b, st, e);
    match e
    case Expired =>
      ExpiredAnswer(b, st);
      ReadyOrNothing(r, b, n);
    case Garbled(err) =>
      GarbledAnswer(b, st, err);
      ErrorOrNothing(r, n);
    case Arrived(p) => FrameAckIff(b, st, p, n);
  }

  lemma ReadyOrNothing(r: Reaction, b: Board, n: nat)
    requires r.replies == [] || AnswersReady(r, b)
    ensures !AnswersAck(r, n)
  {}

  lemma ErrorOrNothing(r: Reaction, n: nat)
    requires r.replies == [] || exists c: nat, d: nat :: AnswersError(r, c, d)
    ensures !AnswersAck(r, n)
  {}

  lemma FrameAckIff(b: Board, st: Loader, p: Packet, n: nat)
    requires Inv(b, st) && b.loaderStart < b.loaderEnd
    ensures AnswersAck(React(b, st, Arrived(p)), n) <==> Earns(b, st, Arrived(p), n)
  {
    hide Inv, React, IsAck, IsError, IsReady, IsIdle, AnswersError, AnswersReady, GoodPiece, Refusal, StoredAt;
    var r := React(b, st, Arrived(p));
    match p.ty
    case Hello =>
      HelloAnswer(b, st, p.payload);
      ReadyOrNothing(r, b, n);
    case Mode =>
      ModeAnswer(b, st, p.payload);
      ModeIsNoAck(r, b, n);
    case Header =>
      HeaderAnswer(b, st, p.payload);
      HeaderAcks(b, p.payload, r, n);
    case Data => DataAckIff(b, st, p.payload, n);
    case Boot =>
      BootAnswer(b, st, p.payload);
      if st.transfer.Some? && st.transfer.value.verified {
        AckUnique(r, st.transfer.value.header.imageLen, n);
      } else {
        ErrorIsNoAck(r, 12, 0, n);
      }
    case _ =>
      ConfusedAnswer(b, st, p.ty, p.payload);
      ErrorIsNoAck(r, 5, 0, n);
  }

  lemma ModeIsNoAck(r: Reaction, b: Board, n: nat)
    requires
      || (exists c: nat, d: nat :: AnswersError(r, c, d))
      || AnswersReady(r, b)
      || (|r.replies| == 1 && IsIdle(r.replies[0]))
    ensures !AnswersAck(r, n)
  {}

  lemma HeaderAcks(b: Board, payload: seq<byte>, r: Reaction, n: nat)
    requires |payload| < 28 ==> AnswersError(r, 3, 0)
    requires |payload| >= 28 ==>
      var h := ImageHeader.FromBytes(payload).value;
      if Refusal(b, h) == 0 then AnswersAck(r, 0) else AnswersError(r, Refusal(b, h), 0)
    ensures AnswersAck(r, n) <==> |payload| >= 28 && Refusal(b, ImageHeader.FromBytes(payload).value) == 0 && n == 0
  {
    hide AnswersAck, AnswersError, Refusal, Rd32, Rd64, RdWord;
    if |payload| < 28 {
      ErrorIsNoAck(r, 3, 0, n);
    } else {
      var h := ImageHeader.FromBytes(payload).value;
      if Refusal(b, h) == 0 {
        AckUnique(r, 0, n);
      } else {
        ErrorIsNoAck(r, Refusal(b, h), 0, n);
      }
    }
  }
}
