/** The loader on values: what each frame, decode error and timeout does to memory and
    to the transfer in progress. */
module Receive {
  import opened Bytes
  import opened Outcomes
  import opened Frame
  import opened Message
  import Decoding
  import Crc

  const WINDOW_MIN: nat := 0x0020_0000
  const FALLBACK_WINDOW_MAX: nat := 0x1C00_0000
  const REQUIRED_ALIGN: nat := 0x800
  const MAX_CHUNK: nat := MAX_PAYLOAD - DATA_HEADER
  const LOADER_VERSION: nat := 1
  const LOW_POWER_HEARTBEAT_SECS: nat := 120
  const MODE_READY: byte := 0
  const MODE_LOW_POWER: byte := 1

  // ------------------------------------------------------------------- limits

  datatype Limits = Limits(windowMax: u64, maxImageLen: u32)

  /** RAM as the firmware reports it: two 32-bit words. */
  datatype Ram = Ram(base: u32, size: u32)

  /** Clears the low 20 bits. */
  function RoundDownMiB(n: nat): nat { n - n % 0x10_0000 }

  /** The writable window for the reported RAM. */
  function Detect(ram: Option<Ram>): (l: Limits)
    ensures WINDOW_MIN < l.windowMax < U64 && l.windowMax % 0x10_0000 == 0
    ensures l.maxImageLen <= l.windowMax - WINDOW_MIN
    ensures l.windowMax - WINDOW_MIN < U32 ==> l.maxImageLen == l.windowMax - WINDOW_MIN
    ensures l.windowMax - WINDOW_MIN >= U32 ==> l.maxImageLen == 0xffff_ffff
    ensures ram.Some? && ram.value.base + ram.value.size >= WINDOW_MIN + 0x10_0000 ==>
      l.windowMax <= ram.value.base + ram.value.size < l.windowMax + 0x10_0000
    ensures ram.None? || ram.value.base + ram.value.size < WINDOW_MIN + 0x10_0000 ==> l.windowMax == FALLBACK_WINDOW_MAX
  {
    var windowMax :=
      if ram.Some? && RoundDownMiB(ram.value.base + ram.value.size) > WINDOW_MIN
      then RoundDownMiB(ram.value.base + ram.value.size)
      else FALLBACK_WINDOW_MAX;
    var span := windowMax - WINDOW_MIN;
    Limits(windowMax, if span < U32 then span else U32 - 1)
  }

  /** The limits and the linker's extent of the running loader. */
  datatype Board = Board(limits: Limits, loaderStart: u64, loaderEnd: u64)

  // -------------------------------------------------------------------- state

  datatype Transfer = Transfer(header: ImageHeader, received: nat, crc: bv32, verified: bool)

  datatype Loader = Loader(mem: seq<byte>, transfer: Option<Transfer>, lowPower: bool, contacted: bool)

  datatype Packet = Packet(ty: FrameType, payload: seq<byte>)

  /** Where control went, and with which image. */
  datatype Jump = Jump(entry: nat, header: ImageHeader)

  datatype Reaction = Reaction(next: Loader, replies: seq<Packet>, jump: Option<Jump>)

  // ------------------------------------------------------------------ replies

  function ReadyFor(l: Limits): ReadyMsg {
    ReadyMsg(LOADER_VERSION, l.maxImageLen, WINDOW_MIN, l.windowMax, REQUIRED_ALIGN, MAX_CHUNK)
  }

  function SendReady(l: Limits): Packet { Packet(FrameType.Ready, ReadyFor(l).ToBytes()) }

  function SendAck(next: u32): Packet { Packet(FrameType.Ack, AckBytes(next)) }

  function SendError(code: ErrorCode, detail: u32): Packet { Packet(FrameType.Error, ErrorBytes(code, detail)) }

  function SendImageCrc(got: bv32): Packet { SendError(ErrorCode.ImageCrc, got as nat) }

  function DecodeErrorCode(e: Decoding.DecodeError): ErrorCode {
    match e
    case BadVersion(_) => ErrorCode.BadVersion
    case UnknownType(_) => ErrorCode.UnknownType
    case LengthTooLarge(_) => ErrorCode.BadLength
    case BadCrc(_, _) => ErrorCode.BadCrc
  }

  // --------------------------------------------------------------- validation

  /** `None` when the header is accepted. The sum is checked against 64 bits, as
      the code's `checked_add` does. */
  function ValidateHeader(b: Board, h: ImageHeader): Option<ErrorCode> {
    if h.imageLen == 0 then Some(ErrorCode.BadLength)
    else if h.memLen < h.imageLen then Some(ErrorCode.BadLength)
    else if h.imageLen > b.limits.maxImageLen then Some(ErrorCode.ImageTooLarge)
    else if h.loadAddr % REQUIRED_ALIGN != 0 then Some(ErrorCode.AddrMisaligned)
    else if h.loadAddr + h.memLen >= U64 then Some(ErrorCode.AddrOutOfRange)
    else
      var start, end := h.loadAddr, h.loadAddr + h.memLen;
      if start < WINDOW_MIN || end > b.limits.windowMax then Some(ErrorCode.AddrOutOfRange)
      else if start < b.loaderEnd && b.loaderStart < end then Some(ErrorCode.AddrOverlap)
      else if h.entryOff >= h.imageLen then Some(ErrorCode.AddrOutOfRange)
      else None
  }

  /** The bytes an accepted header claims. */
  predicate InFootprint(h: ImageHeader, a: nat) {
    h.loadAddr <= a < h.loadAddr + h.memLen
  }

  /** Everything an accepted header guarantees about the addresses it may touch. */
  lemma AcceptedIsSafe(b: Board, h: ImageHeader, a: nat)
    requires ValidateHeader(b, h).None? && InFootprint(h, a)
    ensures WINDOW_MIN <= a < b.limits.windowMax
    ensures !(b.loaderStart <= a < b.loaderEnd)
    ensures a < U64 && h.loadAddr + h.entryOff < h.loadAddr + h.imageLen < U64
  {}

  // ------------------------------------------------------------------- memory

  function Write(mem: seq<byte>, at: nat, bytes: seq<byte>): (m: seq<byte>)
    requires at + |bytes| <= |mem|
    ensures |m| == |mem|
  {
    mem[..at] + bytes + mem[at + |bytes|..]
  }

  function Zeros(n: nat): (s: seq<byte>)
    ensures |s| == n && forall i :: 0 <= i < n ==> s[i] == 0
  {
    seq(n, _ => 0)
  }

  /** Zero-fills `[start, end)`. */
  function Zeroed(mem: seq<byte>, start: nat, end: nat): (m: seq<byte>)
    requires start <= end <= |mem|
    ensures |m| == |mem|
  {
    Write(mem, start, Zeros(end - start))
  }

  // ---------------------------------------------------------------- invariant

  ghost predicate TransferOk(b: Board, mem: seq<byte>, t: Transfer)
    requires |mem| >= b.limits.windowMax
  {
    && ValidateHeader(b, t.header).None?
    && t.received <= t.header.imageLen
    && t.crc == Crc.Raw(0xffff_ffff, mem[t.header.loadAddr..t.header.loadAddr + t.received])
    && (t.verified <==> t.received == t.header.imageLen)
    && (t.verified ==> Crc.Xor(t.crc, 0xffff_ffff) == t.header.imageCrc32)
  }

  /** Holds in every reachable state, whatever the peer sends. */
  ghost predicate Inv(b: Board, st: Loader) {
    && WINDOW_MIN < b.limits.windowMax <= |st.mem|
    && (st.transfer.Some? ==> TransferOk(b, st.mem, st.transfer.value))
  }

  // ------------------------------------------------------------------- frames

  function HandleData(b: Board, st: Loader, payload: seq<byte>): (r: Reaction)
    requires Inv(b, st)
  {
    if st.transfer.None? then Reaction(st, [SendError(ErrorCode.Unexpected, 0)], None)
    else
      var t := st.transfer.value;
      var d := DataFrame.Decode(payload);
      if d.Err? then Reaction(st, [SendError(ErrorCode.BadLength, 0)], None)
      else if d.value.offset != t.received then Reaction(st, [SendError(ErrorCode.OffsetMismatch, t.received)], None)
      else if t.received + |d.value.chunk| > t.header.imageLen then
        Reaction(st, [SendError(ErrorCode.BadLength, d.value.offset)], None)
      else
        TakeChunk(st, t, d.value.chunk)
  }

  /** An in-order chunk that fits: store it, fold it, and settle a finished image. */
  function TakeChunk(st: Loader, t: Transfer, chunk: seq<byte>): Reaction
    requires t.header.loadAddr + t.received + |chunk| <= |st.mem| && t.received + |chunk| <= t.header.imageLen
  {
    var mem := Write(st.mem, t.header.loadAddr + t.received, chunk);
    var now := t.(received := t.received + |chunk|, crc := Crc.Raw(t.crc, chunk));
    if now.received != t.header.imageLen then
      Reaction(st.(mem := mem, transfer := Some(now)), [SendAck(now.received)], None)
    else
      var got := Crc.Xor(now.crc, 0xffff_ffff);
      if got == t.header.imageCrc32 then
        Reaction(st.(mem := mem, transfer := Some(now.(verified := true))), [SendAck(now.received)], None)
      else
        Reaction(st.(mem := mem, transfer := None), [SendImageCrc(got)], None)
  }

  function HandleMode(b: Board, st: Loader, payload: seq<byte>): Reaction {
    if st.transfer.Some? then Reaction(st, [SendError(ErrorCode.Unexpected, 0)], None)
    else if payload == [] then Reaction(st, [SendError(ErrorCode.BadLength, 0)], None)
    else if payload[0] == MODE_LOW_POWER then
      Reaction(st.(lowPower := true), [Packet(FrameType.Idle, IdleBytes(LOW_POWER_HEARTBEAT_SECS))], None)
    else if payload[0] == MODE_READY then
      Reaction(st.(lowPower := false), [SendReady(b.limits)], None)
    else Reaction(st, [SendError(ErrorCode.Unexpected, payload[0] as nat)], None)
  }

  function HandleHeader(b: Board, st: Loader, payload: seq<byte>): Reaction {
    var h := ImageHeader.FromBytes(payload);
    if h.Err? then Reaction(st, [SendError(ErrorCode.BadLength, 0)], None)
    else
      var refused := ValidateHeader(b, h.value);
      if refused.None? then
        Reaction(st.(transfer := Some(Transfer(h.value, 0, 0xffff_ffff, false))), [SendAck(0)], None)
      else
        Reaction(st.(transfer := None), [SendError(refused.value, 0)], None)
  }

  /** BOOT: the BSS tail is zeroed on the way out. */
  function HandleBoot(b: Board, st: Loader): Reaction
    requires Inv(b, st)
  {
    if st.transfer.Some? && st.transfer.value.verified then
      var h := st.transfer.value.header;
      Reaction(st.(mem := Zeroed(st.mem, h.loadAddr + h.imageLen, h.loadAddr + h.memLen)),
               [SendAck(st.transfer.value.received)],
               Some(Jump(h.loadAddr + h.entryOff, h)))
    else
      Reaction(st, [SendError(ErrorCode.NoImage, 0)], None)
  }

  function HandleFrame(b: Board, st: Loader, ty: FrameType, payload: seq<byte>): Reaction
    requires Inv(b, st)
  {
    match ty
    case Hello => Reaction(st.(transfer := None, lowPower := false), [SendReady(b.limits)], None)
    case Mode => HandleMode(b, st, payload)
    case Header => HandleHeader(b, st, payload)
    case Data => HandleData(b, st, payload)
    case Boot => HandleBoot(b, st)
    case Ready => Reaction(st, [SendError(ErrorCode.Unexpected, 0)], None)
    case Ack => Reaction(st, [SendError(ErrorCode.Unexpected, 0)], None)
    case Error => Reaction(st, [SendError(ErrorCode.Unexpected, 0)], None)
    case Idle => Reaction(st, [SendError(ErrorCode.Unexpected, 0)], None)
  }

  // ------------------------------------------------------------------- events

  /** What the receive loop can meet: a frame, a rejected frame, or three silent seconds. */
  datatype Happening =
    | Arrived(packet: Packet)
    | Garbled(error: Decoding.DecodeError)
    | Expired

  function React(b: Board, st: Loader, e: Happening): Reaction
    requires Inv(b, st)
  {
    match e
    case Arrived(p) => HandleFrame(b, st.(contacted := true), p.ty, p.payload)
    case Garbled(err) =>
      Reaction(st, if st.contacted then [SendError(DecodeErrorCode(err), 0)] else [], None)
    case Expired =>
      if st.transfer.Some? then Reaction(st.(transfer := None, contacted := false), [SendReady(b.limits)], None)
      else Reaction(st, [], None)
  }
}
