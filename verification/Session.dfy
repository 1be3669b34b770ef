/** The host side of a load, as an automaton over the replies it reads.

    Each state of the automaton is a place where the code waits in `expect`; one step
    consumes one reply, or a timeout, and says what is written next. */
module Session {
  import opened Bytes
  import opened Outcomes
  import opened Frame
  import opened Message
  import opened Receive

  const MAX_RETRIES: nat := 5
  const HOST_VERSION: nat := 1

  datatype Image = Image(loadAddr: u64, entryOff: u32, bytes: seq<byte>, memLen: u32, crc32: bv32)

  // ---------------------------------------------------------------- preflight

  /** The host's own check. The 64-bit sum wraps, as in an optimised build. */
  predicate Preflight(ready: ReadyMsg, image: Image, len: u32) {
    && len <= ready.maxImageLen
    && (ready.alignment == 0 || image.loadAddr % ready.alignment == 0)
    && var end := (image.loadAddr + image.memLen) % U64;
       !(image.loadAddr < ready.loadAddrMin || end > ready.loadAddrMax)
  }

  // ----------------------------------------------------------------- messages

  function HeaderOf(image: Image): ImageHeader
    requires |image.bytes| < U32
  {
    ImageHeader(image.loadAddr, |image.bytes|, image.memLen, image.crc32, image.entryOff, 0)
  }

  function HelloPacket(): Packet { Packet(FrameType.Hello, HelloBytes(HOST_VERSION)) }

  function HeaderPacket(image: Image): Packet
    requires |image.bytes| < U32
  {
    Packet(FrameType.Header, HeaderOf(image).ToBytes())
  }

  function EndOf(image: Image, chunk: nat, offset: nat): nat {
    if offset + chunk < |image.bytes| then offset + chunk else |image.bytes|
  }

  /** The DATA frame for the chunk that starts at `offset`. */
  function DataPacket(image: Image, chunk: nat, offset: nat): Packet
    requires offset <= |image.bytes| < U32
  {
    Packet(FrameType.Data, DataFrame(offset, image.bytes[offset..EndOf(image, chunk, offset)]).ToBytes())
  }

  function BootPacket(): Packet { Packet(FrameType.Boot, []) }

  /** `ready.max_chunk.clamp(1, MAX_PAYLOAD - 4)`. */
  function ChunkSize(ready: ReadyMsg): (n: nat)
    ensures 1 <= n <= MAX_CHUNK
  {
    if ready.maxChunk < 1 then 1 else if ready.maxChunk > MAX_CHUNK then MAX_CHUNK else ready.maxChunk
  }

  // ----------------------------------------------------------------- failures

  /** Why a session ends without success. */
  datatype Failure =
    | NoReply
    | LoaderError(code: u16, detail: u32)
    | UnexpectedFrame(ty: FrameType)
    | Malformed
    | ImageTooLarge
    | Refused
    | GaveUp

  /** The code's reading of a reply of the wrong type. */
  function WrongReply(p: Packet): Failure {
    if p.ty != FrameType.Error then UnexpectedFrame(p.ty)
    else if |p.payload| < 6 then Malformed
    else LoaderError(Rd16(p.payload, 0), Rd32(p.payload, 2))
  }

  /** What `expect` fails with when this is not the reply it wants. */
  function Unmet(reply: Option<Packet>): Failure {
    if reply.None? then NoReply else WrongReply(reply.value)
  }

  // ---------------------------------------------------------------- automaton

  datatype RawHost =
    | AwaitReady
    | AwaitHeaderAck(chunk: nat)
    | AwaitData(chunk: nat, offset: nat, attempt: nat)
    | AwaitBootAck
    | Booted
    | Failed(why: Failure)
  {
    predicate Waiting() { !Booted? && !Failed? }
  }

  datatype HostStep = HostStep(next: RawHost, sent: seq<Packet>)

  /** States the code can be in for this image. */
  predicate HostOk(image: Image, h: RawHost) {
    match h
    case AwaitReady => true
    case AwaitHeaderAck(chunk) => 1 <= chunk <= MAX_CHUNK && |image.bytes| < U32
    case AwaitData(chunk, offset, attempt) =>
      1 <= chunk <= MAX_CHUNK && offset < |image.bytes| < U32 && attempt <= MAX_RETRIES
    case AwaitBootAck => true
    case Booted => true
    case Failed(_) => true
  }

  /** The next chunk, or BOOT when there is none. */
  function Proceed(image: Image, chunk: nat, offset: nat): (s: HostStep)
    requires 1 <= chunk <= MAX_CHUNK && offset <= |image.bytes| < U32
    ensures HostOk(image, s.next)
  {
    if offset < |image.bytes| then HostStep(AwaitData(chunk, offset, 0), [DataPacket(image, chunk, offset)])
    else HostStep(AwaitBootAck, [BootPacket()])
  }

  function Retry(image: Image, h: RawHost): (s: HostStep)
    requires HostOk(image, h) && h.AwaitData?
    ensures HostOk(image, s.next)
  {
    if h.attempt < MAX_RETRIES
    then HostStep(h.(attempt := h.attempt + 1), [DataPacket(image, h.chunk, h.offset)])
    else HostStep(Failed(GaveUp), [])
  }

  /** Whether `expect(want)` returns a payload for this reply. */
  predicate IsTy(reply: Option<Packet>, want: FrameType) {
    reply.Some? && reply.value.ty == want
  }

  /** The start of the transfer: preflight, then HEADER. */
  function BeginWith(image: Image, ready: ReadyMsg): (s: HostStep)
    ensures HostOk(image, s.next)
  {
    if |image.bytes| >= U32 then HostStep(Failed(Failure.ImageTooLarge), [])
    else if !Preflight(ready, image, |image.bytes|) then HostStep(Failed(Refused), [])
    else HostStep(AwaitHeaderAck(ChunkSize(ready)), [HeaderPacket(image)])
  }

  /** What follows once READY has been read. */
  function BeginTransfer(image: Image, payload: seq<byte>): (s: HostStep)
    ensures HostOk(image, s.next)
  {
    var ready := ReadyMsg.FromBytes(payload);
    if ready.Err? then HostStep(Failed(Malformed), []) else BeginWith(image, ready.value)
  }

  /** One reply, or `None` for a timeout. */
  function HostReply(image: Image, h: RawHost, reply: Option<Packet>): (s: HostStep)
    requires HostOk(image, h)
    ensures HostOk(image, s.next)
  {
    match h
    case AwaitReady =>
      if IsTy(reply, FrameType.Ready) then BeginTransfer(image, reply.value.payload)
      else HostStep(Failed(Unmet(reply)), [])
    case AwaitHeaderAck(chunk) =>
      if IsTy(reply, FrameType.Ack) then Proceed(image, chunk, 0) else HostStep(Failed(Unmet(reply)), [])
    case AwaitData(chunk, offset, _) =>
      if IsTy(reply, FrameType.Ack) then
        var ack := AckFrom(reply.value.payload);
        if ack.Err? then HostStep(Failed(Malformed), [])
        else if ack.value == EndOf(image, chunk, offset) then Proceed(image, chunk, EndOf(image, chunk, offset))
        else Retry(image, h)
      else Retry(image, h)
    case AwaitBootAck =>
      if IsTy(reply, FrameType.Ack) then HostStep(Booted, []) else HostStep(Failed(Unmet(reply)), [])
    case Booted => HostStep(Booted, [])
    case Failed(_) => HostStep(h, [])
  }

  // ------------------------------------------------------------- termination

  /** Chunks from `offset` to the end. */
  function ChunksLeft(image: Image, chunk: nat, offset: nat): nat
    requires chunk >= 1
    decreases |image.bytes| - offset
  {
    if offset >= |image.bytes| then 0 else 1 + ChunksLeft(image, chunk, EndOf(image, chunk, offset))
  }

  /** The chunk count is the remaining length divided by the chunk size, rounded up. */
  lemma {:induction false} ChunksIsCeiling(image: Image, chunk: nat, offset: nat)
    requires chunk >= 1 && offset <= |image.bytes|
    ensures var k, n := ChunksLeft(image, chunk, offset), |image.bytes| - offset;
      n <= k * chunk < n + chunk && k <= n
    decreases |image.bytes| - offset
  {
    if offset == |image.bytes| {
      assert ChunksLeft(image, chunk, offset) * chunk == 0;
    } else {
      var k := ChunksLeft(image, chunk, EndOf(image, chunk, offset));
      ChunksIsCeiling(image, chunk, EndOf(image, chunk, offset));
      OneMoreChunk(k, chunk);
    }
  }

  lemma OneMoreChunk(k: nat, chunk: nat)
    ensures (1 + k) * chunk == chunk + k * chunk
    ensures k == 0 ==> k * chunk == 0
  {}

  /** An upper bound on the replies the host will still read. */
  function Patience(image: Image, h: RawHost): nat
    requires HostOk(image, h)
  {
    match h
    case AwaitReady => 3 + 6 * |image.bytes|
    case AwaitHeaderAck(chunk) => 2 + 6 * ChunksLeft(image, chunk, 0)
    case AwaitData(chunk, offset, attempt) => 1 + 6 * ChunksLeft(image, chunk, offset) - attempt
    case AwaitBootAck => 1
    case Booted => 0
    case Failed(_) => 0
  }

  /** Whatever it reads, the host gets closer to an end with every reply or timeout:
      a session reads at most three replies plus six for each chunk. */
  lemma EveryReplyCounts(image: Image, h: RawHost, reply: Option<Packet>)
    requires HostOk(image, h) && h.Waiting()
    ensures Patience(image, HostReply(image, h, reply).next) < Patience(image, h)
    ensures |HostReply(image, h, reply).sent| <= 1
  {
    hide ReadyMsg.FromBytes, Preflight, HeaderPacket, DataPacket, AckFrom;
    match h
    case AwaitReady =>
      if IsTy(reply, FrameType.Ready) && ReadyMsg.FromBytes(reply.value.payload).Ok? {
        ChunksIsCeiling(image, ChunkSize(ReadyMsg.FromBytes(reply.value.payload).value), 0);
      }
    case AwaitHeaderAck(chunk) =>
    case AwaitData(chunk, offset, _) =>
    case AwaitBootAck =>
  }
}
