/** Host and loader as one interleaved system over two lossy channels.

    Either channel may drop a frame at any moment; towards the loader a frame may also
    become a detected decode error, and noise may add such errors. A damaged reply is
    skipped by the host, so it counts as dropped. Either side may time out at any
    moment. After the loader has jumped, the payload owns the wire and may say
    anything. */
module Protocol {
  import opened Bytes
  import opened Outcomes
  import opened Frame
  import opened Message
  import opened Receive
  import opened Session
  import opened LoaderSafety
  import Decoding
  import Crc

  datatype Item = Clean(packet: Packet) | Damaged(error: Decoding.DecodeError)

  /** Memory and target at the moment of the jump. */
  datatype Landing = Landing(jump: Jump, mem: seq<byte>)

  datatype World = World(
    host: RawHost, up: seq<Item>, down: seq<Packet>, loader: Loader, landed: Option<Landing>)

  ghost predicate Sane(b: Board, image: Image, w: World) {
    HostOk(image, w.host) && Inv(b, w.loader)
  }

  // --------------------------------------------------------------------- steps

  function CleanAll(ps: seq<Packet>): (s: seq<Item>)
    ensures |s| == |ps| && forall i :: 0 <= i < |ps| ==> s[i] == Clean(ps[i])
  {
    seq(|ps|, i requires 0 <= i < |ps| => Clean(ps[i]))
  }

  function Without<T>(s: seq<T>, i: nat): seq<T>
    requires i < |s|
  {
    s[..i] + s[i + 1..]
  }

  /** The host reads a reply, or gives up waiting for one. */
  function HostActs(image: Image, w: World, reply: Option<Packet>): World
    requires HostOk(image, w.host)
  {
    var s := HostReply(image, w.host, reply);
    w.(host := s.next, up := w.up + CleanAll(s.sent))
  }

  /** The loader meets one event. */
  function LoaderActs(b: Board, w: World, e: Happening): World
    requires Inv(b, w.loader)
  {
    var r := React(b, w.loader, e);
    w.(loader := r.next, down := w.down + r.replies,
       landed := if r.jump.Some? then Some(Landing(r.jump.value, r.next.mem)) else w.landed)
  }

  function EventOf(item: Item): Happening {
    match item
    case Clean(p) => Arrived(p)
    case Damaged(e) => Garbled(e)
  }

  datatype Action =
    | HostHears
    | HostTimesOut
    | LoaderHears
    | LoaderTimesOut
    | LoseUp(at: nat)
    | DamageUp(at: nat, error: Decoding.DecodeError)
    | NoiseUp(at: nat, error: Decoding.DecodeError)
    | LoseDown(at: nat)
    | PayloadSays(packet: Packet)

  predicate Enabled(w: World, act: Action) {
    match act
    case HostHears => w.host.Waiting() && w.down != []
    case HostTimesOut => w.host.Waiting()
    case LoaderHears => w.landed.None? && w.up != []
    case LoaderTimesOut => w.landed.None?
    case LoseUp(at) => at < |w.up|
    case DamageUp(at, _) => at < |w.up|
    case NoiseUp(at, _) => at <= |w.up|
    case LoseDown(at) => at < |w.down|
    case PayloadSays(_) => w.landed.Some?
  }

  function Do(b: Board, image: Image, w: World, act: Action): World
    requires Sane(b, image, w) && Enabled(w, act)
  {
    match act
    case HostHears => HostActs(image, w.(down := w.down[1..]), Some(w.down[0]))
    case HostTimesOut => HostActs(image, w, None)
    case LoaderHears => LoaderActs(b, w.(up := w.up[1..]), EventOf(w.up[0]))
    case LoaderTimesOut => LoaderActs(b, w, Expired)
    case LoseUp(at) => w.(up := Without(w.up, at))
    case DamageUp(at, e) => w.(up := w.up[at := Damaged(e)])
    case NoiseUp(at, e) => w.(up := w.up[..at] + [Damaged(e)] + w.up[at..])
    case LoseDown(at) => w.(down := Without(w.down, at))
    case PayloadSays(p) => w.(down := w.down + [p])
  }

  // ------------------------------------------------------------------ start

  predicate NoAck(down: seq<Packet>) {
    forall i :: 0 <= i < |down| ==> down[i].ty != FrameType.Ack
  }

  /** A session opens with HELLO on the wire, nothing else of an older session going
      up, and no stale ACK coming down. The loader may be in any reachable state, even
      half-way through, or holding a verified image of, an older transfer. */
  ghost predicate Start(b: Board, image: Image, w: World) {
    && Inv(b, w.loader)
    && w.host == AwaitReady
    && w.up == [Clean(HelloPacket())]
    && NoAck(w.down)
    && w.landed.None?
    && image.crc32 == Crc.Checksum(image.bytes)
  }

  // -------------------------------------------------------------- invariant

  /** The live transfer is this session's, with exactly the first `n` bytes stored. */
  ghost predicate Holds(image: Image, st: Loader, n: nat) {
    && |image.bytes| < U32
    && n <= |image.bytes|
    && st.transfer.Some?
    && st.transfer.value.header == HeaderOf(image)
    && st.transfer.value.received == n
    && image.loadAddr + n <= |st.mem|
    && st.mem[image.loadAddr..image.loadAddr + n] == image.bytes[..n]
  }

  /** The transfer was abandoned, or holds exactly `n` bytes. */
  ghost predicate GoneOrHolds(image: Image, st: Loader, n: nat) {
    st.transfer.None? || Holds(image, st, n)
  }

  /** At most one ACK is on its way, and it carries `v`. */
  predicate OneAck(down: seq<Packet>, v: u32) {
    && (forall i :: 0 <= i < |down| && down[i].ty == FrameType.Ack ==> down[i] == SendAck(v))
    && (forall i, j :: 0 <= i < j < |down| ==> down[i].ty != FrameType.Ack || down[j].ty != FrameType.Ack)
  }

  /** A DATA frame carrying the image bytes `[o, e)`. */
  function RangePacket(image: Image, o: nat, e: nat): Packet
    requires o <= e <= |image.bytes| < U32
  {
    Packet(FrameType.Data, DataFrame(o, image.bytes[o..e]).ToBytes())
  }

  /** A DATA frame of this image that starts below `limit`. */
  ghost predicate IsOld(image: Image, p: Packet, limit: nat) {
    |image.bytes| < U32 && exists o: nat, e: nat :: o < limit && o < e <= |image.bytes| && p == RangePacket(image, o, e)
  }

  predicate IsHello(p: Packet) { p.ty == FrameType.Hello }

  // ------------------------------------------------- how the loader reacts

  /** Nothing but an error or a capability report comes back, and memory is kept. */
  ghost predicate Plain(st: Loader, r: Reaction) {
    r.jump.None? && NoAck(r.replies) && r.next.mem == st.mem
  }

  lemma OnHello(b: Board, st: Loader, p: Packet)
    requires Inv(b, st) && IsHello(p)
    ensures var r := React(b, st, Arrived(p)); Plain(st, r) && r.next.transfer.None?
  {
    hide TransferOk, ErrorBytes, ReadyFor;
  }

  lemma OnNoise(b: Board, st: Loader, e: Decoding.DecodeError)
    requires Inv(b, st)
    ensures var r := React(b, st, Garbled(e)); Plain(st, r) && r.next.transfer == st.transfer
  {
    hide TransferOk, ErrorBytes;
  }

  lemma OnSilence(b: Board, st: Loader)
    requires Inv(b, st)
    ensures var r := React(b, st, Expired); Plain(st, r) && r.next.transfer.None?
  {
    hide TransferOk, ReadyFor;
  }

  lemma OnHeader(b: Board, st: Loader, image: Image)
    requires Inv(b, st) && |image.bytes| < U32
    ensures var r := React(b, st, Arrived(HeaderPacket(image)));
      && r.jump.None?
      && (if ValidateHeader(b, HeaderOf(image)).None?
          then r.replies == [SendAck(0)] && Holds(image, r.next, 0) && |image.bytes| > 0
          else Plain(st, r) && r.next.transfer.None?)
  {
    HeaderRoundTrip(HeaderOf(image));
    hide TransferOk, ErrorBytes, ImageHeader.FromBytes, ImageHeader.ToBytes;
    var r := React(b, st, Arrived(HeaderPacket(image)));
    if ValidateHeader(b, HeaderOf(image)).None? {
      assert r.next.mem[image.loadAddr..image.loadAddr + 0] == image.bytes[..0];
    }
  }

  lemma OnStrayData(b: Board, st: Loader, image: Image, o: nat, e: nat)
    requires Inv(b, st) && o <= e <= |image.bytes| < U32
    requires st.transfer.None? || st.transfer.value.received != o
    ensures var r := React(b, st, Arrived(RangePacket(image, o, e)));
      Plain(st, r) && r.next.transfer == st.transfer
  {
    DataRoundTrip(DataFrame(o, image.bytes[o..e]));
    hide TransferOk, ErrorBytes, DataFrame.Decode, DataFrame.ToBytes, TakeChunk;
  }

  /** An in-order chunk that fits is taken. */
  lemma RangeTaken(b: Board, st: Loader, image: Image, o: nat, e: nat)
    requires Inv(b, st) && o <= e <= |image.bytes| < U32
    requires Holds(image, st, o)
    requires image.loadAddr + e <= |st.mem|
    ensures HandleData(b, st, RangePacket(image, o, e).payload) == TakeChunk(st, st.transfer.value, image.bytes[o..e])
  {
    hide Inv, ErrorBytes, DataFrame.Decode, DataFrame.ToBytes, TakeChunk, Crc.Checksum;
    DataRoundTrip(DataFrame(o, image.bytes[o..e]));
  }

  lemma OnNextData(b: Board, st: Loader, image: Image, o: nat, e: nat)
    requires Inv(b, st) && o <= e <= |image.bytes| < U32
    requires Holds(image, st, o) && image.crc32 == Crc.Checksum(image.bytes)
    ensures var r := React(b, st, Arrived(RangePacket(image, o, e)));
      r.jump.None? && r.replies == [SendAck(e)] && Holds(image, r.next, e)
  {
    var on := st.(contacted := true);
    ContactKeepsInv(b, st);
    FootprintFits(b, on);
    hide Inv, HandleData, DataFrame.ToBytes, TakeChunk, Crc.Checksum, AckBytes;
    RangeTaken(b, on, image, o, e);
    ChunkTaken(b, on, image, o, e);
  }

  /** The one accepting path: the chunk lands, and a finished image verifies. */
  lemma ChunkTaken(b: Board, st: Loader, image: Image, o: nat, e: nat)
    requires Inv(b, st) && o <= e <= |image.bytes| < U32
    requires Holds(image, st, o) && image.crc32 == Crc.Checksum(image.bytes)
    requires st.transfer.value.header.loadAddr + e <= |st.mem|
    ensures var r := TakeChunk(st, st.transfer.value, image.bytes[o..e]);
      r.jump.None? && r.replies == [SendAck(e)] && Holds(image, r.next, e)
  {
    hide Write, Crc.Raw, Crc.Xor, AckBytes, ValidateHeader;
    var chunk := image.bytes[o..e];
    var base := image.loadAddr;
    WriteExtends(st.mem, base, o, chunk);
    assert image.bytes[..o] + chunk == image.bytes[..e];
    Crc.RawSplit(0xffff_ffff, image.bytes[..o], chunk);
    assert image.bytes[..|image.bytes|] == image.bytes;
  }

  /** What the host wanted: its bytes, its zeros, its entry. */
  ghost predicate Landed(image: Image, l: Landing) {
    && |image.bytes| <= image.memLen
    && image.loadAddr + image.memLen <= |l.mem|
    && l.mem[image.loadAddr..image.loadAddr + |image.bytes|] == image.bytes
    && (forall a :: image.loadAddr + |image.bytes| <= a < image.loadAddr + image.memLen ==> l.mem[a] == 0)
    && l.jump.entry == image.loadAddr + image.entryOff
    && image.entryOff < |image.bytes|
  }

  lemma OnBoot(b: Board, st: Loader, image: Image)
    requires Inv(b, st) && GoneOrHolds(image, st, |image.bytes|)
    ensures var r := React(b, st, Arrived(BootPacket()));
      if st.transfer.None? then Plain(st, r) && r.next.transfer.None?
      else r.jump.Some? && Landed(image, Landing(r.jump.value, r.next.mem))
  {
    hide ErrorBytes, Crc.Raw, Crc.Xor, AckBytes;
    if st.transfer.Some? {
      var h := st.transfer.value.header;
      var zeros := Zeros(h.memLen - h.imageLen);
      WriteKeeps(st.mem, h.loadAddr + h.imageLen, zeros, h.loadAddr, h.loadAddr + h.imageLen);
      ContactKeepsInv(b, st);
      BootHandsOver(b, st.(contacted := true));
      assert image.bytes[..|image.bytes|] == image.bytes;
    }
  }

  // -------------------------------------------------------- lockstep invariant

  ghost predicate HelloOnly(up: seq<Item>) {
    forall i :: 0 <= i < |up| && up[i].Clean? ==> IsHello(up[i].packet)
  }

  predicate IsHeader(item: Item) { item.Clean? && item.packet.ty == FrameType.Header }

  predicate IsBoot(item: Item) { item.Clean? && item.packet.ty == FrameType.Boot }

  predicate NoHeader(up: seq<Item>) {
    forall i :: 0 <= i < |up| ==> !IsHeader(up[i])
  }

  predicate NoBoot(up: seq<Item>) {
    forall i :: 0 <= i < |up| ==> !IsBoot(up[i])
  }

  /** Going up while the header is outstanding: at most one copy of it. */
  ghost predicate HeaderPhase(image: Image, up: seq<Item>) {
    && |image.bytes| < U32
    && (forall i :: 0 <= i < |up| && up[i].Clean? ==> IsHello(up[i].packet) || up[i].packet == HeaderPacket(image))
    && (forall i, j :: 0 <= i < j < |up| ==> !IsHeader(up[i]) || !IsHeader(up[j]))
  }

  /** Going up while the chunk at `offset` is outstanding: that chunk and older ones. */
  ghost predicate DataPhase(image: Image, chunk: nat, offset: nat, up: seq<Item>) {
    && offset < |image.bytes| < U32
    && forall i :: 0 <= i < |up| && up[i].Clean? ==>
         || IsHello(up[i].packet)
         || IsOld(image, up[i].packet, offset)
         || up[i].packet == DataPacket(image, chunk, offset)
  }

  /** Going up once BOOT is out: BOOT, and any chunk. */
  ghost predicate BootPhase(image: Image, up: seq<Item>) {
    && |image.bytes| < U32
    && forall i :: 0 <= i < |up| && up[i].Clean? ==>
         || IsHello(up[i].packet)
         || IsOld(image, up[i].packet, |image.bytes|)
         || up[i].packet == BootPacket()
  }

  /** Where both ends stand before the jump. */
  ghost predicate Live(image: Image, w: World) {
    match w.host
    case AwaitReady => HelloOnly(w.up) && NoAck(w.down)
    case AwaitHeaderAck(_) =>
      && HeaderPhase(image, w.up)
      && (|| NoAck(w.down)
          || (NoHeader(w.up) && OneAck(w.down, 0) && GoneOrHolds(image, w.loader, 0) && |image.bytes| > 0))
    case AwaitData(chunk, offset, _) =>
      && DataPhase(image, chunk, offset, w.up)
      && (|| (GoneOrHolds(image, w.loader, offset) && NoAck(w.down))
          || (GoneOrHolds(image, w.loader, EndOf(image, chunk, offset)) && OneAck(w.down, EndOf(image, chunk, offset))))
    case AwaitBootAck =>
      BootPhase(image, w.up) && GoneOrHolds(image, w.loader, |image.bytes|) && NoAck(w.down)
    case Booted => false
    case Failed(_) =>
      || NoBoot(w.up)
      || (BootPhase(image, w.up) && GoneOrHolds(image, w.loader, |image.bytes|))
  }

  /** The inductive invariant of a session. */
  ghost predicate Lockstep(b: Board, image: Image, w: World) {
    && Sane(b, image, w)
    && image.crc32 == Crc.Checksum(image.bytes)
    && if w.landed.Some? then Landed(image, w.landed.value) else Live(image, w)
  }

  lemma StartLockstep(b: Board, image: Image, w: World)
    requires Start(b, image, w)
    ensures Lockstep(b, image, w)
  {}

  // ------------------------------------------------------------ channel steps

  lemma LoseDownKeeps(image: Image, w: World, at: nat)
    requires Live(image, w) && at < |w.down|
    ensures Live(image, w.(down := Without(w.down, at)))
  {
    hide RangePacket, DataPacket, HeaderPacket, Holds;
    var d := Without(w.down, at);
    assert forall i :: 0 <= i < |d| ==> d[i] == w.down[if i < at then i else i + 1];
  }

  lemma LoseUpKeeps(image: Image, w: World, at: nat)
    requires Live(image, w) && at < |w.up|
    ensures Live(image, w.(up := Without(w.up, at)))
  {
    hide RangePacket, DataPacket, HeaderPacket, Holds, OneAck, NoAck, IsOld;
    var u := Without(w.up, at);
    assert forall i :: 0 <= i < |u| ==> u[i] == w.up[if i < at then i else i + 1];
  }

  lemma DamageUpKeeps(image: Image, w: World, at: nat, e: Decoding.DecodeError)
    requires Live(image, w) && at < |w.up|
    ensures Live(image, w.(up := w.up[at := Damaged(e)]))
  {
    hide RangePacket, DataPacket, HeaderPacket, Holds, OneAck, NoAck, IsOld;
    var u := w.up[at := Damaged(e)];
    assert forall i :: 0 <= i < |u| && i != at ==> u[i] == w.up[i];
  }

  lemma NoiseUpKeeps(image: Image, w: World, at: nat, e: Decoding.DecodeError)
    requires Live(image, w) && at <= |w.up|
    ensures Live(image, w.(up := w.up[..at] + [Damaged(e)] + w.up[at..]))
  {
    hide RangePacket, DataPacket, HeaderPacket, Holds, OneAck, NoAck, IsOld;
    var u := w.up[..at] + [Damaged(e)] + w.up[at..];
    assert forall i :: 0 <= i < |u| && i != at ==> u[i] == w.up[if i < at then i else i - 1];
  }

  // --------------------------------------------------------------- host steps

  lemma PhaseHasNoBoot(image: Image, w: World)
    requires Live(image, w) && w.host.Waiting() && !w.host.AwaitBootAck?
    ensures NoBoot(w.up)
  {
    hide Holds, OneAck, NoAck;
  }

  /** A timeout, or any reply that is not an ACK. */
  lemma HostUnconvinced(image: Image, w: World, reply: Option<Packet>)
    requires HostOk(image, w.host) && Live(image, w) && w.host.Waiting() && !IsTy(reply, FrameType.Ack)
    ensures Live(image, HostActs(image, w, reply))
  {
    hide Holds, OneAck, NoAck, IsOld, DataPacket, ReadyMsg.FromBytes, Preflight, ImageHeader.ToBytes;
    if !w.host.AwaitBootAck? {
      PhaseHasNoBoot(image, w);
    }
  }

  lemma ChunkBecomesOld(image: Image, w: World, limit: nat)
    requires HostOk(image, w.host) && w.host.AwaitData? && Live(image, w)
    requires limit == EndOf(image, w.host.chunk, w.host.offset)
    ensures forall i :: 0 <= i < |w.up| && w.up[i].Clean? ==>
      IsHello(w.up[i].packet) || IsOld(image, w.up[i].packet, limit)
  {
    hide Holds, OneAck, NoAck, RangePacket;
    DataIsRange(image, w.host.chunk, w.host.offset);
    forall i | 0 <= i < |w.up| && w.up[i].Clean?
      ensures IsHello(w.up[i].packet) || IsOld(image, w.up[i].packet, limit)
    {
      var p := w.up[i].packet;
      if IsOld(image, p, w.host.offset) {
        var o: nat, e: nat :| o < w.host.offset && o < e <= |image.bytes| && p == RangePacket(image, o, e);
        assert o < limit;
      }
    }
  }

  lemma DataIsRange(image: Image, chunk: nat, offset: nat)
    requires 1 <= chunk && offset < |image.bytes| < U32
    ensures offset < EndOf(image, chunk, offset) <= |image.bytes|
    ensures DataPacket(image, chunk, offset) == RangePacket(image, offset, EndOf(image, chunk, offset))
  {}

  /** An ACK: it can only be the one for what is outstanding. */
  lemma HostHearsAck(image: Image, w: World)
    requires HostOk(image, w.host) && Live(image, w) && w.host.Waiting()
    requires w.down != [] && w.down[0].ty == FrameType.Ack
    ensures Live(image, HostActs(image, w.(down := w.down[1..]), Some(w.down[0])))
  {
    hide Holds, IsOld, DataPacket, RangePacket, ToLe;
    var rest := w.down[1..];
    assert forall i :: 0 <= i < |rest| ==> rest[i] == w.down[i + 1];
    assert !NoAck(w.down);
    match w.host
    case AwaitReady =>
    case AwaitHeaderAck(chunk) =>
      assert NoAck(rest);
    case AwaitData(chunk, offset, _) =>
      var end := EndOf(image, chunk, offset);
      AckRoundTrip(end);
      ChunkBecomesOld(image, w, end);
      assert NoAck(rest);
    case AwaitBootAck =>
  }

  // ------------------------------------------------------------- loader steps

  lemma PlainKeeps(image: Image, w: World, r: Reaction)
    requires Live(image, w) && Plain(w.loader, r)
    requires r.next.transfer == w.loader.transfer || r.next.transfer.None?
    ensures Live(image, w.(loader := r.next, down := w.down + r.replies))
  {
    hide IsOld, DataPacket, HeaderPacket, RangePacket;
    var d := w.down + r.replies;
    assert forall i :: |w.down| <= i < |d| ==> d[i] == r.replies[i - |w.down|];
  }

  lemma LoaderHearsDamage(b: Board, image: Image, w: World, e: Decoding.DecodeError)
    requires Inv(b, w.loader) && Live(image, w) && w.landed.None?
    ensures var v := LoaderActs(b, w, Garbled(e)); v.landed.None? && Live(image, v)
  {
    hide React, Live;
    OnNoise(b, w.loader, e);
    PlainKeeps(image, w, React(b, w.loader, Garbled(e)));
  }

  lemma LoaderGivesUp(b: Board, image: Image, w: World)
    requires Inv(b, w.loader) && Live(image, w) && w.landed.None?
    ensures var v := LoaderActs(b, w, Expired); v.landed.None? && Live(image, v)
  {
    hide React, Live;
    OnSilence(b, w.loader);
    PlainKeeps(image, w, React(b, w.loader, Expired));
  }

  lemma LoaderHearsHello(b: Board, image: Image, w: World, p: Packet)
    requires Inv(b, w.loader) && Live(image, w) && w.landed.None? && IsHello(p)
    ensures var v := LoaderActs(b, w, Arrived(p)); v.landed.None? && Live(image, v)
  {
    hide React, Live;
    OnHello(b, w.loader, p);
    PlainKeeps(image, w, React(b, w.loader, Arrived(p)));
  }

  /** The header is taken off the wire: no second copy remains. */
  lemma LoaderHearsHeader(b: Board, image: Image, w: World)
    requires Inv(b, w.loader) && Live(image, w) && w.landed.None?
    requires w.host.AwaitHeaderAck? && NoHeader(w.up) && NoAck(w.down)
    ensures var v := LoaderActs(b, w, Arrived(HeaderPacket(image))); v.landed.None? && Live(image, v)
  {
    hide React, HeaderPacket, ValidateHeader, Holds;
    OnHeader(b, w.loader, image);
    var r := React(b, w.loader, Arrived(HeaderPacket(image)));
    if r.replies == [SendAck(0)] {
      var d := w.down + [SendAck(0)];
      assert d[|w.down|] == SendAck(0);
    } else {
      PlainKeeps(image, w, r);
    }
  }

  /** A chunk older than the outstanding one is refused. */
  lemma LoaderHearsOld(b: Board, image: Image, w: World, p: Packet, n: nat)
    requires Inv(b, w.loader) && Live(image, w) && w.landed.None?
    requires GoneOrHolds(image, w.loader, n) && IsOld(image, p, n)
    ensures var v := LoaderActs(b, w, Arrived(p)); v.landed.None? && Live(image, v)
  {
    hide React, Live, RangePacket;
    var o: nat, e: nat :| o < n && o < e <= |image.bytes| && p == RangePacket(image, o, e);
    OnStrayData(b, w.loader, image, o, e);
    PlainKeeps(image, w, React(b, w.loader, Arrived(p)));
  }

  /** The outstanding chunk: stored once, acknowledged once. */
  lemma LoaderHearsChunk(b: Board, image: Image, w: World)
    requires Inv(b, w.loader) && Live(image, w) && w.landed.None? && HostOk(image, w.host)
    requires w.host.AwaitData? && image.crc32 == Crc.Checksum(image.bytes)
    ensures var v := LoaderActs(b, w, Arrived(DataPacket(image, w.host.chunk, w.host.offset)));
      v.landed.None? && Live(image, v)
  {
    hide React, DataPacket, RangePacket, IsOld;
    var o, e := w.host.offset, EndOf(image, w.host.chunk, w.host.offset);
    DataIsRange(image, w.host.chunk, o);
    var r := React(b, w.loader, Arrived(RangePacket(image, o, e)));
    if w.loader.transfer.Some? && w.loader.transfer.value.received == o {
      OnNextData(b, w.loader, image, o, e);
      var d := w.down + [SendAck(e)];
      assert d[|w.down|] == SendAck(e);
      assert OneAck(d, e);
    } else {
      OnStrayData(b, w.loader, image, o, e);
      PlainKeeps(image, w, r);
    }
  }

  lemma LoaderHearsBoot(b: Board, image: Image, w: World)
    requires Inv(b, w.loader) && Live(image, w) && w.landed.None?
    requires GoneOrHolds(image, w.loader, |image.bytes|)
    ensures var v := LoaderActs(b, w, Arrived(BootPacket()));
      if v.landed.Some? then Landed(image, v.landed.value) else Live(image, v)
  {
    hide React, Live, Landed;
    OnBoot(b, w.loader, image);
    var r := React(b, w.loader, Arrived(BootPacket()));
    if r.jump.None? {
      PlainKeeps(image, w, r);
    }
  }

  /** A session that has failed without sending BOOT can no longer make the loader jump. */
  lemma LoaderAfterFailure(b: Board, image: Image, w: World, p: Packet)
    requires Inv(b, w.loader) && w.landed.None? && w.host.Failed? && NoBoot(w.up) && p.ty != FrameType.Boot
    ensures var v := LoaderActs(b, w, Arrived(p)); v.landed.None? && Live(image, v)
  {
    hide React;
    if React(b, w.loader, Arrived(p)).jump.Some? {
      OnlyBootJumps(b, w.loader, Arrived(p));
    }
  }

  /** What the first item going up can be, by phase. */
  lemma LoaderHearsClean(b: Board, image: Image, w: World, p: Packet, rest: World)
    requires Lockstep(b, image, w) && w.landed.None?
    requires w.up != [] && w.up[0] == Clean(p) && rest == w.(up := w.up[1..])
    requires Live(image, rest)
    ensures var v := LoaderActs(b, rest, Arrived(p));
      if v.landed.Some? then Landed(image, v.landed.value) else Live(image, v)
  {
    hide LoaderActs, Holds, DataPacket, HeaderPacket, IsOld, Landed;
    assert forall i :: 0 <= i < |rest.up| ==> rest.up[i] == w.up[i + 1];
    if IsHello(p) {
      LoaderHearsHello(b, image, rest, p);
    } else if w.host.Failed? && NoBoot(w.up) {
      assert !IsBoot(w.up[0]);
      LoaderAfterFailure(b, image, rest, p);
    } else if w.host.AwaitHeaderAck? {
      HeaderIsHeader(image);
      assert IsHeader(w.up[0]);
      LoaderHearsHeader(b, image, rest);
    } else if w.host.AwaitData? {
      if p == DataPacket(image, w.host.chunk, w.host.offset) {
        LoaderHearsChunk(b, image, rest);
      } else {
        var n := if NoAck(w.down) && GoneOrHolds(image, w.loader, w.host.offset) then w.host.offset
                 else EndOf(image, w.host.chunk, w.host.offset);
        OldGrows(image, p, w.host.offset, n);
        LoaderHearsOld(b, image, rest, p, n);
      }
    } else if p == BootPacket() {
      LoaderHearsBoot(b, image, rest);
    } else {
      LoaderHearsOld(b, image, rest, p, |image.bytes|);
    }
  }

  lemma HeaderIsHeader(image: Image)
    requires |image.bytes| < U32
    ensures HeaderPacket(image).ty == FrameType.Header
  {}

  lemma OldGrows(image: Image, p: Packet, m: nat, n: nat)
    requires IsOld(image, p, m) && m <= n
    ensures IsOld(image, p, n)
  {
    hide RangePacket;
    var o: nat, e: nat :| o < m && o < e <= |image.bytes| && p == RangePacket(image, o, e);
    assert o < n;
  }

  lemma LoaderHearsKeeps(b: Board, image: Image, w: World)
    requires Lockstep(b, image, w) && Enabled(w, LoaderHears)
    ensures Lockstep(b, image, Do(b, image, w, LoaderHears))
  {
    hide Live, React, Landed, Inv;
    var rest := w.(up := w.up[1..]);
    assert Without(w.up, 0) == w.up[1..];
    LoseUpKeeps(image, w, 0);
    ReactKeepsInv(b, w.loader, EventOf(w.up[0]));
    match w.up[0]
    case Clean(p) => LoaderHearsClean(b, image, w, p, rest);
    case Damaged(e) => LoaderHearsDamage(b, image, rest, e);
  }

  lemma HostHearsKeeps(b: Board, image: Image, w: World)
    requires Lockstep(b, image, w) && Enabled(w, HostHears)
    ensures Lockstep(b, image, Do(b, image, w, HostHears))
  {
    hide Live, Landed, Inv, HostReply;
    if w.landed.None? {
      if w.down[0].ty == FrameType.Ack {
        HostHearsAck(image, w);
      } else {
        assert Without(w.down, 0) == w.down[1..];
        LoseDownKeeps(image, w, 0);
        HostUnconvinced(image, w.(down := w.down[1..]), Some(w.down[0]));
      }
    }
  }

  /** Every step of either side, and everything the channels can do, keeps the invariant. */
  lemma StepKeepsLockstep(b: Board, image: Image, w: World, act: Action)
    requires Lockstep(b, image, w) && Enabled(w, act)
    ensures Lockstep(b, image, Do(b, image, w, act))
  {
    hide Live, Landed, Inv, HostReply, React;
    match act
    case HostHears => HostHearsKeeps(b, image, w);
    case HostTimesOut =>
      if w.landed.None? {
        HostUnconvinced(image, w, None);
      }
    case LoaderHears => LoaderHearsKeeps(b, image, w);
    case LoaderTimesOut =>
      ReactKeepsInv(b, w.loader, Expired);
      LoaderGivesUp(b, image, w);
    case LoseUp(at) =>
      if w.landed.None? { LoseUpKeeps(image, w, at); }
    case DamageUp(at, e) =>
      if w.landed.None? { DamageUpKeeps(image, w, at, e); }
    case NoiseUp(at, e) =>
      if w.landed.None? { NoiseUpKeeps(image, w, at, e); }
    case LoseDown(at) =>
      if w.landed.None? { LoseDownKeeps(image, w, at); }
    case PayloadSays(_) =>
  }

  // --------------------------------------------------------------- whole runs

  /** All the nondeterminism is in the actions, so a run is a list of them. */
  ghost predicate Runs(b: Board, image: Image, w: World, acts: seq<Action>)
    decreases |acts|
  {
    acts == [] || (Sane(b, image, w) && Enabled(w, acts[0]) && Runs(b, image, Do(b, image, w, acts[0]), acts[1..]))
  }

  ghost function Exec(b: Board, image: Image, w: World, acts: seq<Action>): World
    requires Runs(b, image, w, acts)
    decreases |acts|
  {
    if acts == [] then w else Exec(b, image, Do(b, image, w, acts[0]), acts[1..])
  }

  lemma {:induction false} RunKeepsLockstep(b: Board, image: Image, w: World, acts: seq<Action>)
    requires Runs(b, image, w, acts) && Lockstep(b, image, w)
    ensures Lockstep(b, image, Exec(b, image, w, acts))
    decreases |acts|
  {
    hide Lockstep, Do, Sane, Enabled;
    if acts != [] {
      StepKeepsLockstep(b, image, w, acts[0]);
      RunKeepsLockstep(b, image, Do(b, image, w, acts[0]), acts[1..]);
    }
  }

  /** Safety of a load, over every run of the system: if the host reports success, the
      loader has jumped to the requested entry with the image in memory byte for byte
      and its BSS tail zero; and the loader never jumps to anything else. */
  lemma BootedMeansLanded(b: Board, image: Image, w: World, acts: seq<Action>)
    requires Runs(b, image, w, acts) && Start(b, image, w)
    ensures var v := Exec(b, image, w, acts);
      && (v.host.Booted? ==> v.landed.Some?)
      && (v.landed.Some? ==> Landed(image, v.landed.value))
  {
    hide Landed, Inv;
    StartLockstep(b, image, w);
    RunKeepsLockstep(b, image, w, acts);
  }

  /** While the session is alive, DATA never ends a transfer: the CRC in the header is
      the image's own, so the loader's ImageCrc error cannot fire. */
  lemma ImageCrcNeverFires(b: Board, image: Image, w: World)
    requires Lockstep(b, image, w) && w.landed.None? && w.host.Waiting() && Enabled(w, LoaderHears)
    requires w.up[0].Clean? && w.up[0].packet.ty == FrameType.Data && w.loader.transfer.Some?
    ensures Do(b, image, w, LoaderHears).loader.transfer.Some?
  {
    hide React, Inv, RangePacket, Crc.Checksum, OneAck, NoAck;
    var p := w.up[0].packet;
    var st := w.loader;
    if w.host.AwaitData? && p == DataPacket(image, w.host.chunk, w.host.offset) {
      var o, e := w.host.offset, EndOf(image, w.host.chunk, w.host.offset);
      DataIsRange(image, w.host.chunk, o);
      if st.transfer.value.received == o {
        OnNextData(b, st, image, o, e);
      } else {
        OnStrayData(b, st, image, o, e);
      }
    } else {
      var limit := if w.host.AwaitData? then w.host.offset else |image.bytes|;
      assert IsOld(image, p, limit);
      var o: nat, e: nat :| o < limit && o < e <= |image.bytes| && p == RangePacket(image, o, e);
      OnStrayData(b, st, image, o, e);
    }
  }
}
