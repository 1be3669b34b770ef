/** What retries recover from, and what they do not.

    A damaged DATA frame is recovered by resending it. A lost ACK is not: the loader
    has moved on, answers the resend with OffsetMismatch, and the host never uses the
    offset that error reports. */
module Recovery {
  import opened Bytes
  import opened Outcomes
  import opened Frame
  import opened Message
  import opened Receive
  import opened Session
  import opened LoaderSafety
  import opened Protocol
  import Decoding
  import Crc

  // ----------------------------------------------------------------- lost ACK

  /** The loader has the outstanding chunk, or has given up, and no ACK is on its way. */
  ghost predicate Stuck(b: Board, image: Image, w: World, chunk: nat, offset: nat) {
    && Sane(b, image, w)
    && w.landed.None?
    && 1 <= chunk
    && DataPhase(image, chunk, offset, w.up)
    && (w.host.Failed? || (w.host.AwaitData? && w.host.chunk == chunk && w.host.offset == offset))
    && GoneOrHolds(image, w.loader, EndOf(image, chunk, offset))
    && NoAck(w.down)
  }

  lemma PlainStaysStuck(b: Board, image: Image, w: World, chunk: nat, offset: nat, r: Reaction)
    requires Stuck(b, image, w, chunk, offset) && Plain(w.loader, r) && Inv(b, r.next)
    requires r.next.transfer == w.loader.transfer || r.next.transfer.None?
    ensures Stuck(b, image, w.(loader := r.next, down := w.down + r.replies), chunk, offset)
  {
    hide DataPhase, Inv;
    var d := w.down + r.replies;
    assert forall i :: |w.down| <= i < |d| ==> d[i] == r.replies[i - |w.down|];
  }

  lemma StuckLoaderHears(b: Board, image: Image, w: World, chunk: nat, offset: nat)
    requires Stuck(b, image, w, chunk, offset) && w.up != []
    ensures Stuck(b, image, Do(b, image, w, LoaderHears), chunk, offset)
  {
    hide React, RangePacket, Inv, Holds;
    var rest := w.(up := w.up[1..]);
    assert forall i :: 0 <= i < |rest.up| ==> rest.up[i] == w.up[i + 1];
    assert Stuck(b, image, rest, chunk, offset);
    var e := EventOf(w.up[0]);
    ReactKeepsInv(b, w.loader, e);
    match w.up[0] {
      case Damaged(err) => OnNoise(b, w.loader, err);
      case Clean(p) =>
        if IsHello(p) {
          OnHello(b, w.loader, p);
        } else {
          var o, end := StuckDataIsStray(b, image, w, chunk, offset, p);
          OnStrayData(b, w.loader, image, o, end);
        }
    }
    PlainStaysStuck(b, image, rest, chunk, offset, React(b, w.loader, e));
  }

  lemma StuckDataIsStray(b: Board, image: Image, w: World, chunk: nat, offset: nat, p: Packet)
    returns (o: nat, end: nat)
    requires Stuck(b, image, w, chunk, offset) && w.up != [] && w.up[0] == Clean(p) && !IsHello(p)
    ensures o <= end <= |image.bytes| < U32 && p == RangePacket(image, o, end)
    ensures w.loader.transfer.None? || w.loader.transfer.value.received != o
  {
    hide Inv, RangePacket, DataPacket;
    if p == DataPacket(image, chunk, offset) {
      DataIsRange(image, chunk, offset);
      o, end := offset, EndOf(image, chunk, offset);
    } else {
      assert IsOld(image, p, offset);
      o, end :| o < offset && o < end <= |image.bytes| && p == RangePacket(image, o, end);
    }
  }

  lemma StuckHost(b: Board, image: Image, w: World, chunk: nat, offset: nat, reply: Option<Packet>)
    requires Stuck(b, image, w, chunk, offset) && !IsTy(reply, FrameType.Ack)
    ensures Stuck(b, image, HostActs(image, w, reply), chunk, offset)
  {
    hide Inv, Holds, IsOld, NoAck, DataPacket;
  }

  /** No step of either side, and nothing the channels do, gets the session unstuck. */
  lemma StuckStaysStuck(b: Board, image: Image, w: World, chunk: nat, offset: nat, act: Action)
    requires Stuck(b, image, w, chunk, offset) && Enabled(w, act)
    ensures Stuck(b, image, Do(b, image, w, act), chunk, offset)
  {
    hide Inv, Holds, IsOld, DataPacket, HostActs, React;
    match act
    case HostHears =>
      var heard := w.(down := w.down[1..]);
      assert forall i :: 0 <= i < |heard.down| ==> heard.down[i] == w.down[i + 1];
      StuckHost(b, image, heard, chunk, offset, Some(w.down[0]));
    case HostTimesOut => StuckHost(b, image, w, chunk, offset, None);
    case LoaderHears => StuckLoaderHears(b, image, w, chunk, offset);
    case LoaderTimesOut =>
      ReactKeepsInv(b, w.loader, Expired);
      OnSilence(b, w.loader);
      PlainStaysStuck(b, image, w, chunk, offset, React(b, w.loader, Expired));
    case LoseUp(at) =>
      var u := Without(w.up, at);
      assert forall i :: 0 <= i < |u| ==> u[i] == w.up[if i < at then i else i + 1];
    case DamageUp(at, e) =>
    case NoiseUp(at, e) =>
      var u := w.up[..at] + [Damaged(e)] + w.up[at..];
      assert forall i :: 0 <= i < |u| && i != at ==> u[i] == w.up[if i < at then i else i - 1];
    case LoseDown(at) =>
      var d := Without(w.down, at);
      assert forall i :: 0 <= i < |d| ==> d[i] == w.down[if i < at then i else i + 1];
    case PayloadSays(_) =>
  }

  /** A lost ACK is fatal: from such a world no run ever reports success or jumps. */
  lemma {:induction false} LostAckIsFatal(b: Board, image: Image, w: World, acts: seq<Action>, chunk: nat, offset: nat)
    requires Runs(b, image, w, acts) && Stuck(b, image, w, chunk, offset)
    ensures Stuck(b, image, Exec(b, image, w, acts), chunk, offset)
    ensures !Exec(b, image, w, acts).host.Booted? && Exec(b, image, w, acts).landed.None?
    decreases |acts|
  {
    hide Do, Sane, DataPhase, GoneOrHolds, NoAck, Enabled;
    if acts != [] {
      StuckStaysStuck(b, image, w, chunk, offset, acts[0]);
      LostAckIsFatal(b, image, Do(b, image, w, acts[0]), acts[1..], chunk, offset);
    }
  }

  // ------------------------------------------------------- scheduled executions

  /** Frames the host writes in one action. */
  function Writes(image: Image, w: World, act: Action): nat
    requires HostOk(image, w.host) && Enabled(w, act)
  {
    match act
    case HostHears => |HostReply(image, w.host, Some(w.down[0])).sent|
    case HostTimesOut => |HostReply(image, w.host, None).sent|
    case _ => 0
  }

  ghost function Written(b: Board, image: Image, w: World, acts: seq<Action>): nat
    requires Runs(b, image, w, acts)
    decreases |acts|
  {
    if acts == [] then 0
    else Writes(image, w, acts[0]) + Written(b, image, Do(b, image, w, acts[0]), acts[1..])
  }

  /** Starting in `w`, the schedule leads to `v` and makes the host write `n` frames. */
  ghost predicate Leads(b: Board, image: Image, w: World, acts: seq<Action>, v: World, n: nat) {
    Runs(b, image, w, acts) && Exec(b, image, w, acts) == v && Written(b, image, w, acts) == n
  }

  lemma LeadsNowhere(b: Board, image: Image, w: World)
    ensures Leads(b, image, w, [], w, 0)
  {}

  lemma LeadsFirst(b: Board, image: Image, w: World, act: Action, acts: seq<Action>, v: World, n: nat)
    requires Sane(b, image, w) && Enabled(w, act)
    requires Leads(b, image, Do(b, image, w, act), acts, v, n)
    ensures Leads(b, image, w, [act] + acts, v, Writes(image, w, act) + n)
  {
    hide Do, Sane, Enabled, Writes;
    assert ([act] + acts)[1..] == acts;
  }

  lemma {:induction false} LeadsThen(
    b: Board, image: Image, w: World, p: seq<Action>, u: World, m: nat, q: seq<Action>, v: World, n: nat)
    requires Leads(b, image, w, p, u, m) && Leads(b, image, u, q, v, n)
    ensures Leads(b, image, w, p + q, v, m + n)
    decreases |p|
  {
    hide Do, Sane, Enabled, Writes;
    if p == [] {
      assert p + q == q;
    } else {
      assert (p + q)[1..] == p[1..] + q;
      var x := Do(b, image, w, p[0]);
      LeadsThen(b, image, x, p[1..], u, Written(b, image, x, p[1..]), q, v, n);
    }
  }

  // -------------------------------------------------------------- one send

  /** Quiet channels apart from the outstanding chunk, on its given attempt. */
  ghost predicate Sent(b: Board, image: Image, w: World, chunk: nat, offset: nat, attempt: nat) {
    && Sane(b, image, w)
    && image.crc32 == Crc.Checksum(image.bytes)
    && w.landed.None?
    && w.host == AwaitData(chunk, offset, attempt)
    && w.up == [Clean(DataPacket(image, chunk, offset))]
    && w.down == []
    && Holds(image, w.loader, offset)
  }

  /** The same, with a loader that answers noise: one that has heard a frame. */
  ghost predicate Calm(b: Board, image: Image, w: World, chunk: nat, offset: nat, attempt: nat) {
    Sent(b, image, w, chunk, offset, attempt) && w.loader.contacted
  }

  const NOISE: Decoding.DecodeError := Decoding.BadCrc(0, 0)

  function DamagedSend(): seq<Action> { [DamageUp(0, NOISE), LoaderHears, HostHears] }

  function CleanSend(): seq<Action> { [LoaderHears, HostHears] }

  /** A damaged send is answered by ERROR and sent again, up to the retry limit. */
  lemma DamagedSendRetries(b: Board, image: Image, w: World, chunk: nat, offset: nat, attempt: nat)
    requires Calm(b, image, w, chunk, offset, attempt)
    ensures w.host.AwaitData? && w.host.attempt == attempt
    ensures attempt < MAX_RETRIES ==>
      && Leads(b, image, w, DamagedSend(), w.(host := w.host.(attempt := attempt + 1)), 1)
      && Calm(b, image, w.(host := w.host.(attempt := attempt + 1)), chunk, offset, attempt + 1)
    ensures attempt == MAX_RETRIES ==>
      Leads(b, image, w, DamagedSend(), w.(host := Failed(GaveUp), up := []), 0)
  {
    hide Holds, Inv, DataPacket, ErrorBytes, React, Crc.Checksum, Leads;
    var w1 := w.(up := [Damaged(NOISE)]);
    assert Do(b, image, w, DamageUp(0, NOISE)) == w1;
    DamagedAnswer(b, w.loader);
    var err := SendError(ErrorCode.BadCrc, 0);
    var w2 := w.(up := [], down := [err]);
    assert Do(b, image, w1, LoaderHears) == w2;
    var v := HostActs(image, w2.(down := []), Some(err));
    assert Do(b, image, w2, HostHears) == v;
    DamagedLeads(b, image, w, w1, w2, v);
    assert CleanAll([DataPacket(image, chunk, offset)]) == [Clean(DataPacket(image, chunk, offset))];
    assert w.up == [] + CleanAll([DataPacket(image, chunk, offset)]);
    assert [] + CleanAll([]) == [];
  }

  lemma DamagedLeads(b: Board, image: Image, w: World, w1: World, w2: World, v: World)
    requires Sane(b, image, w) && Enabled(w, DamageUp(0, NOISE)) && Do(b, image, w, DamageUp(0, NOISE)) == w1
    requires Sane(b, image, w1) && Enabled(w1, LoaderHears) && Do(b, image, w1, LoaderHears) == w2
    requires Sane(b, image, w2) && Enabled(w2, HostHears) && Do(b, image, w2, HostHears) == v
    ensures Leads(b, image, w, DamagedSend(), v, Writes(image, w2, HostHears))
  {
    hide Do, Enabled, Leads, HostOk, Inv;
    var n := Writes(image, w2, HostHears);
    TwoActions(b, image, w1, w2, v, n);
    LeadsFirst(b, image, w, DamageUp(0, NOISE), CleanSend(), v, n);
    assert [DamageUp(0, NOISE)] + CleanSend() == DamagedSend();
  }

  lemma DamagedAnswer(b: Board, st: Loader)
    requires Inv(b, st) && st.contacted
    ensures React(b, st, Garbled(NOISE)) == Reaction(st, [SendError(ErrorCode.BadCrc, 0)], None)
  {
    hide ErrorBytes, Inv;
  }

  /** Everything stored and acknowledged, BOOT on its way. */
  ghost predicate BootSent(b: Board, image: Image, w: World) {
    && Sane(b, image, w)
    && w.landed.None?
    && |image.bytes| < U32
    && w.host == AwaitBootAck
    && w.up == [Clean(BootPacket())]
    && w.down == []
    && Holds(image, w.loader, |image.bytes|)
  }

  lemma TwoActions(b: Board, image: Image, w: World, u: World, v: World, n: nat)
    requires Sane(b, image, w) && Enabled(w, LoaderHears) && Do(b, image, w, LoaderHears) == u
    requires Sane(b, image, u) && Enabled(u, HostHears) && Do(b, image, u, HostHears) == v
    requires n == Writes(image, u, HostHears)
    ensures Leads(b, image, w, CleanSend(), v, n)
  {
    hide Do, Sane, Enabled;
    LeadsNowhere(b, image, v);
    LeadsFirst(b, image, u, HostHears, [], v, 0);
    LeadsFirst(b, image, w, LoaderHears, [HostHears], v, n);
    assert [HostHears] + [] == [HostHears];
    assert [LoaderHears] + [HostHears] == CleanSend();
  }

  lemma DataContacts(b: Board, st: Loader, payload: seq<byte>)
    requires Inv(b, st) && st.contacted
    ensures HandleData(b, st, payload).next.contacted
  {
    hide Crc.Raw, Crc.Xor, Write, ValidateHeader, ErrorBytes, AckBytes, DataFrame.Decode;
  }

  lemma HeaderContacts(b: Board, st: Loader, payload: seq<byte>)
    requires st.contacted
    ensures HandleHeader(b, st, payload).next.contacted
  {
    hide ValidateHeader, ErrorBytes, AckBytes, ImageHeader.FromBytes;
  }

  lemma BootContacts(b: Board, st: Loader)
    requires Inv(b, st) && st.contacted
    ensures HandleBoot(b, st).next.contacted
  {
    hide TransferOk, Zeroed, SendAck, SendError;
  }

  lemma FrameContacts(b: Board, st: Loader, p: Packet)
    requires Inv(b, st)
    ensures React(b, st, Arrived(p)).next.contacted
  {
    hide Inv, HandleData, HandleHeader, HandleBoot, SendReady, SendError, IdleBytes;
    var on := st.(contacted := true);
    ContactKeepsInv(b, st);
    DataContacts(b, on, p.payload);
    HeaderContacts(b, on, p.payload);
    BootContacts(b, on);
  }

  /** An undamaged send is stored, acknowledged, and followed by the next frame. */
  lemma CleanSendAdvances(b: Board, image: Image, w: World, chunk: nat, offset: nat, attempt: nat) returns (v: World)
    requires Sent(b, image, w, chunk, offset, attempt)
    ensures Leads(b, image, w, CleanSend(), v, 1)
    ensures var end := EndOf(image, chunk, offset);
      if end < |image.bytes| then Calm(b, image, v, chunk, end, 0) else BootSent(b, image, v)
  {
    hide Holds, DataPacket, RangePacket, React, Crc.Checksum, ToLe, TransferOk;
    var end := EndOf(image, chunk, offset);
    var p := DataPacket(image, chunk, offset);
    DataIsRange(image, chunk, offset);
    ReactKeepsInv(b, w.loader, Arrived(p));
    OnNextData(b, w.loader, image, offset, end);
    FrameContacts(b, w.loader, p);
    var r := React(b, w.loader, Arrived(p));
    var u := w.(up := [], down := [SendAck(end)], loader := r.next);
    assert Do(b, image, w, LoaderHears) == u by {
      assert [] + [SendAck(end)] == [SendAck(end)];
    }
    AckRoundTrip(end);
    v := HostActs(image, u.(down := []), Some(SendAck(end)));
    assert Do(b, image, u, HostHears) == v;
    TwoActions(b, image, w, u, v, 1);
    assert v.up == [Clean(if end < |image.bytes| then DataPacket(image, chunk, end) else BootPacket())];
  }

  lemma CalmIsSent(b: Board, image: Image, w: World, chunk: nat, offset: nat, attempt: nat)
    requires Calm(b, image, w, chunk, offset, attempt)
    ensures Sent(b, image, w, chunk, offset, attempt)
  {}

  /** `k` damaged sends, then a clean one. */
  function Damage(k: nat): seq<Action> {
    if k == 0 then [] else DamagedSend() + Damage(k - 1)
  }

  lemma {:induction false} ChunkGetsThrough(
    b: Board, image: Image, w: World, chunk: nat, offset: nat, attempt: nat, k: nat)
    returns (v: World)
    requires Calm(b, image, w, chunk, offset, attempt) && attempt + k <= MAX_RETRIES
    ensures Leads(b, image, w, Damage(k) + CleanSend(), v, k + 1)
    ensures var end := EndOf(image, chunk, offset);
      if end < |image.bytes| then Calm(b, image, v, chunk, end, 0) else BootSent(b, image, v)
    decreases k
  {
    hide Leads, Calm, Sent, BootSent, DamagedSend, CleanSend;
    if k == 0 {
      CalmIsSent(b, image, w, chunk, offset, attempt);
      v := CleanSendAdvances(b, image, w, chunk, offset, attempt);
      assert [] + CleanSend() == CleanSend();
    } else {
      DamagedSendRetries(b, image, w, chunk, offset, attempt);
      var u := w.(host := w.host.(attempt := attempt + 1));
      v := ChunkGetsThrough(b, image, u, chunk, offset, attempt + 1, k - 1);
      LeadsThen(b, image, w, DamagedSend(), u, 1, Damage(k - 1) + CleanSend(), v, k);
      assert Damage(k) + CleanSend() == DamagedSend() + (Damage(k - 1) + CleanSend());
    }
  }

  function Schedule(ks: seq<nat>): seq<Action> {
    if ks == [] then [] else Damage(ks[0]) + CleanSend() + Schedule(ks[1..])
  }

  function Sum(ks: seq<nat>): nat {
    if ks == [] then 0 else ks[0] + Sum(ks[1..])
  }

  lemma {:induction false} ChunksGetThrough(b: Board, image: Image, w: World, chunk: nat, offset: nat, ks: seq<nat>)
    returns (v: World)
    requires Calm(b, image, w, chunk, offset, 0) && |ks| == ChunksLeft(image, chunk, offset)
    requires forall i :: 0 <= i < |ks| ==> ks[i] <= MAX_RETRIES
    ensures Leads(b, image, w, Schedule(ks), v, Sum(ks) + |ks|) && BootSent(b, image, v)
    decreases |ks|
  {
    hide Leads, Calm, BootSent, Damage, CleanSend;
    CalmOffset(b, image, w, chunk, offset);
    var end := EndOf(image, chunk, offset);
    var u := ChunkGetsThrough(b, image, w, chunk, offset, 0, ks[0]);
    var first := Damage(ks[0]) + CleanSend();
    if end < |image.bytes| {
      v := ChunksGetThrough(b, image, u, chunk, end, ks[1..]);
      LeadsThen(b, image, w, first, u, ks[0] + 1, Schedule(ks[1..]), v, Sum(ks[1..]) + |ks| - 1);
    } else {
      v := u;
      assert ks[1..] == [];
      assert first + [] == first;
    }
  }

  lemma CalmOffset(b: Board, image: Image, w: World, chunk: nat, offset: nat)
    requires Calm(b, image, w, chunk, offset, 0)
    ensures offset < |image.bytes| && chunk >= 1 && ChunksLeft(image, chunk, offset) >= 1
  {
    hide Holds, Inv;
  }

  /** BOOT is acknowledged and the loader jumps with the image in place. */
  lemma BootGetsThrough(b: Board, image: Image, w: World) returns (v: World)
    requires BootSent(b, image, w)
    ensures Leads(b, image, w, CleanSend(), v, 0)
    ensures v.host.Booted? && v.landed.Some? && Landed(image, v.landed.value)
  {
    hide Holds, React, Landed, TransferOk, ErrorBytes;
    HoldsSome(image, w.loader, |image.bytes|);
    OnBoot(b, w.loader, image);
    BootReplies(b, w.loader);
    ReactKeepsInv(b, w.loader, Arrived(BootPacket()));
    var r := React(b, w.loader, Arrived(BootPacket()));
    var u := w.(up := [], down := r.replies, loader := r.next, landed := Some(Landing(r.jump.value, r.next.mem)));
    assert Do(b, image, w, LoaderHears) == u by {
      assert [] + r.replies == r.replies;
    }
    v := HostActs(image, u.(down := []), Some(r.replies[0]));
    assert Do(b, image, u, HostHears) == v;
    TwoActions(b, image, w, u, v, 0);
  }

  lemma HoldsSome(image: Image, st: Loader, n: nat)
    requires Holds(image, st, n)
    ensures st.transfer.Some?
  {}

  lemma BootReplies(b: Board, st: Loader)
    requires Inv(b, st)
    ensures var r := React(b, st, Arrived(BootPacket()));
      r.jump.Some? ==> |r.replies| == 1 && r.replies[0].ty == FrameType.Ack
  {
    hide TransferOk, ErrorBytes, AckBytes, Zeroed;
  }

  // ------------------------------------------------------------ the whole load

  /** Both sides admit the image. */
  ghost predicate Admissible(b: Board, image: Image) {
    && |image.bytes| < U32
    && Preflight(ReadyFor(b.limits), image, |image.bytes|)
    && ValidateHeader(b, HeaderOf(image)).None?
  }

  lemma HelloGetsThrough(b: Board, image: Image, w: World) returns (v: World)
    requires Start(b, image, w) && w.down == [] && Admissible(b, image)
    ensures Leads(b, image, w, CleanSend(), v, 1)
    ensures Sane(b, image, v) && v.landed.None? && v.down == [] && v.up == [Clean(HeaderPacket(image))]
    ensures v.host == AwaitHeaderAck(MAX_CHUNK)
  {
    hide React, Preflight, TransferOk, ValidateHeader, HeaderPacket, Crc.Checksum, ReadyMsg.FromBytes, ReadyMsg.ToBytes;
    HelloReplies(b, w.loader);
    ReactKeepsInv(b, w.loader, Arrived(HelloPacket()));
    var r := React(b, w.loader, Arrived(HelloPacket()));
    var u := w.(up := [], down := [SendReady(b.limits)], loader := r.next);
    assert Do(b, image, w, LoaderHears) == u by {
      assert [] + r.replies == r.replies;
    }
    ReadyRoundTrip(ReadyFor(b.limits));
    v := HostActs(image, u.(down := []), Some(SendReady(b.limits)));
    assert Do(b, image, u, HostHears) == v;
    TwoActions(b, image, w, u, v, 1);
    assert v.up == [Clean(HeaderPacket(image))];
  }

  lemma HelloReplies(b: Board, st: Loader)
    requires Inv(b, st)
    ensures var r := React(b, st, Arrived(HelloPacket())); r.replies == [SendReady(b.limits)] && r.jump.None?
  {
    hide TransferOk, ReadyFor;
  }

  lemma HeaderGetsThrough(b: Board, image: Image, w: World) returns (v: World)
    requires Admissible(b, image)
    requires Sane(b, image, w) && w.landed.None? && w.down == [] && w.up == [Clean(HeaderPacket(image))]
    requires w.host == AwaitHeaderAck(MAX_CHUNK) && image.crc32 == Crc.Checksum(image.bytes)
    ensures Leads(b, image, w, CleanSend(), v, 1)
    ensures Calm(b, image, v, MAX_CHUNK, 0, 0)
  {
    hide React, Preflight, TransferOk, ValidateHeader, HeaderPacket, Crc.Checksum, Holds, DataPacket;
    var p := HeaderPacket(image);
    OnHeader(b, w.loader, image);
    FrameContacts(b, w.loader, p);
    ReactKeepsInv(b, w.loader, Arrived(p));
    var r := React(b, w.loader, Arrived(p));
    var u := w.(up := [], down := [SendAck(0)], loader := r.next);
    assert Do(b, image, w, LoaderHears) == u by {
      assert [] + r.replies == r.replies;
    }
    v := HostActs(image, u.(down := []), Some(SendAck(0)));
    assert Do(b, image, u, HostHears) == v;
    TwoActions(b, image, w, u, v, 1);
    assert v.up == [Clean(DataPacket(image, MAX_CHUNK, 0))];
  }

  function Load(ks: seq<nat>): seq<Action> {
    CleanSend() + CleanSend() + Schedule(ks) + CleanSend()
  }

  /** Progress: for an admissible image, with no reply lost and each chunk damaged at
      most five times, the load succeeds, and the host writes one HEADER, one BOOT and,
      for each chunk, one DATA frame more than that chunk's damaged sends. */
  lemma LoadGetsThrough(b: Board, image: Image, w: World, ks: seq<nat>) returns (v: World)
    requires Start(b, image, w) && w.down == [] && Admissible(b, image)
    requires |ks| == ChunksLeft(image, MAX_CHUNK, 0)
    requires forall i :: 0 <= i < |ks| ==> ks[i] <= MAX_RETRIES
    ensures Leads(b, image, w, Load(ks), v, 2 + Sum(ks) + |ks|)
    ensures v.host.Booted? && v.landed.Some? && Landed(image, v.landed.value)
    ensures Sum(ks) + |ks| <= 6 * ChunksLeft(image, MAX_CHUNK, 0)
  {
    hide Leads, Calm, BootSent, CleanSend, Schedule, Sane, Landed, Admissible, Crc.Checksum;
    var w1 := HelloGetsThrough(b, image, w);
    var w2 := HeaderGetsThrough(b, image, w1);
    var w3 := ChunksGetThrough(b, image, w2, MAX_CHUNK, 0, ks);
    v := BootGetsThrough(b, image, w3);
    var n := Sum(ks) + |ks|;
    LeadsThen(b, image, w, CleanSend(), w1, 1, CleanSend(), w2, 1);
    LeadsThen(b, image, w, CleanSend() + CleanSend(), w2, 2, Schedule(ks), w3, n);
    LeadsThen(b, image, w, CleanSend() + CleanSend() + Schedule(ks), w3, 2 + n, CleanSend(), v, 0);
    SumBound(ks);
  }

  lemma {:induction false} SumBound(ks: seq<nat>)
    requires forall i :: 0 <= i < |ks| ==> ks[i] <= MAX_RETRIES
    ensures Sum(ks) <= MAX_RETRIES * |ks|
    decreases |ks|
  {
    if ks != [] { SumBound(ks[1..]); }
  }

  /** The retry limit is exact: six damaged sends of one chunk end the session. */
  lemma SixDamagedSendsFail(b: Board, image: Image, w: World, chunk: nat, offset: nat) returns (v: World)
    requires Calm(b, image, w, chunk, offset, 0)
    ensures Leads(b, image, w, Damage(6), v, 5) && v.host.Failed?
  {
    v := DamageFrom(b, image, w, chunk, offset, 0);
  }

  lemma {:induction false} DamageFrom(b: Board, image: Image, w: World, chunk: nat, offset: nat, attempt: nat)
    returns (v: World)
    requires Calm(b, image, w, chunk, offset, attempt) && attempt <= MAX_RETRIES
    ensures Leads(b, image, w, Damage(6 - attempt), v, 5 - attempt) && v.host.Failed?
    decreases 6 - attempt
  {
    hide Leads, Calm, DamagedSend;
    DamagedSendRetries(b, image, w, chunk, offset, attempt);
    if attempt == MAX_RETRIES {
      v := w.(host := Failed(GaveUp), up := []);
      assert Damage(1) == DamagedSend() by {
        assert DamagedSend() + [] == DamagedSend();
      }
    } else {
      var u := w.(host := w.host.(attempt := attempt + 1));
      v := DamageFrom(b, image, u, chunk, offset, attempt + 1);
      LeadsThen(b, image, w, DamagedSend(), u, 1, Damage(5 - attempt), v, 4 - attempt);
    }
  }

  // ---------------------------------------------------------- when an ACK decides

  /** In a session, whatever is on the wires: the outstanding chunk has been stored. */
  ghost predicate Stored(b: Board, image: Image, w: World, chunk: nat, offset: nat) {
    && Lockstep(b, image, w)
    && w.landed.None?
    && w.host.AwaitData? && w.host.chunk == chunk && w.host.offset == offset
    && Holds(image, w.loader, EndOf(image, chunk, offset))
  }

  ghost predicate CanSucceed(b: Board, image: Image, w: World) {
    exists acts :: Runs(b, image, w, acts) && Exec(b, image, w, acts).host.Booted?
  }

  /** Everything on its way up may be lost. */
  lemma {:induction false} DrainUp(b: Board, image: Image, w: World) returns (acts: seq<Action>)
    requires Sane(b, image, w)
    ensures Leads(b, image, w, acts, w.(up := []), 0)
    decreases |w.up|
  {
    hide Leads, Inv, HostOk;
    acts := [];
    if w.up == [] {
      LeadsNowhere(b, image, w);
    } else {
      var v := w.(up := w.up[1..]);
      assert Do(b, image, w, LoseUp(0)) == v by { assert Without(w.up, 0) == w.up[1..]; }
      var rest := DrainUp(b, image, v);
      LeadsFirst(b, image, w, LoseUp(0), rest, w.(up := []), 0);
      acts := [LoseUp(0)] + rest;
    }
  }

  /** Everything on its way down may be lost but one frame. */
  lemma {:induction false} DrainDown(b: Board, image: Image, w: World, keep: nat) returns (acts: seq<Action>)
    requires Sane(b, image, w) && keep < |w.down|
    ensures Leads(b, image, w, acts, w.(down := [w.down[keep]]), 0)
    decreases |w.down|
  {
    hide Leads, Inv, HostOk;
    acts := [];
    if |w.down| == 1 {
      assert w.down == [w.down[keep]];
      LeadsNowhere(b, image, w);
    } else {
      var at := if keep == 0 then 1 else 0;
      var v := w.(down := Without(w.down, at));
      assert Do(b, image, w, LoseDown(at)) == v;
      var rest := DrainDown(b, image, v, if keep == 0 then 0 else keep - 1);
      LeadsFirst(b, image, w, LoseDown(at), rest, w.(down := [w.down[keep]]), 0);
      acts := [LoseDown(at)] + rest;
    }
  }

  lemma AckContinues(b: Board, image: Image, w: World, chunk: nat, offset: nat) returns (v: World)
    requires Stored(b, image, w, chunk, offset)
    requires w.up == [] && w.down == [SendAck(EndOf(image, chunk, offset))]
    ensures Leads(b, image, w, [HostHears], v, 1)
    ensures var end := EndOf(image, chunk, offset);
      if end < |image.bytes| then Sent(b, image, v, chunk, end, 0) else BootSent(b, image, v)
  {
    hide Holds, DataPacket, Crc.Checksum, ToLe, Inv, Live;
    var end := EndOf(image, chunk, offset);
    AckRoundTrip(end);
    v := HostActs(image, w.(down := []), Some(SendAck(end)));
    assert Do(b, image, w, HostHears) == v;
    assert v.up == [Clean(if end < |image.bytes| then DataPacket(image, chunk, end) else BootPacket())];
    LeadsNowhere(b, image, v);
    LeadsFirst(b, image, w, HostHears, [], v, 0);
    assert [HostHears] + [] == [HostHears];
  }

  /** With a chunk out, or BOOT, an undisturbed run ends in success. */
  lemma FinishFrom(b: Board, image: Image, w: World, chunk: nat, offset: nat)
    returns (v: World, acts: seq<Action>, n: nat)
    requires if offset < |image.bytes| then Sent(b, image, w, chunk, offset, 0) else BootSent(b, image, w)
    ensures Leads(b, image, w, acts, v, n) && v.host.Booted?
  {
    hide Leads, Sent, Calm, BootSent, CleanSend;
    if offset >= |image.bytes| {
      v, acts, n := FinishCalm(b, image, w, chunk, offset);
    } else {
      var u := CleanSendAdvances(b, image, w, chunk, offset, 0);
      var end := EndOf(image, chunk, offset);
      var x, more, m := FinishCalm(b, image, u, chunk, end);
      LeadsThen(b, image, w, CleanSend(), u, 1, more, x, m);
      v, acts, n := x, CleanSend() + more, 1 + m;
    }
  }

  lemma FinishCalm(b: Board, image: Image, w: World, chunk: nat, offset: nat)
    returns (v: World, acts: seq<Action>, n: nat)
    requires if offset < |image.bytes| then Calm(b, image, w, chunk, offset, 0) else BootSent(b, image, w)
    ensures Leads(b, image, w, acts, v, n) && v.host.Booted?
  {
    hide Leads, Calm, BootSent, CleanSend, Schedule, Landed;
    if offset < |image.bytes| {
      CalmOffset(b, image, w, chunk, offset);
      var ks := seq(ChunksLeft(image, chunk, offset), _ => 0);
      var u := ChunksGetThrough(b, image, w, chunk, offset, ks);
      v := BootGetsThrough(b, image, u);
      acts, n := Schedule(ks) + CleanSend(), Sum(ks) + |ks|;
      LeadsThen(b, image, w, Schedule(ks), u, n, CleanSend(), v, 0);
    } else {
      v := BootGetsThrough(b, image, w);
      acts, n := CleanSend(), 0;
    }
  }

  lemma StoredStuck(b: Board, image: Image, w: World, chunk: nat, offset: nat)
    requires Stored(b, image, w, chunk, offset) && NoAck(w.down)
    ensures Stuck(b, image, w, chunk, offset)
  {
    hide Holds, Inv, NoAck, DataPacket, IsOld, OneAck;
  }

  /** Only one ACK can be on its way, and it is the stored chunk's. */
  lemma StoredAck(b: Board, image: Image, w: World, chunk: nat, offset: nat) returns (i: nat)
    requires Stored(b, image, w, chunk, offset) && !NoAck(w.down)
    ensures i < |w.down| && w.down[i] == SendAck(EndOf(image, chunk, offset))
  {
    hide Holds, Inv, DataPhase;
    i :| 0 <= i < |w.down| && w.down[i].ty == FrameType.Ack;
  }

  lemma StoredSane(b: Board, image: Image, w: World, chunk: nat, offset: nat)
    requires Stored(b, image, w, chunk, offset)
    ensures Sane(b, image, w)
  {}

  /** Losing the rest of what is on the wires leaves the session in order. */
  lemma StoredAlone(b: Board, image: Image, w: World, chunk: nat, offset: nat, i: nat)
    requires Stored(b, image, w, chunk, offset) && i < |w.down| && w.down[i] == SendAck(EndOf(image, chunk, offset))
    ensures Stored(b, image, w.(up := [], down := [w.down[i]]), chunk, offset)
  {
    hide Holds, Inv, SendAck;
  }

  /** Resending recovers exactly when the ACK is not lost. Once the loader has a chunk the
      host still waits for, whatever resends, errors and reports are on the wires, the
      session can succeed if and only if an ACK is on its way. */
  lemma AckDecides(b: Board, image: Image, w: World, chunk: nat, offset: nat)
    requires Stored(b, image, w, chunk, offset)
    ensures CanSucceed(b, image, w) <==> !NoAck(w.down)
  {
    hide Stored, Stuck, Sane, NoAck, Leads, Sent, BootSent, Exec, Runs, SendAck;
    if NoAck(w.down) {
      StoredStuck(b, image, w, chunk, offset);
      forall acts | Runs(b, image, w, acts) ensures !Exec(b, image, w, acts).host.Booted? {
        LostAckIsFatal(b, image, w, acts, chunk, offset);
      }
    } else {
      var i := StoredAck(b, image, w, chunk, offset);
      var x := w.(up := [], down := [w.down[i]]);
      var quiet := DrainTo(b, image, w, chunk, offset, i);
      StoredAlone(b, image, w, chunk, offset, i);
      var v := AckContinues(b, image, x, chunk, offset);
      var u, acts, n := FinishFrom(b, image, v, chunk, EndOf(image, chunk, offset));
      LeadsThen(b, image, x, [HostHears], v, 1, acts, u, n);
      LeadsThen(b, image, w, quiet, x, 0, [HostHears] + acts, u, 1 + n);
      SucceedsBy(b, image, w, quiet + ([HostHears] + acts), u, 1 + n);
    }
  }

  lemma DrainTo(b: Board, image: Image, w: World, chunk: nat, offset: nat, i: nat) returns (acts: seq<Action>)
    requires Stored(b, image, w, chunk, offset) && i < |w.down|
    ensures Leads(b, image, w, acts, w.(up := [], down := [w.down[i]]), 0)
  {
    hide Leads, Stored, Inv, HostOk;
    StoredSane(b, image, w, chunk, offset);
    var ups := DrainUp(b, image, w);
    var v := w.(up := []);
    var downs := DrainDown(b, image, v, i);
    LeadsThen(b, image, w, ups, v, 0, downs, v.(down := [w.down[i]]), 0);
    acts := ups + downs;
  }

  lemma SucceedsBy(b: Board, image: Image, w: World, acts: seq<Action>, v: World, n: nat)
    requires Leads(b, image, w, acts, v, n) && v.host.Booted?
    ensures CanSucceed(b, image, w)
  {
    hide Runs, Exec, Written;
  }

  // ------------------------------------------------------------------ it does happen

  /** The loader takes the outstanding chunk, and its ACK is lost. */
  lemma AckLost(b: Board, image: Image, w: World, chunk: nat, offset: nat) returns (v: World)
    requires Calm(b, image, w, chunk, offset, 0)
    ensures Leads(b, image, w, [LoaderHears, LoseDown(0)], v, 0) && Stuck(b, image, v, chunk, offset)
  {
    hide Holds, DataPacket, RangePacket, React, Crc.Checksum, ToLe, TransferOk;
    var end := EndOf(image, chunk, offset);
    var p := DataPacket(image, chunk, offset);
    DataIsRange(image, chunk, offset);
    ReactKeepsInv(b, w.loader, Arrived(p));
    OnNextData(b, w.loader, image, offset, end);
    var r := React(b, w.loader, Arrived(p));
    var u := w.(up := [], down := [SendAck(end)], loader := r.next);
    assert Do(b, image, w, LoaderHears) == u by {
      assert [] + [SendAck(end)] == [SendAck(end)];
    }
    v := u.(down := []);
    assert Do(b, image, u, LoseDown(0)) == v;
    LeadsNowhere(b, image, v);
    LeadsFirst(b, image, u, LoseDown(0), [], v, 0);
    LeadsFirst(b, image, w, LoaderHears, [LoseDown(0)], v, 0);
    assert [LoseDown(0)] + [] == [LoseDown(0)] && [LoaderHears] + [LoseDown(0)] == [LoaderHears, LoseDown(0)];
  }

  /** Every load of an admissible image can be lost by losing one frame: the ACK of its
      first chunk. From there no run succeeds. */
  lemma StuckHappens(b: Board, image: Image, w: World) returns (acts: seq<Action>)
    requires Start(b, image, w) && w.down == [] && Admissible(b, image)
    ensures Runs(b, image, w, acts) && Stuck(b, image, Exec(b, image, w, acts), MAX_CHUNK, 0)
    ensures !CanSucceed(b, image, Exec(b, image, w, acts))
  {
    hide Leads, Calm, CleanSend, Sane, Admissible, Start, Stuck, Runs, Exec, Crc.Checksum, Landed;
    StartMeans(b, image, w);
    var w1 := HelloGetsThrough(b, image, w);
    var w2 := HeaderGetsThrough(b, image, w1);
    var v := AckLost(b, image, w2, MAX_CHUNK, 0);
    LeadsThen(b, image, w, CleanSend(), w1, 1, CleanSend(), w2, 1);
    LeadsThen(b, image, w, CleanSend() + CleanSend(), w2, 2, [LoaderHears, LoseDown(0)], v, 0);
    acts := CleanSend() + CleanSend() + [LoaderHears, LoseDown(0)];
    LeadsMeans(b, image, w, acts, v, 2);
    forall more | Runs(b, image, v, more) ensures !Exec(b, image, v, more).host.Booted? {
      LostAckIsFatal(b, image, v, more, MAX_CHUNK, 0);
    }
  }

  lemma StartMeans(b: Board, image: Image, w: World)
    requires Start(b, image, w)
    ensures image.crc32 == Crc.Checksum(image.bytes)
  {}

  lemma LeadsMeans(b: Board, image: Image, w: World, acts: seq<Action>, v: World, n: nat)
    requires Leads(b, image, w, acts, v, n)
    ensures Runs(b, image, w, acts) && Exec(b, image, w, acts) == v
  {}

  /** There are such images and boards: one byte at the bottom of the fallback window. */
  lemma AdmissibleHappens() returns (b: Board, image: Image, w: World)
    ensures Start(b, image, w) && w.down == [] && Admissible(b, image)
  {
    hide Crc.Checksum;
    b := Board(Detect(None), 0x8_0000, 0x9_0000);
    image := Image(WINDOW_MIN, 0, [0], 1, Crc.Checksum([0]));
    var mem: seq<byte> := seq(FALLBACK_WINDOW_MAX, _ => 0);
    w := World(AwaitReady, [Clean(HelloPacket())], [], Loader(mem, None, false, false), None);
  }
}
