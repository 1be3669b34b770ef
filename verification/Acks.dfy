/** While a session is alive, the loader never acknowledges the same offset twice: the
    values of its ACKs rise strictly, whatever is resent, lost or damaged. */
module Acks {
  import opened Bytes
  import opened Outcomes
  import opened Frame
  import opened Message
  import opened Receive
  import opened Session
  import opened Protocol
  import Crc

  /** The highest offset acknowledged so far in this session, or -1. Once the transfer is
      abandoned no further ACK can come, so the outstanding one counts as given. */
  function Frontier(image: Image, w: World): int {
    match w.host
    case AwaitReady => -1
    case AwaitHeaderAck(_) => if NoHeader(w.up) then 0 else -1
    case AwaitData(chunk, offset, _) =>
      if w.loader.transfer.Some? then w.loader.transfer.value.received else EndOf(image, chunk, offset)
    case AwaitBootAck => |image.bytes|
    case Booted => |image.bytes|
    case Failed(_) => |image.bytes|
  }

  predicate Alive(w: World) { w.host.Waiting() && w.landed.None? }

  /** The ACK among a reaction's replies. */
  function AckIn(replies: seq<Packet>): seq<nat> {
    if |replies| == 1 && replies[0].ty == FrameType.Ack && AckFrom(replies[0].payload).Ok?
    then [AckFrom(replies[0].payload).value]
    else []
  }

  /** What one action acknowledges. */
  ghost function AckBy(b: Board, w: World, act: Action): seq<nat>
    requires Inv(b, w.loader) && Enabled(w, act)
  {
    if act.LoaderHears? then AckIn(React(b, w.loader, EventOf(w.up[0])).replies) else []
  }

  lemma AckInAck(n: u32)
    ensures AckIn([SendAck(n)]) == [n]
  {
    hide AckFrom, AckBytes;
    AckRoundTrip(n);
  }

  lemma PlainHasNoAck(st: Loader, r: Reaction)
    requires Plain(st, r)
    ensures AckIn(r.replies) == []
  {}

  /** Where the loader can stand while a chunk is outstanding. */
  lemma DataStand(image: Image, w: World)
    requires HostOk(image, w.host) && w.host.AwaitData? && Live(image, w)
    ensures var o, e := w.host.offset, EndOf(image, w.host.chunk, w.host.offset);
      && o < e <= |image.bytes|
      && (w.loader.transfer.Some? ==> w.loader.transfer.value.received == o || w.loader.transfer.value.received == e)
      && (!NoAck(w.down) && w.loader.transfer.Some? ==> w.loader.transfer.value.received == e)
  {
    hide IsOld, DataPacket, RangePacket;
    DataIsRange(image, w.host.chunk, w.host.offset);
  }

  lemma HeaderStand(image: Image, w: World)
    requires HostOk(image, w.host) && w.host.AwaitHeaderAck? && Live(image, w)
    requires w.up != [] && IsHeader(w.up[0])
    ensures w.up[0] == Clean(HeaderPacket(image)) && NoHeader(w.up[1..]) && !NoHeader(w.up)
  {
    hide HeaderPacket, Holds, OneAck, NoAck;
    var rest := w.up[1..];
    assert forall i :: 0 <= i < |rest| ==> rest[i] == w.up[i + 1];
  }

  /** A DATA frame: the next chunk is acknowledged with a higher value, a stray one not
      at all. */
  lemma DataFrontier(b: Board, image: Image, w: World, o: nat, e: nat)
    requires Inv(b, w.loader) && o < e <= |image.bytes| < U32 && image.crc32 == Crc.Checksum(image.bytes)
    requires w.loader.transfer.Some? && w.loader.transfer.value.received == o ==> Holds(image, w.loader, o)
    ensures var r := React(b, w.loader, Arrived(RangePacket(image, o, e)));
      && r.jump.None?
      && (if w.loader.transfer.Some? && w.loader.transfer.value.received == o
          then AckIn(r.replies) == [e] && r.next.transfer.Some? && r.next.transfer.value.received == e
          else AckIn(r.replies) == [] && r.next.transfer == w.loader.transfer)
  {
    hide React, RangePacket, Inv, Crc.Checksum, SendAck, AckIn;
    if w.loader.transfer.Some? && w.loader.transfer.value.received == o {
      OnNextData(b, w.loader, image, o, e);
      AckInAck(e);
    } else {
      OnStrayData(b, w.loader, image, o, e);
      PlainHasNoAck(w.loader, React(b, w.loader, Arrived(RangePacket(image, o, e))));
    }
  }

  /** Between two waiting states the frontier rises by what is acknowledged. */
  ghost predicate Rises(image: Image, w: World, acks: seq<nat>, v: World) {
    && Frontier(image, w) <= Frontier(image, v)
    && |acks| <= 1
    && (acks != [] ==> Frontier(image, w) < acks[0] <= Frontier(image, v))
  }

  lemma LoaderDataRises(b: Board, image: Image, w: World)
    requires Lockstep(b, image, w) && Alive(w) && w.host.AwaitData? && Enabled(w, LoaderHears)
    ensures var v := Do(b, image, w, LoaderHears);
      v.landed.None? ==> Rises(image, w, AckBy(b, w, LoaderHears), v)
  {
    hide React, DataPacket, RangePacket, Crc.Checksum, Inv, OneAck, AckIn;
    DataStand(image, w);
    match w.up[0]
    case Damaged(err) =>
      OnNoise(b, w.loader, err);
      PlainHasNoAck(w.loader, React(b, w.loader, Garbled(err)));
    case Clean(p) =>
      if IsHello(p) {
        OnHello(b, w.loader, p);
        PlainHasNoAck(w.loader, React(b, w.loader, Arrived(p)));
      } else if p == DataPacket(image, w.host.chunk, w.host.offset) {
        DataIsRange(image, w.host.chunk, w.host.offset);
        DataFrontier(b, image, w, w.host.offset, EndOf(image, w.host.chunk, w.host.offset));
      } else {
        assert IsOld(image, p, w.host.offset);
        var o: nat, e: nat :| o < w.host.offset && o < e <= |image.bytes| && p == RangePacket(image, o, e);
        DataFrontier(b, image, w, o, e);
      }
  }

  lemma LoaderHeaderRises(b: Board, image: Image, w: World)
    requires Lockstep(b, image, w) && Alive(w) && w.host.AwaitHeaderAck? && Enabled(w, LoaderHears)
    ensures var v := Do(b, image, w, LoaderHears);
      v.landed.None? ==> Rises(image, w, AckBy(b, w, LoaderHears), v)
  {
    hide React, HeaderPacket, Crc.Checksum, Inv, OneAck, Holds, AckIn, ValidateHeader;
    var rest := w.up[1..];
    assert forall i :: 0 <= i < |rest| ==> rest[i] == w.up[i + 1];
    match w.up[0]
    case Damaged(err) =>
      OnNoise(b, w.loader, err);
      PlainHasNoAck(w.loader, React(b, w.loader, Garbled(err)));
    case Clean(p) =>
      if IsHello(p) {
        OnHello(b, w.loader, p);
        PlainHasNoAck(w.loader, React(b, w.loader, Arrived(p)));
      } else {
        HeaderIsHeader(image);
        HeaderStand(image, w);
        OnHeader(b, w.loader, image);
        AckInAck(0);
        if Plain(w.loader, React(b, w.loader, Arrived(p))) {
          PlainHasNoAck(w.loader, React(b, w.loader, Arrived(p)));
        }
      }
  }

  lemma LoaderOtherRises(b: Board, image: Image, w: World)
    requires Lockstep(b, image, w) && Alive(w) && Enabled(w, LoaderHears)
    requires w.host.AwaitReady? || w.host.AwaitBootAck?
    ensures var v := Do(b, image, w, LoaderHears);
      v.landed.None? ==> Rises(image, w, AckBy(b, w, LoaderHears), v)
  {
    hide React, RangePacket, Crc.Checksum, Inv, AckIn;
    match w.up[0]
    case Damaged(err) =>
      OnNoise(b, w.loader, err);
      PlainHasNoAck(w.loader, React(b, w.loader, Garbled(err)));
    case Clean(p) =>
      if IsHello(p) {
        OnHello(b, w.loader, p);
        PlainHasNoAck(w.loader, React(b, w.loader, Arrived(p)));
      } else if p == BootPacket() {
        OnBoot(b, w.loader, image);
        if w.loader.transfer.None? {
          PlainHasNoAck(w.loader, React(b, w.loader, Arrived(p)));
        }
      } else {
        assert IsOld(image, p, |image.bytes|);
        var o: nat, e: nat :| o < |image.bytes| && o < e <= |image.bytes| && p == RangePacket(image, o, e);
        DataFrontier(b, image, w, o, e);
      }
  }

  lemma HostRises(b: Board, image: Image, w: World, reply: Option<Packet>)
    requires HostOk(image, w.host) && Alive(w) && Live(image, w)
    requires IsTy(reply, FrameType.Ack) ==> !NoAck(w.down)
    ensures var v := HostActs(image, w, reply);
      v.host.Waiting() ==> Frontier(image, w) <= Frontier(image, v)
  {
    hide IsOld, DataPacket, RangePacket, HeaderPacket, Preflight, ReadyMsg.FromBytes, AckFrom;
    if w.host.AwaitData? {
      DataStand(image, w);
    }
  }

  lemma ChannelRises(b: Board, image: Image, w: World, act: Action)
    requires Lockstep(b, image, w) && Alive(w) && Enabled(w, act)
    requires !act.HostHears? && !act.HostTimesOut? && !act.LoaderHears? && !act.LoaderTimesOut?
    ensures Frontier(image, w) <= Frontier(image, Do(b, image, w, act))
  {
    hide IsOld, DataPacket, RangePacket, HeaderPacket, Holds, OneAck, NoAck, Crc.Checksum, Inv;
    match act
    case LoseUp(at) =>
      var u := Without(w.up, at);
      assert forall i :: 0 <= i < |u| ==> u[i] == w.up[if i < at then i else i + 1];
    case DamageUp(at, e) =>
    case NoiseUp(at, e) =>
      var u := w.up[..at] + [Damaged(e)] + w.up[at..];
      assert forall i :: 0 <= i < |u| && i != at ==> u[i] == w.up[if i < at then i else i - 1];
    case LoseDown(_) =>
    case PayloadSays(_) =>
  }

  lemma TimeoutRises(b: Board, image: Image, w: World)
    requires Lockstep(b, image, w) && Alive(w)
    ensures Frontier(image, w) <= Frontier(image, Do(b, image, w, LoaderTimesOut))
  {
    hide React, Crc.Checksum, Inv;
    OnSilence(b, w.loader);
    if w.host.AwaitData? {
      DataStand(image, w);
    }
  }

  /** Every action of the system, between waiting states. */
  lemma StepRises(b: Board, image: Image, w: World, act: Action)
    requires Lockstep(b, image, w) && Alive(w) && Enabled(w, act)
    ensures var v := Do(b, image, w, act);
      Alive(v) ==> Rises(image, w, AckBy(b, w, act), v)
  {
    hide React, Inv, Frontier, HostActs, LoaderActs, Landed, Crc.Checksum, AckIn, Live;
    if act.HostHears? {
      HostHeard(b, image, w);
      HostRises(b, image, w, Some(w.down[0]));
    } else if act.HostTimesOut? {
      HostRises(b, image, w, None);
    } else if act.LoaderTimesOut? {
      TimeoutRises(b, image, w);
    } else if !act.LoaderHears? {
      ChannelRises(b, image, w, act);
    } else if w.host.AwaitData? {
      LoaderDataRises(b, image, w);
    } else if w.host.AwaitHeaderAck? {
      LoaderHeaderRises(b, image, w);
    } else {
      LoaderOtherRises(b, image, w);
    }
  }

  /** Taking the reply off the wire first makes no difference to the frontier. */
  lemma HostHeard(b: Board, image: Image, w: World)
    requires Sane(b, image, w) && Enabled(w, HostHears)
    ensures var v := Do(b, image, w, HostHears); var u := HostActs(image, w, Some(w.down[0]));
      v.host == u.host && Frontier(image, v) == Frontier(image, u)
  {
    hide HostReply, Inv;
  }

  // ---------------------------------------------------------------- whole runs

  /** Alive before every action. */
  ghost predicate AliveRun(b: Board, image: Image, w: World, acts: seq<Action>)
    requires Runs(b, image, w, acts)
    decreases |acts|
  {
    acts == [] || (Alive(w) && AliveRun(b, image, Do(b, image, w, acts[0]), acts[1..]))
  }

  /** Every ACK value the loader sends during a run, in order. */
  ghost function AcksSent(b: Board, image: Image, w: World, acts: seq<Action>): seq<nat>
    requires Runs(b, image, w, acts)
    decreases |acts|
  {
    if acts == [] then []
    else AckBy(b, w, acts[0]) + AcksSent(b, image, Do(b, image, w, acts[0]), acts[1..])
  }

  predicate Ascending(s: seq<nat>, floor: int) {
    && (forall i :: 0 <= i < |s| ==> s[i] > floor)
    && (forall i, j :: 0 <= i < j < |s| ==> s[i] < s[j])
  }

  lemma AscendingGrows(first: seq<nat>, rest: seq<nat>, floor: int, mid: int)
    requires |first| <= 1 && floor <= mid && (first != [] ==> floor < first[0] <= mid) && Ascending(rest, mid)
    ensures Ascending(first + rest, floor)
  {
    var all := first + rest;
    forall i, j | 0 <= i < j < |all| ensures all[i] < all[j] {
      assert all[j] == rest[j - |first|];
    }
  }

  /** Over every run that stays alive, the values the loader acknowledges rise strictly:
      each at most once, and all above what was acknowledged before. */
  lemma {:induction false} AcksAscend(b: Board, image: Image, w: World, acts: seq<Action>)
    requires Lockstep(b, image, w) && Runs(b, image, w, acts) && AliveRun(b, image, w, acts)
    requires Alive(Exec(b, image, w, acts))
    ensures Ascending(AcksSent(b, image, w, acts), Frontier(image, w))
    decreases |acts|
  {
    hide Lockstep, Do, HostOk, Inv, Enabled, Frontier, AckBy, Alive;
    if acts != [] {
      var v := Do(b, image, w, acts[0]);
      StepKeepsLockstep(b, image, w, acts[0]);
      AcksAscend(b, image, v, acts[1..]);
      AliveFirst(b, image, v, acts[1..]);
      StepRises(b, image, w, acts[0]);
      AscendingGrows(AckBy(b, w, acts[0]), AcksSent(b, image, v, acts[1..]), Frontier(image, w), Frontier(image, v));
    }
  }

  lemma AliveFirst(b: Board, image: Image, w: World, acts: seq<Action>)
    requires Runs(b, image, w, acts) && AliveRun(b, image, w, acts) && Alive(Exec(b, image, w, acts))
    ensures Alive(w)
  {
    hide Do, Sane, Enabled, Alive;
  }
}
