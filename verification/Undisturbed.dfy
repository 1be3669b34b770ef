/** Progress over every run, not one schedule: as long as only DATA and ERROR frames are
    lost or damaged, and at most five sends of each chunk, every run of a session that is
    carried on ends in success, and soon. */
module Undisturbed {
  import opened Bytes
  import opened Outcomes
  import opened Frame
  import opened Message
  import opened Receive
  import opened Session
  import opened LoaderSafety
  import opened Protocol
  import opened Recovery
  import Decoding
  import Crc

  // -------------------------------------------------------------- what may happen

  /** Either side reads; the DATA frame on its way is damaged or lost; an ERROR is lost;
      and the host times out when nothing is on its way. `spent` counts the sends of the
      current chunk that came to harm. The loader's own timeout, which abandons the
      transfer, and the loss of any other frame are what is excluded. */
  predicate Allowed(w: World, spent: nat, act: Action) {
    match act
    case HostHears => Enabled(w, act)
    case LoaderHears => Enabled(w, act)
    case HostTimesOut => w.host.AwaitData? && w.up == [] && w.down == []
    case DamageUp(at, _) => at < |w.up| && w.up[at].Clean? && w.host.AwaitData? && spent < MAX_RETRIES
    case LoseUp(at) => at < |w.up| && w.host.AwaitData? && (w.up[at].Damaged? || spent < MAX_RETRIES)
    case LoseDown(at) => at < |w.down| && w.down[at].ty == FrameType.Error
    case _ => false
  }

  predicate SameChunk(h: RawHost, g: RawHost) {
    h.AwaitData? && g.AwaitData? && h.offset == g.offset
  }

  /** Harm to a send that was still whole. */
  predicate Harms(w: World, act: Action) {
    act.DamageUp? || (act.LoseUp? && act.at < |w.up| && w.up[act.at].Clean?)
  }

  /** A new chunk has its own allowance. */
  function SpentAfter(w: World, spent: nat, act: Action, v: World): nat {
    if Harms(w, act) then spent + 1 else if SameChunk(w.host, v.host) then spent else 0
  }

  ghost predicate Calmly(b: Board, image: Image, w: World, spent: nat, acts: seq<Action>)
    requires Runs(b, image, w, acts)
    decreases |acts|
  {
    acts == [] ||
    (&& Allowed(w, spent, acts[0])
     && var v := Do(b, image, w, acts[0]);
        Calmly(b, image, v, SpentAfter(w, spent, acts[0], v), acts[1..]))
  }

  // ------------------------------------------------------------------ where it stands

  ghost predicate AtHello(b: Board, image: Image, w: World) {
    || (w.up == [Clean(HelloPacket())] && w.down == [])
    || (w.up == [] && w.down == [SendReady(b.limits)])
  }

  ghost predicate AtHeader(b: Board, image: Image, w: World) {
    && |image.bytes| < U32
    && w.host == AwaitHeaderAck(MAX_CHUNK)
    && (|| (w.up == [Clean(HeaderPacket(image))] && w.down == [])
        || (w.up == [] && w.down == [SendAck(0)] && w.loader.contacted && Holds(image, w.loader, 0)))
  }

  ghost predicate AtData(b: Board, image: Image, w: World, spent: nat)
    requires HostOk(image, w.host) && w.host.AwaitData?
  {
    var chunk, offset, attempt := w.host.chunk, w.host.offset, w.host.attempt;
    && w.loader.contacted
    && (|| (w.up == [Clean(DataPacket(image, chunk, offset))] && w.down == []
            && Holds(image, w.loader, offset) && spent == attempt)
        || (|w.up| == 1 && w.up[0].Damaged? && w.down == [] && Holds(image, w.loader, offset) && spent == attempt + 1)
        || (w.up == [] && |w.down| == 1 && w.down[0].ty == FrameType.Error
            && Holds(image, w.loader, offset) && spent == attempt + 1)
        || (w.up == [] && w.down == [] && Holds(image, w.loader, offset) && spent == attempt + 1)
        || (w.up == [] && w.down == [SendAck(EndOf(image, chunk, offset))]
            && Holds(image, w.loader, EndOf(image, chunk, offset)) && spent == attempt))
  }

  ghost predicate AtBoot(b: Board, image: Image, w: World) {
    || (w.landed.None? && w.up == [Clean(BootPacket())] && w.down == [] && Holds(image, w.loader, |image.bytes|))
    || (&& w.landed.Some? && Landed(image, w.landed.value)
        && w.up == [] && |w.down| == 1 && w.down[0].ty == FrameType.Ack)
  }

  /** Every state an undisturbed run can be in. */
  ghost predicate OnTrack(b: Board, image: Image, w: World, spent: nat) {
    && Sane(b, image, w)
    && Admissible(b, image)
    && image.crc32 == Crc.Checksum(image.bytes)
    && spent <= MAX_RETRIES
    && match w.host
       case AwaitReady => w.landed.None? && AtHello(b, image, w)
       case AwaitHeaderAck(_) => w.landed.None? && AtHeader(b, image, w)
       case AwaitData(_, _, _) => w.landed.None? && AtData(b, image, w, spent)
       case AwaitBootAck => AtBoot(b, image, w)
       case Booted => w.landed.Some? && Landed(image, w.landed.value) && w.up == [] && w.down == []
       case Failed(_) => false
  }

  // ------------------------------------------------------------------- one action

  lemma HelloStep(b: Board, image: Image, w: World, act: Action)
    requires OnTrack(b, image, w, 0) && w.host.AwaitReady? && Allowed(w, 0, act)
    ensures OnTrack(b, image, Do(b, image, w, act), 0)
  {
    hide React, Inv, Preflight, ValidateHeader, HeaderPacket, Crc.Checksum, Landed;
    hide ReadyMsg.FromBytes, ReadyMsg.ToBytes;
    if act.LoaderHears? {
      HelloReplies(b, w.loader);
      ReactKeepsInv(b, w.loader, Arrived(HelloPacket()));
      assert [] + [SendReady(b.limits)] == [SendReady(b.limits)];
    } else {
      ReadyRoundTrip(ReadyFor(b.limits));
      assert Do(b, image, w, act).up == [Clean(HeaderPacket(image))];
    }
  }

  lemma HeaderStep(b: Board, image: Image, w: World, act: Action)
    requires OnTrack(b, image, w, 0) && w.host.AwaitHeaderAck? && Allowed(w, 0, act)
    ensures OnTrack(b, image, Do(b, image, w, act), 0)
  {
    hide React, Inv, Preflight, ValidateHeader, HeaderPacket, Crc.Checksum, Holds, DataPacket, Landed, AckBytes;
    if act.LoaderHears? {
      var p := HeaderPacket(image);
      OnHeader(b, w.loader, image);
      FrameContacts(b, w.loader, p);
      ReactKeepsInv(b, w.loader, Arrived(p));
      assert [] + [SendAck(0)] == [SendAck(0)];
    } else {
      assert w.down == [SendAck(0)];
      NonEmpty(b, image);
      assert Do(b, image, w, act).up == [Clean(DataPacket(image, MAX_CHUNK, 0))];
    }
  }

  lemma NonEmpty(b: Board, image: Image)
    requires Admissible(b, image)
    ensures 0 < |image.bytes| < U32
  {
    hide Preflight;
  }

  lemma DataLoaderStep(b: Board, image: Image, w: World, spent: nat)
    requires OnTrack(b, image, w, spent) && w.host.AwaitData? && Enabled(w, LoaderHears)
    ensures OnTrack(b, image, Do(b, image, w, LoaderHears), spent)
  {
    hide React, Inv, Admissible, DataPacket, RangePacket, Crc.Checksum, Holds, Landed, ErrorBytes, AckBytes;
    match w.up[0]
    case Damaged(e) =>
      ErrorAnswer(b, w.loader, e);
      ReactKeepsInv(b, w.loader, Garbled(e));
      assert [] + React(b, w.loader, Garbled(e)).replies == React(b, w.loader, Garbled(e)).replies;
    case Clean(p) =>
      var o, e := w.host.offset, EndOf(image, w.host.chunk, w.host.offset);
      DataIsRange(image, w.host.chunk, o);
      OnNextData(b, w.loader, image, o, e);
      FrameContacts(b, w.loader, p);
      ReactKeepsInv(b, w.loader, Arrived(p));
      assert [] + [SendAck(e)] == [SendAck(e)];
  }

  /** A decode error is answered with ERROR, whatever it was. */
  lemma ErrorAnswer(b: Board, st: Loader, e: Decoding.DecodeError)
    requires Inv(b, st) && st.contacted
    ensures var r := React(b, st, Garbled(e));
      r.next == st && r.jump.None? && |r.replies| == 1 && r.replies[0].ty == FrameType.Error
  {
    hide ErrorBytes, Inv;
  }

  lemma DataHostStep(b: Board, image: Image, w: World, spent: nat)
    requires OnTrack(b, image, w, spent) && w.host.AwaitData? && Enabled(w, HostHears)
    ensures var v := Do(b, image, w, HostHears); OnTrack(b, image, v, SpentAfter(w, spent, HostHears, v))
  {
    hide React, Inv, Admissible, DataPacket, Crc.Checksum, Holds, Landed, AckBytes, AckFrom;
    var v := Do(b, image, w, HostHears);
    var chunk, offset := w.host.chunk, w.host.offset;
    var end := EndOf(image, chunk, offset);
    DataIsRange(image, chunk, offset);
    if w.down[0].ty == FrameType.Error {
      assert v.up == [Clean(DataPacket(image, chunk, offset))];
    } else {
      AckRoundTrip(end);
      assert v.up == [Clean(if end < |image.bytes| then DataPacket(image, chunk, end) else BootPacket())];
    }
  }

  lemma BootStep(b: Board, image: Image, w: World, act: Action)
    requires OnTrack(b, image, w, 0) && w.host.AwaitBootAck? && Allowed(w, 0, act)
    ensures OnTrack(b, image, Do(b, image, w, act), 0)
  {
    hide React, Inv, Admissible, Crc.Checksum, Landed, AckBytes;
    if act.LoaderHears? {
      OnBoot(b, w.loader, image);
      BootReplies(b, w.loader);
      ReactKeepsInv(b, w.loader, Arrived(BootPacket()));
      var r := React(b, w.loader, Arrived(BootPacket()));
      assert [] + r.replies == r.replies;
    }
  }

  lemma DamageStep(b: Board, image: Image, w: World, spent: nat, act: Action)
    requires OnTrack(b, image, w, spent) && act.DamageUp? && Allowed(w, spent, act)
    ensures OnTrack(b, image, Do(b, image, w, act), spent + 1)
  {
    hide Inv, Admissible, DataPacket, Crc.Checksum, Holds, Landed;
  }

  lemma LossStep(b: Board, image: Image, w: World, spent: nat, act: Action)
    requires OnTrack(b, image, w, spent) && (act.LoseUp? || act.LoseDown?) && Allowed(w, spent, act)
    ensures OnTrack(b, image, Do(b, image, w, act), if Harms(w, act) then spent + 1 else spent)
    ensures Do(b, image, w, act).host == w.host && w.host.AwaitData?
  {
    hide Inv, Admissible, DataPacket, Crc.Checksum, Holds, Landed, AckBytes, ReadyFor;
  }

  /** A lost send, or a lost ERROR, is made good by the host's timeout. */
  lemma TimeoutStep(b: Board, image: Image, w: World, spent: nat)
    requires OnTrack(b, image, w, spent) && Allowed(w, spent, HostTimesOut)
    ensures OnTrack(b, image, Do(b, image, w, HostTimesOut), spent)
    ensures SameChunk(w.host, Do(b, image, w, HostTimesOut).host)
  {
    hide Inv, Admissible, DataPacket, Crc.Checksum, Holds, Landed;
    assert Do(b, image, w, HostTimesOut).up == [Clean(DataPacket(image, w.host.chunk, w.host.offset))];
  }

  /** Nothing that may happen leaves the track. */
  lemma StaysOnTrack(b: Board, image: Image, w: World, spent: nat, act: Action)
    requires OnTrack(b, image, w, spent) && Allowed(w, spent, act)
    ensures var v := Do(b, image, w, act); OnTrack(b, image, v, SpentAfter(w, spent, act, v))
  {
    hide Do, AtHello, AtHeader, AtData, AtBoot, Sane, Admissible, Crc.Checksum, Landed;
    if act.DamageUp? {
      DamageStep(b, image, w, spent, act);
    } else if act.HostTimesOut? {
      TimeoutStep(b, image, w, spent);
    } else if act.LoseUp? || act.LoseDown? {
      LossStep(b, image, w, spent, act);
    } else {
      match w.host
      case AwaitReady => HelloStep(b, image, w, act);
      case AwaitHeaderAck(_) => HeaderStep(b, image, w, act);
      case AwaitData(_, _, _) =>
        if act.HostHears? {
          DataHostStep(b, image, w, spent);
        } else {
          DataLoaderStep(b, image, w, spent);
          LoaderKeepsHost(b, image, w);
        }
      case AwaitBootAck => BootStep(b, image, w, act);
    }
  }

  lemma LoaderKeepsHost(b: Board, image: Image, w: World)
    requires Sane(b, image, w) && Enabled(w, LoaderHears)
    ensures Do(b, image, w, LoaderHears).host == w.host
  {
    hide React;
  }

  // ------------------------------------------------------------------- how soon

  function Stage(w: World): nat {
    if w.up != [] then (if w.up[0].Clean? then 3 else 2) else if w.down != [] then 1 else 0
  }

  /** Actions left at most. */
  function Fuel(image: Image, w: World): nat
    requires HostOk(image, w.host)
  {
    4 * Patience(image, w.host) + Stage(w)
  }

  /** Frames the host still writes at most: HEADER, BOOT, and six DATA for each chunk. */
  function FramesLeft(image: Image, h: RawHost): int
    requires HostOk(image, h)
  {
    match h
    case AwaitReady => 2 + 6 * ChunksLeft(image, MAX_CHUNK, 0)
    case AwaitHeaderAck(chunk) => 1 + 6 * ChunksLeft(image, chunk, 0)
    case AwaitData(chunk, offset, attempt) => 6 * ChunksLeft(image, chunk, offset) - attempt
    case AwaitBootAck => 0
    case Booted => 0
    case Failed(_) => 0
  }

  lemma HostFuel(b: Board, image: Image, w: World, act: Action)
    requires Sane(b, image, w) && Enabled(w, act) && w.up == [] && |w.down| <= 1
    requires act == HostHears || (act == HostTimesOut && w.down == [])
    ensures Fuel(image, Do(b, image, w, act)) < Fuel(image, w)
  {
    hide HostReply, Inv, Patience;
    EveryReplyCounts(image, w.host, if act.HostHears? then Some(w.down[0]) else None);
  }

  /** On the track at most one frame is on its way. */
  lemma OneOnTheWay(b: Board, image: Image, w: World, spent: nat)
    requires OnTrack(b, image, w, spent)
    ensures |w.up| + |w.down| <= 1
    ensures |w.up| + |w.down| == 0 <==> w.host.Booted? || Allowed(w, spent, HostTimesOut)
    ensures w.host.Waiting() <==> !w.host.Booted?
    ensures w.up != [] ==> w.landed.None?
  {
    hide Sane, Admissible, Holds, Landed, HeaderPacket, DataPacket, Crc.Checksum;
  }

  lemma FuelFalls(b: Board, image: Image, w: World, spent: nat, act: Action)
    requires OnTrack(b, image, w, spent) && Allowed(w, spent, act)
    ensures Sane(b, image, Do(b, image, w, act))
    ensures Fuel(image, Do(b, image, w, act)) < Fuel(image, w)
  {
    hide OnTrack, React, HostReply, HostOk, Inv, Patience, Admissible, Crc.Checksum;
    StaysOnTrack(b, image, w, spent, act);
    TrackIsSane(b, image, w, spent);
    TrackIsSane(b, image, Do(b, image, w, act), SpentAfter(w, spent, act, Do(b, image, w, act)));
    OneOnTheWay(b, image, w, spent);
    OneOnTheWay(b, image, Do(b, image, w, act), SpentAfter(w, spent, act, Do(b, image, w, act)));
    if act.HostHears? || act.HostTimesOut? {
      HostFuel(b, image, w, act);
    }
  }

  lemma TrackIsSane(b: Board, image: Image, w: World, spent: nat)
    requires OnTrack(b, image, w, spent)
    ensures Sane(b, image, w)
  {}

  lemma ReplyFrames(image: Image, h: RawHost, reply: Option<Packet>)
    requires HostOk(image, h) && !h.AwaitReady?
    ensures var s := HostReply(image, h, reply);
      |s.sent| + FramesLeft(image, s.next) <= FramesLeft(image, h)
  {
    hide DataPacket, AckFrom;
  }

  lemma ReadyFrames(b: Board, image: Image)
    requires Admissible(b, image)
    ensures HostReply(image, AwaitReady, Some(SendReady(b.limits)))
      == HostStep(AwaitHeaderAck(MAX_CHUNK), [HeaderPacket(image)])
  {
    hide HeaderPacket, Preflight, ValidateHeader, ReadyMsg.FromBytes, ReadyMsg.ToBytes;
    ReadyRoundTrip(ReadyFor(b.limits));
  }

  lemma HelloDown(b: Board, image: Image, w: World, spent: nat)
    requires OnTrack(b, image, w, spent) && w.host.AwaitReady? && w.down != []
    ensures w.down == [SendReady(b.limits)] && Admissible(b, image)
  {
    hide Inv, Admissible, Crc.Checksum, ReadyFor;
  }

  lemma FramesFall(b: Board, image: Image, w: World, spent: nat, act: Action)
    requires OnTrack(b, image, w, spent) && Allowed(w, spent, act)
    requires var v := Do(b, image, w, act); OnTrack(b, image, v, SpentAfter(w, spent, act, v))
    ensures HostOk(image, Do(b, image, w, act).host)
    ensures Writes(image, w, act) + FramesLeft(image, Do(b, image, w, act).host) <= FramesLeft(image, w.host)
  {
    TrackIsSane(b, image, w, spent);
    TrackIsSane(b, image, Do(b, image, w, act), SpentAfter(w, spent, act, Do(b, image, w, act)));
    hide OnTrack, React, Inv, HostReply;
    if act.HostHears? || act.HostTimesOut? {
      var reply := if act.HostHears? then Some(w.down[0]) else None;
      if w.host.AwaitReady? {
        HelloDown(b, image, w, spent);
        ReadyFrames(b, image);
      } else {
        ReplyFrames(image, w.host, reply);
      }
    }
  }

  // -------------------------------------------------------------------- every run

  lemma {:induction false} CalmRun(b: Board, image: Image, w: World, spent: nat, acts: seq<Action>) returns (left: nat)
    requires OnTrack(b, image, w, spent) && Runs(b, image, w, acts) && Calmly(b, image, w, spent, acts)
    ensures var v := Exec(b, image, w, acts);
      && OnTrack(b, image, v, left) && HostOk(image, v.host) && HostOk(image, w.host)
      && |acts| + Fuel(image, v) <= Fuel(image, w)
      && Written(b, image, w, acts) + FramesLeft(image, v.host) <= FramesLeft(image, w.host)
    decreases |acts|
  {
    hide OnTrack, Do, Inv, HostOk, Fuel, FramesLeft, Allowed, SpentAfter, Enabled, Writes;
    TrackIsSane(b, image, w, spent);
    if acts == [] {
      left := spent;
    } else {
      var v := Do(b, image, w, acts[0]);
      StaysOnTrack(b, image, w, spent, acts[0]);
      FuelFalls(b, image, w, spent, acts[0]);
      FramesFall(b, image, w, spent, acts[0]);
      left := CalmRun(b, image, v, SpentAfter(w, spent, acts[0], v), acts[1..]);
    }
  }

  lemma StartsOnTrack(b: Board, image: Image, w: World)
    requires Start(b, image, w) && w.down == [] && Admissible(b, image)
    ensures OnTrack(b, image, w, 0)
  {
    hide Inv, Admissible, Crc.Checksum;
  }

  /** A step that is open to the system itself, whatever harm has been done: reading, or
      the timeout of a host to which nothing is on its way. */
  ghost predicate MayFollow(w: World, act: Action) {
    Enabled(w, act) && (forall spent: nat :: Allowed(w, spent, act)) && !Harms(w, act) && !act.LoseDown?
  }

  /** Progress, for every such run of an admissible image: the session never fails; it
      takes at most `4 * (3 + 6 * len) + 3` actions; the host writes HEADER, BOOT and at
      most six DATA frames for each chunk; and as long as it has not succeeded, a step is
      open that harms nothing. So every run that is carried on ends with the image in
      place. */
  lemma UndisturbedSucceeds(b: Board, image: Image, w: World, acts: seq<Action>)
    requires Start(b, image, w) && w.down == [] && Admissible(b, image)
    requires Runs(b, image, w, acts) && Calmly(b, image, w, 0, acts)
    ensures var v := Exec(b, image, w, acts);
      && !v.host.Failed?
      && |acts| <= 4 * (3 + 6 * |image.bytes|) + 3
      && Written(b, image, w, acts) <= 2 + 6 * ChunksLeft(image, MAX_CHUNK, 0)
      && (v.host.Booted? ==> v.landed.Some? && Landed(image, v.landed.value))
      && (!v.host.Booted? ==> exists act :: MayFollow(v, act))
  {
    hide OnTrack, Runs, Exec, Calmly, Written, Landed, Inv, Admissible, Crc.Checksum;
    StartsOnTrack(b, image, w);
    var left := CalmRun(b, image, w, 0, acts);
    var v := Exec(b, image, w, acts);
    OneOnTheWay(b, image, v, left);
    TrackOutcome(b, image, v, left);
    FramesNonNegative(image, v.host);
    if !v.host.Booted? {
      hide Allowed;
      var act := if v.up != [] then LoaderHears else if v.down != [] then HostHears else HostTimesOut;
      forall n: nat ensures Allowed(v, n, act) { ReadingAllowed(b, image, v, left, n, act); }
      assert MayFollow(v, act);
    }
  }

  lemma ReadingAllowed(b: Board, image: Image, w: World, spent: nat, n: nat, act: Action)
    requires OnTrack(b, image, w, spent) && !w.host.Booted?
    requires act == if w.up != [] then LoaderHears else if w.down != [] then HostHears else HostTimesOut
    ensures Allowed(w, n, act) && Enabled(w, act)
  {
    hide OnTrack;
    OneOnTheWay(b, image, w, spent);
  }

  lemma TrackOutcome(b: Board, image: Image, w: World, spent: nat)
    requires OnTrack(b, image, w, spent)
    ensures !w.host.Failed? && (w.host.Booted? ==> w.landed.Some? && Landed(image, w.landed.value))
  {}

  lemma FramesNonNegative(image: Image, h: RawHost)
    requires HostOk(image, h)
    ensures FramesLeft(image, h) >= 0
  {}
}
