/** What the host makes of replies, whole conversations included: which reply ends the
    session and with what error, how often a chunk is resent, and what has been written by
    the time a load succeeds. */
module Replies {
  import opened Bytes
  import opened Outcomes
  import opened Frame
  import opened Message
  import opened Receive
  import opened Session
  import opened HostMachine
  import opened Layout
  import Crc

  // ------------------------------------------------------------------- preflight

  /** Preflight lets an image through exactly when it is short enough, aligned, and its
      footprint lies in the window, where an end past 2^64 counts as what is left of it. */
  lemma PreflightIff(ready: ReadyMsg, image: Image, len: u32)
    ensures Preflight(ready, image, len) <==>
      && len <= ready.maxImageLen
      && (ready.alignment > 0 ==> exists k: nat :: image.loadAddr == Times(k, ready.alignment))
      && ready.loadAddrMin <= image.loadAddr
      && (if image.loadAddr + image.memLen < U64 then image.loadAddr + image.memLen <= ready.loadAddrMax
          else image.loadAddr + image.memLen <= ready.loadAddrMax + U64)
  {
    if ready.alignment > 0 {
      MultipleIff(image.loadAddr, ready.alignment);
    }
  }

  function Times(k: nat, n: nat): nat { k * n }

  lemma MultipleIff(a: nat, n: nat)
    requires n > 0
    ensures a % n == 0 <==> exists k: nat :: a == Times(k, n)
  {
    if a % n == 0 {
      assert a == Times(a / n, n);
    }
    forall k: nat | a == Times(k, n) ensures a % n == 0 {
      Remainder(k, n);
    }
  }

  lemma {:induction false} Remainder(k: nat, n: nat)
    requires n > 0
    ensures Times(k, n) % n == 0
  {
    var a := Times(k, n);
    assert n * (a / n) + a % n == a;
    if a % n != 0 {
      Between(k, a / n, n, a % n);
    }
  }

  lemma Between(k: nat, q: nat, n: nat, rest: nat)
    requires 0 < rest < n
    ensures k * n != n * q + rest
  {
    if k <= q {
      assert k * n <= q * n;
    } else {
      assert (q + 1) * n <= k * n;
    }
  }

  /** Chunks are as large as the loader advertises, within 1 and 1020. */
  lemma ChunkSizeIff(ready: ReadyMsg, n: nat)
    ensures ChunkSize(ready) == n <==>
      1 <= n <= 1020 && (n < ready.maxChunk ==> n == 1020) && (n > ready.maxChunk ==> n == 1)
  {}

  // --------------------------------------------------------------- single replies

  /** The type of reply a state waits for. */
  function Wanted(h: RawHost): FrameType
    requires h.Waiting()
  {
    if h.AwaitReady? then FrameType.Ready else FrameType.Ack
  }

  /** What an ERROR frame says, by its bytes. */
  ghost predicate Reports(p: Packet, code: nat, detail: nat) {
    p.ty == FrameType.Error && LeAt(p.payload, 0, code, 2) && LeAt(p.payload, 2, detail, 4)
  }

  lemma ReportRead(p: Packet, code: nat, detail: nat)
    requires Reports(p, code, detail)
    ensures WrongReply(p) == LoaderError(code, detail)
  {
    hide LeAt, FromLe;
    AtLeast(p.payload, 2, detail, 4);
    Taken(p.payload, 0, 2);
    Taken(p.payload, 2, 4);
    OneValue(p.payload, 0, code, FromLe(p.payload[0..2]), 2);
    OneValue(p.payload, 2, detail, FromLe(p.payload[2..6]), 4);
  }

  lemma AtLeast(s: seq<byte>, off: nat, n: nat, k: nat)
    requires LeAt(s, off, n, k)
    ensures off + k <= |s|
  {}

  /** Outside the chunk loop one reply decides. An ERROR ends the session with the code
      and detail it carries, a short ERROR as malformed, any other frame of the wrong type
      by that type, and silence as no reply; nothing is written. */
  lemma WrongReplyEnds(image: Image, h: RawHost, reply: Option<Packet>)
    requires HostOk(image, h) && h.Waiting() && !h.AwaitData? && !IsTy(reply, Wanted(h))
    ensures var s := HostReply(image, h, reply);
      && s.sent == []
      && (reply.None? ==> s.next == Failed(NoReply))
      && (reply.Some? && reply.value.ty != FrameType.Error ==> s.next == Failed(UnexpectedFrame(reply.value.ty)))
      && (reply.Some? && reply.value.ty == FrameType.Error && |reply.value.payload| < 6 ==> s.next == Failed(Malformed))
      && (forall code: u16, detail: u32 :: reply.Some? && Reports(reply.value, code, detail) ==>
            s.next == Failed(LoaderError(code, detail)))
  {
    forall code: u16, detail: u32 | reply.Some? && Reports(reply.value, code, detail)
      ensures WrongReply(reply.value) == LoaderError(code, detail)
    {
      ReportRead(reply.value, code, detail);
    }
  }

  /** So an ERROR frame of six bytes or more that is read while the host waits for READY,
      for the HEADER's ACK or for BOOT's makes the load fail with what it reports. */
  lemma ErrorEndsLoad(image: Image, l: Link, p: Packet, code: u16, detail: u32)
    requires HostOk(image, l.host) && l.host.Waiting() && !l.host.AwaitData?
    requires ReadsFrame(l.dec, l.inbox).packet == Some(p) && Reports(p, code, detail)
    ensures Finish(image, l).host == Failed(LoaderError(code, detail))
    ensures Finish(image, l).sent == l.sent
  {
    hide Reports, ReadsFrame, HostReply, Finish;
    IsError(p, code, detail);
    WrongReplyEnds(image, l.host, Some(p));
    FinishHears(image, l);
    FinishEnds(image, Hears(image, l));
    assert l.sent + [] == l.sent;
  }

  lemma IsError(p: Packet, code: nat, detail: nat)
    requires Reports(p, code, detail)
    ensures p.ty == FrameType.Error
  {}

  /** The right reply goes on: READY by its fields, the HEADER's ACK whatever it carries,
      BOOT's ACK whatever it carries. */
  lemma RightReplyGoesOn(image: Image, h: RawHost, p: Packet)
    requires HostOk(image, h) && h.Waiting() && !h.AwaitData? && p.ty == Wanted(h)
    ensures var s := HostReply(image, h, Some(p));
      match h
      case AwaitReady =>
        if |p.payload| < 32 then s == HostStep(Failed(Malformed), [])
        else
          var r := ReadyMsg.FromBytes(p.payload).value;
          if |image.bytes| >= U32 then s == HostStep(Failed(Failure.ImageTooLarge), [])
          else if !Preflight(r, image, |image.bytes|) then s == HostStep(Failed(Refused), [])
          else s == HostStep(AwaitHeaderAck(ChunkSize(r)), [HeaderPacket(image)])
      case AwaitHeaderAck(chunk) =>
        if image.bytes == [] then s == HostStep(AwaitBootAck, [BootPacket()])
        else s == HostStep(AwaitData(chunk, 0, 0), [DataPacket(image, chunk, 0)])
      case AwaitBootAck => s == HostStep(Booted, [])
      case _ => true
  {
    hide Preflight, ChunkSize, HeaderPacket, DataPacket, Rd16, Rd32, Rd64;
  }

  // -------------------------------------------------------------- sends of a chunk

  /** The automaton over a list of replies. */
  function Hearing(image: Image, h: RawHost, replies: seq<Option<Packet>>): (s: HostStep)
    requires HostOk(image, h)
    ensures HostOk(image, s.next)
    decreases |replies|
  {
    if replies == [] then HostStep(h, [])
    else
      var one := HostReply(image, h, replies[0]);
      var rest := Hearing(image, one.next, replies[1..]);
      HostStep(rest.next, one.sent + rest.sent)
  }

  /** An ACK that carries `v`, by its bytes. */
  ghost predicate Acks(reply: Option<Packet>, v: nat) {
    IsTy(reply, FrameType.Ack) && LeAt(reply.value.payload, 0, v, 4)
  }

  predicate ShortAck(reply: Option<Packet>) {
    IsTy(reply, FrameType.Ack) && |reply.value.payload| < 4
  }

  /** A reply that settles nothing: silence, an error, an ACK for another offset, any
      other frame. */
  ghost predicate Unsettled(image: Image, chunk: nat, offset: nat, reply: Option<Packet>) {
    !Acks(reply, EndOf(image, chunk, offset)) && !ShortAck(reply)
  }

  function Copies(p: Packet, n: nat): (ps: seq<Packet>)
    ensures |ps| == n && forall i :: 0 <= i < n ==> ps[i] == p
  {
    seq(n, _ => p)
  }

  lemma AcksIff(reply: Option<Packet>, v: u32)
    requires IsTy(reply, FrameType.Ack)
    ensures Acks(reply, v) <==> AckFrom(reply.value.payload) == Ok(v)
    ensures ShortAck(reply) <==> AckFrom(reply.value.payload).Err?
  {
    hide LeAt, FromLe;
    var b := reply.value.payload;
    if |b| >= 4 {
      Taken(b, 0, 4);
      if LeAt(b, 0, v, 4) {
        OneValue(b, 0, v, FromLe(b[0..4]), 4);
      }
    } else {
      NotEnough(b, v);
    }
  }

  lemma NotEnough(b: seq<byte>, v: nat)
    requires |b| < 4
    ensures !LeAt(b, 0, v, 4)
  {}

  /** One reply while a chunk is outstanding. */
  lemma ChunkReply(image: Image, chunk: nat, offset: nat, attempt: nat, reply: Option<Packet>)
    requires HostOk(image, AwaitData(chunk, offset, attempt))
    ensures var s := HostReply(image, AwaitData(chunk, offset, attempt), reply);
      && (Acks(reply, EndOf(image, chunk, offset)) ==> s == Proceed(image, chunk, EndOf(image, chunk, offset)))
      && (ShortAck(reply) ==> s == HostStep(Failed(Malformed), []))
      && (Unsettled(image, chunk, offset, reply) ==>
            s == if attempt < 5 then HostStep(AwaitData(chunk, offset, attempt + 1), [DataPacket(image, chunk, offset)])
                 else HostStep(Failed(GaveUp), []))
  {
    hide DataPacket, Proceed, LeAt, AckFrom;
    if IsTy(reply, FrameType.Ack) {
      AcksIff(reply, EndOf(image, chunk, offset));
    }
  }

  /** A chunk is sent again, the same bytes, after each of the first five replies that
      settle nothing; the sixth such reply ends the session. */
  lemma {:induction false} Resends(
    image: Image, chunk: nat, offset: nat, attempt: nat, replies: seq<Option<Packet>>)
    requires HostOk(image, AwaitData(chunk, offset, attempt)) && attempt + |replies| <= 6
    requires forall i :: 0 <= i < |replies| ==> Unsettled(image, chunk, offset, replies[i])
    ensures Hearing(image, AwaitData(chunk, offset, attempt), replies)
      == if attempt + |replies| < 6
         then HostStep(AwaitData(chunk, offset, attempt + |replies|),
                       Copies(DataPacket(image, chunk, offset), |replies|))
         else HostStep(Failed(GaveUp), Copies(DataPacket(image, chunk, offset), 5 - attempt))
    decreases |replies|
  {
    hide HostReply, DataPacket, Unsettled;
    var p := DataPacket(image, chunk, offset);
    if replies != [] {
      ChunkReply(image, chunk, offset, attempt, replies[0]);
      if attempt < 5 {
        Resends(image, chunk, offset, attempt + 1, replies[1..]);
        var n := if attempt + |replies| < 6 then |replies| - 1 else 4 - attempt;
        assert [p] + Copies(p, n) == Copies(p, n + 1);
      } else {
        assert replies[1..] == [];
        assert [] + [] == Copies(p, 0);
      }
    } else {
      assert Copies(p, 0) == [];
    }
  }

  // ------------------------------------------------------------ what the host sends

  /** Its frames by their bytes: HELLO with version 1; HEADER with the image's address,
      length, footprint, checksum and entry, and no flags; DATA with its offset and at most
      a chunk of the image from there; BOOT empty. */
  lemma HostFrames(image: Image, chunk: nat, offset: nat)
    requires |image.bytes| < U32 && 1 <= chunk && offset < |image.bytes|
    ensures var p := HelloPacket(); p.ty == FrameType.Hello && |p.payload| == 4 && LeAt(p.payload, 0, 1, 4)
    ensures var p := HeaderPacket(image); var s := p.payload;
      && p.ty == FrameType.Header && |s| == 28
      && LeAt(s, 0, image.loadAddr, 8) && LeAt(s, 8, |image.bytes|, 4) && LeAt(s, 12, image.memLen, 4)
      && s[16..20] == Crc.Le32(image.crc32) && LeAt(s, 20, image.entryOff, 4) && LeAt(s, 24, 0, 4)
    ensures var p := DataPacket(image, chunk, offset);
      && p.ty == FrameType.Data && |p.payload| > 4 && LeAt(p.payload, 0, offset, 4)
      && p.payload[4..] <= image.bytes[offset..]
      && (|p.payload| - 4 == chunk || (|p.payload| - 4 < chunk && p.payload[4..] == image.bytes[offset..]))
    ensures BootPacket() == Packet(FrameType.Boot, [])
  {
    hide LeAt, Crc.Le32, ImageHeader.ToBytes, DataFrame.ToBytes;
    SmallLayouts(1, 0);
    HeaderBytes(HeaderOf(image));
    var d := DataFrame(offset, image.bytes[offset..EndOf(image, chunk, offset)]);
    DataBytes(d, []);
    assert image.bytes[offset..][..|d.chunk|] == d.chunk;
  }

  // ------------------------------------------------------- what success has written

  /** Each chunk from `offset` on so many times, then BOOT. */
  function Transcript(image: Image, chunk: nat, offset: nat, ks: seq<nat>): seq<Packet>
    requires chunk >= 1 && offset <= |image.bytes| < U32
    decreases |ks|
  {
    if ks == [] then [BootPacket()]
    else
      Copies(DataPacket(image, chunk, offset), ks[0])
      + Transcript(image, chunk, EndOf(image, chunk, offset), ks[1..])
  }

  /** Every chunk once to six times. */
  ghost predicate EachSent(image: Image, chunk: nat, offset: nat, ks: seq<nat>)
    requires chunk >= 1
  {
    |ks| == ChunksLeft(image, chunk, offset) && forall i :: 0 <= i < |ks| ==> 1 <= ks[i] <= 6
  }

  /** What the host still writes before success, once its frame is out. */
  ghost predicate Rest(image: Image, h: RawHost, more: seq<Packet>, ks: seq<nat>)
    requires HostOk(image, h)
  {
    match h
    case AwaitData(chunk, offset, attempt) =>
      && |ks| >= 1 && ks[0] + attempt <= 6
      && EachSent(image, chunk, offset, ks)
      && more == Copies(DataPacket(image, chunk, offset), ks[0] - 1)
        + Transcript(image, chunk, EndOf(image, chunk, offset), ks[1..])
    case AwaitHeaderAck(chunk) =>
      EachSent(image, chunk, 0, ks) && more == Transcript(image, chunk, 0, ks)
    case AwaitBootAck => more == []
    case _ => true
  }

  lemma EndLater(image: Image, chunk: nat, offset: nat, ks: seq<nat>, k: nat)
    requires chunk >= 1 && offset < |image.bytes| < U32 && 1 <= k <= 6
    requires EachSent(image, chunk, EndOf(image, chunk, offset), ks)
    ensures EachSent(image, chunk, offset, [k] + ks) && ([k] + ks)[1..] == ks
  {}

  /** `Proceed` writes the first copy of the next chunk, or BOOT. */
  lemma ProceedRest(image: Image, chunk: nat, offset: nat, more: seq<Packet>, ks: seq<nat>) returns (all: seq<nat>)
    requires 1 <= chunk <= MAX_CHUNK && offset <= |image.bytes| < U32
    requires Rest(image, Proceed(image, chunk, offset).next, more, ks)
    ensures EachSent(image, chunk, offset, all)
    ensures Proceed(image, chunk, offset).sent + more == Transcript(image, chunk, offset, all)
  {
    hide DataPacket;
    if offset < |image.bytes| {
      all := ks;
      var p := DataPacket(image, chunk, offset);
      assert [p] + Copies(p, ks[0] - 1) == Copies(p, ks[0]);
      var t := Transcript(image, chunk, EndOf(image, chunk, offset), ks[1..]);
      assert [p] + (Copies(p, ks[0] - 1) + t) == [p] + Copies(p, ks[0] - 1) + t;
    } else {
      all := [];
    }
  }

  /** One reply on the way to success. */
  lemma ReplyRest(image: Image, h: RawHost, reply: Option<Packet>, more: seq<Packet>, ks: seq<nat>)
    returns (all: seq<nat>)
    requires HostOk(image, h) && (h.AwaitHeaderAck? || h.AwaitData? || h.AwaitBootAck?)
    requires var s := HostReply(image, h, reply); !s.next.Failed? && Rest(image, s.next, more, ks)
    requires HostReply(image, h, reply).next.Booted? ==> more == []
    ensures Rest(image, h, HostReply(image, h, reply).sent + more, all)
  {
    hide HostReply, DataPacket, Transcript, Proceed, Unsettled, Acks;
    var s := HostReply(image, h, reply);
    all := ks;
    match h
    case AwaitHeaderAck(chunk) =>
      HeaderReply(image, chunk, reply);
      all := ProceedRest(image, chunk, 0, more, ks);
    case AwaitData(chunk, offset, attempt) =>
      ChunkReply(image, chunk, offset, attempt, reply);
      ReplyCases(image, chunk, offset, reply);
      var end := EndOf(image, chunk, offset);
      var p := DataPacket(image, chunk, offset);
      if Acks(reply, end) {
        var later := ProceedRest(image, chunk, end, more, ks);
        EndLater(image, chunk, offset, later, 1);
        all := [1] + later;
        assert Copies(p, 0) == [] && [] + (s.sent + more) == s.sent + more;
      } else {
        all := ks[0 := ks[0] + 1];
        assert all[1..] == ks[1..];
        assert [p] + Copies(p, ks[0] - 1) == Copies(p, ks[0]);
        var t := Transcript(image, chunk, end, ks[1..]);
        assert [p] + (Copies(p, ks[0] - 1) + t) == [p] + Copies(p, ks[0] - 1) + t;
      }
    case AwaitBootAck => BootReply(image, reply);
    case _ =>
  }

  lemma ReplyCases(image: Image, chunk: nat, offset: nat, reply: Option<Packet>)
    ensures Acks(reply, EndOf(image, chunk, offset)) || ShortAck(reply) || Unsettled(image, chunk, offset, reply)
  {}

  lemma HeaderReply(image: Image, chunk: nat, reply: Option<Packet>)
    requires HostOk(image, AwaitHeaderAck(chunk))
    ensures var s := HostReply(image, AwaitHeaderAck(chunk), reply); s.next.Failed? || s == Proceed(image, chunk, 0)
  {}

  lemma BootReply(image: Image, reply: Option<Packet>)
    ensures var s := HostReply(image, AwaitBootAck, reply); s.sent == [] && (s.next.Booted? || s.next.Failed?)
  {}

  /** From the HEADER on. */
  lemma {:induction false} FinishRest(image: Image, l: Link) returns (more: seq<Packet>, ks: seq<nat>)
    requires HostOk(image, l.host) && (l.host.AwaitHeaderAck? || l.host.AwaitData? || l.host.AwaitBootAck?)
    requires Finish(image, l).host.Booted?
    ensures Finish(image, l).sent == l.sent + more && Rest(image, l.host, more, ks)
    decreases Patience(image, l.host)
  {
    hide HostReply, ReadsFrame, Finish, Rest, Patience, HostOk;
    var reply := ReadsFrame(l.dec, l.inbox).packet;
    FinishHears(image, l);
    EveryReplyCounts(image, l.host, reply);
    NeverBack(image, l.host, reply);
    var s := HostReply(image, l.host, reply);
    var next := Hears(image, l);
    more, ks := [], [];
    if next.host.Waiting() {
      more, ks := FinishRest(image, next);
    } else {
      FinishEnds(image, next);
      assert next.sent + [] == next.sent;
      RestAtEnd(image, next.host);
    }
    ks := ReplyRest(image, l.host, reply, more, ks);
    assert l.sent + s.sent + more == l.sent + (s.sent + more);
    more := s.sent + more;
  }

  lemma RestAtEnd(image: Image, h: RawHost)
    requires HostOk(image, h) && h.Booted?
    ensures Rest(image, h, [], [])
  {}

  lemma NeverBack(image: Image, h: RawHost, reply: Option<Packet>)
    requires HostOk(image, h) && h.Waiting()
    ensures !HostReply(image, h, reply).next.AwaitReady?
    ensures h.AwaitReady? ==> HostReply(image, h, reply).next.Failed? || HostReply(image, h, reply).next.AwaitHeaderAck?
  {
    hide ReadyMsg.FromBytes, Preflight, HeaderPacket, DataPacket, AckFrom;
  }

  /** By the time a load succeeds the host has written HELLO, one HEADER, then for some
      chunk size every chunk of the image in order, each one to six times, then BOOT, and
      nothing else. */
  lemma SuccessHasWritten(image: Image, l: Link) returns (chunk: nat, ks: seq<nat>)
    requires l.host == AwaitReady && l.sent == [HelloPacket()] && Finish(image, l).host.Booted?
    ensures |image.bytes| < U32 && 1 <= chunk <= MAX_CHUNK && EachSent(image, chunk, 0, ks)
    ensures Finish(image, l).sent == [HelloPacket(), HeaderPacket(image)] + Transcript(image, chunk, 0, ks)
  {
    hide HostReply, ReadsFrame, Finish, Transcript, EachSent, HeaderPacket, HelloPacket;
    var reply := ReadsFrame(l.dec, l.inbox).packet;
    FinishHears(image, l);
    NeverBack(image, AwaitReady, reply);
    var next := Hears(image, l);
    if next.host.Failed? {
      FinishEnds(image, next);
    }
    ReadyReply(image, reply);
    var more;
    more, ks := FinishRest(image, next);
    chunk := next.host.chunk;
    assert [HelloPacket()] + [HeaderPacket(image)] == [HelloPacket(), HeaderPacket(image)];
  }

  lemma ReadyReply(image: Image, reply: Option<Packet>)
    requires !HostReply(image, AwaitReady, reply).next.Failed?
    ensures var s := HostReply(image, AwaitReady, reply);
      s.next.AwaitHeaderAck? && |image.bytes| < U32 && s.sent == [HeaderPacket(image)]
  {
    hide ReadyMsg.FromBytes, Preflight, HeaderPacket;
  }

  /** The chunks, each once, are the image. */
  function Pieces(image: Image, chunk: nat, offset: nat): seq<seq<byte>>
    requires chunk >= 1
    decreases |image.bytes| - offset
  {
    if offset >= |image.bytes| then []
    else [image.bytes[offset..EndOf(image, chunk, offset)]] + Pieces(image, chunk, EndOf(image, chunk, offset))
  }

  function Together(pieces: seq<seq<byte>>): seq<byte>
    decreases |pieces|
  {
    if pieces == [] then [] else pieces[0] + Together(pieces[1..])
  }

  lemma {:induction false} PiecesAreImage(image: Image, chunk: nat, offset: nat)
    requires chunk >= 1 && offset <= |image.bytes|
    ensures |Pieces(image, chunk, offset)| == ChunksLeft(image, chunk, offset)
    ensures Together(Pieces(image, chunk, offset)) == image.bytes[offset..]
    ensures forall i :: 0 <= i < |Pieces(image, chunk, offset)| ==> 1 <= |Pieces(image, chunk, offset)[i]| <= chunk
    decreases |image.bytes| - offset
  {
    if offset < |image.bytes| {
      var end := EndOf(image, chunk, offset);
      PiecesAreImage(image, chunk, end);
      var piece := image.bytes[offset..end];
      assert Pieces(image, chunk, offset) == [piece] + Pieces(image, chunk, end);
      assert ([piece] + Pieces(image, chunk, end))[1..] == Pieces(image, chunk, end);
      assert piece + image.bytes[end..] == image.bytes[offset..];
    } else {
      assert image.bytes[offset..] == [];
    }
  }
}
