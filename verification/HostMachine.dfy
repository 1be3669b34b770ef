/** The host's session as it runs: it writes frames, reads the port in pieces until a
    frame completes, and retries. Proved against the automaton of `Session`. */
module HostMachine {
  import opened Bytes
  import opened Outcomes
  import opened Frame
  import opened Message
  import opened Receive
  import opened Session
  import opened Decoding
  import Crc
  import Decoder

  /** What one turn of the reading loop meets: bytes, an empty read, a port error, or
      the deadline. */
  datatype Read = Got(bytes: seq<byte>) | Quiet | Broken | Deadline

  // ------------------------------------------------------------------- reading

  datatype Scanned = Scanned(dec: State, packet: Option<Packet>)

  /** Bytes fed until the first frame; the rest of the piece is never looked at. */
  function Scan(dec: State, bytes: seq<byte>): Scanned
    decreases |bytes|
  {
    if bytes == [] then Scanned(dec, None)
    else
      var next, e := Step(dec, bytes[0]).0, Step(dec, bytes[0]).1;
      if e.Some? && e.value.Good? then Scanned(next, Some(Packet(e.value.ty, e.value.payload)))
      else Scan(next, bytes[1..])
  }

  datatype ReadOut = ReadOut(dec: State, packet: Option<Packet>, rest: seq<Read>)

  /** One `read_frame`. */
  function ReadsFrame(dec: State, inbox: seq<Read>): ReadOut
    decreases |inbox|
  {
    if inbox == [] then ReadOut(dec, None, [])
    else
      match inbox[0]
      case Got(bytes) =>
        var s := Scan(dec, bytes);
        if s.packet.Some? then ReadOut(s.dec, s.packet, inbox[1..]) else ReadsFrame(s.dec, inbox[1..])
      case Quiet => ReadsFrame(dec, inbox[1..])
      case Broken => ReadOut(dec, None, inbox[1..])
      case Deadline => ReadOut(dec, None, inbox[1..])
  }

  // ------------------------------------------------------- the automaton on a port

  datatype Link = Link(host: RawHost, dec: State, inbox: seq<Read>, sent: seq<Packet>)

  /** The automaton takes a step: its next state, and what it writes. */
  function Takes(l: Link, s: HostStep): Link {
    l.(host := s.next, sent := l.sent + s.sent)
  }

  /** One reply is read and acted on. */
  function Hears(image: Image, l: Link): Link
    requires HostOk(image, l.host)
  {
    var r := ReadsFrame(l.dec, l.inbox);
    Takes(l.(dec := r.dec, inbox := r.rest), HostReply(image, l.host, r.packet))
  }

  /** The automaton on a port, to its end. */
  function Finish(image: Image, l: Link): (r: Link)
    requires HostOk(image, l.host)
    ensures !r.host.Waiting()
    decreases Patience(image, l.host)
  {
    if !l.host.Waiting() then l
    else
      EveryReplyCounts(image, l.host, ReadsFrame(l.dec, l.inbox).packet);
      Finish(image, Hears(image, l))
  }

  lemma FinishHears(image: Image, l: Link)
    requires HostOk(image, l.host) && l.host.Waiting()
    ensures HostOk(image, Hears(image, l).host) && Finish(image, l) == Finish(image, Hears(image, l))
  {
    hide ReadsFrame, HostReply;
  }

  // ------------------------------------------------------------------- the code

  class Host {
    const decoder: Decoder.Decoder
    /** What the port will deliver. */
    var inbox: seq<Read>
    /** Every byte written. */
    var wire: seq<byte>
    ghost var sent: seq<Packet>

    ghost predicate Valid()
      reads this, decoder, decoder.buf
    {
      decoder.Valid() && wire == WireOf(sent)
    }

    /** The automaton in state `h` on this port. */
    ghost function At(h: RawHost): (l: Link)
      requires Valid()
      reads this, decoder, decoder.buf
      ensures l.host == h
    {
      Link(h, decoder.Abs(), inbox, sent)
    }

    /** The automaton about to take a step. */
    ghost function Due(s: HostStep): (l: Link)
      requires Valid()
      reads this, decoder, decoder.buf
      ensures l.host == s.next
    {
      Takes(At(Booted), s)
    }

    constructor (port: seq<Read>)
      ensures Valid() && fresh(decoder) && fresh(decoder.buf)
      ensures At(AwaitReady) == Link(AwaitReady, Sync0, port, [])
    {
      hide Decoder.Decoder.Valid, Decoder.Decoder.Abs;
      decoder := new Decoder.Decoder();
      inbox := port;
      wire, sent := [], [];
    }

    method WriteFrame(p: Packet) returns (ok: bool)
      requires Valid()
      modifies this`wire, this`sent
      ensures Valid() && ok == (|p.payload| <= MAX_PAYLOAD)
      ensures sent == if ok then old(sent) + [p] else old(sent)
    {
      hide Decoder.Decoder.Valid, Encode;
      var buf := new byte[MAX_FRAME](_ => 0);
      var r := EncodeFrame(p.ty, p.payload, buf);
      if r.Err? {
        return false;
      }
      assert buf[..r.value] == Encode(p.ty, p.payload);
      WireGrows(sent, p);
      wire := wire + buf[..r.value];
      sent := sent + [p];
      ok := true;
    }

    /** Feeds one piece until a frame completes. */
    method ScanPiece(bytes: seq<byte>) returns (p: Option<Packet>)
      requires Valid()
      modifies decoder, decoder.buf
      ensures Valid()
      ensures Scan(old(decoder.Abs()), bytes) == Scanned(decoder.Abs(), p)
    {
      hide Step;
      var i := 0;
      assert bytes[0..] == bytes;
      while i < |bytes|
        invariant 0 <= i <= |bytes| && Valid()
        invariant Scan(decoder.Abs(), bytes[i..]) == Scan(old(decoder.Abs()), bytes)
      {
        assert bytes[i..][0] == bytes[i] && bytes[i..][1..] == bytes[i + 1..];
        var r := decoder.Push(bytes[i]);
        if r.Frame? {
          return Some(Packet(r.ty, decoder.CurrentPayload()));
        }
        i := i + 1;
      }
      p := None;
    }

    method ReadFrame() returns (p: Option<Packet>)
      requires Valid()
      modifies this`inbox, decoder, decoder.buf
      ensures Valid()
      ensures ReadsFrame(old(decoder.Abs()), old(inbox)) == ReadOut(decoder.Abs(), p, inbox)
    {
      hide Scan, Decoder.Decoder.Shape, Decoder.Decoder.Abs, After, Recent;
      while inbox != []
        invariant Valid()
        invariant ReadsFrame(decoder.Abs(), inbox) == ReadsFrame(old(decoder.Abs()), old(inbox))
        decreases |inbox|
      {
        var read := inbox[0];
        inbox := inbox[1..];
        match read {
          case Got(bytes) =>
            p := ScanPiece(bytes);
            if p.Some? {
              return;
            }
          case Quiet =>
          case Broken => return None;
          case Deadline => return None;
        }
      }
      p := None;
    }

    /** Reads one frame and requires its type. */
    method Expect(want: FrameType) returns (r: Result<seq<byte>, Failure>, ghost reply: Option<Packet>)
      requires Valid()
      modifies this`inbox, decoder, decoder.buf
      ensures Valid()
      ensures ReadsFrame(old(decoder.Abs()), old(inbox)) == ReadOut(decoder.Abs(), reply, inbox)
      ensures r == if IsTy(reply, want) then Ok(reply.value.payload) else Err(Unmet(reply))
    {
      hide ReadsFrame, Decoder.Decoder.Valid, Decoder.Decoder.Abs;
      var p := ReadFrame();
      reply := p;
      if p.None? {
        return Err(NoReply), reply;
      }
      if p.value.ty == want {
        return Ok(p.value.payload), reply;
      }
      r := Err(WrongReply(p.value));
    }

    /** HELLO, then READY. */
    method Handshake(ghost image: Image) returns (r: Result<ReadyMsg, Failure>)
      requires Valid()
      modifies this, decoder, decoder.buf
      ensures Valid()
      ensures Finish(image, old(Due(HostStep(AwaitReady, [HelloPacket()]))))
        == Finish(image, if r.Ok? then Due(BeginWith(image, r.value)) else At(Failed(r.error)))
    {
      hide Decoder.Decoder.Valid, Decoder.Decoder.Abs, ReadsFrame, BeginWith, ReadyMsg.FromBytes, WireOf, Finish;
      ghost var start := Due(HostStep(AwaitReady, [HelloPacket()]));
      var ok := WriteFrame(HelloPacket());
      assert At(AwaitReady) == start;
      FinishHears(image, start);
      var payload, reply := Expect(FrameType.Ready);
      DueNothing();
      if payload.Err? {
        return Err(payload.error);
      }
      var ready := ReadyMsg.FromBytes(payload.value);
      r := if ready.Err? then Err(Malformed) else Ok(ready.value);
    }

    /** One chunk: send it, up to six times, until the loader is where it should be. */
    method SendData(ghost image: Image, ghost chunk: nat, ghost offset: nat, payload: seq<byte>, expectedNext: u32)
      returns (r: Result<(), Failure>)
      requires Valid() && HostOk(image, AwaitData(chunk, offset, 0))
      requires Packet(FrameType.Data, payload) == DataPacket(image, chunk, offset)
      requires expectedNext == EndOf(image, chunk, offset)
      modifies this, decoder, decoder.buf
      ensures Valid()
      ensures Finish(image, old(Due(Attempt(image, chunk, offset, 0))))
        == Finish(image, if r.Ok? then Due(Proceed(image, chunk, expectedNext)) else At(Failed(r.error)))
    {
      hide Decoder.Decoder.Valid, Decoder.Decoder.Abs, ReadsFrame, DataPacket, Proceed, AckFrom, WireOf, Finish;
      ghost var goal := Finish(image, Due(Attempt(image, chunk, offset, 0)));
      SmallPacket(image, chunk, offset);
      for attempt := 0 to MAX_RETRIES + 1
        invariant Valid()
        invariant Finish(image, Due(Attempt(image, chunk, offset, attempt))) == goal
      {
        ghost var due := Due(Attempt(image, chunk, offset, attempt));
        var ok := WriteFrame(Packet(FrameType.Data, payload));
        assert At(AwaitData(chunk, offset, attempt)) == due;
        FinishHears(image, due);
        var bytes, reply := Expect(FrameType.Ack);
        DueNothing();
        if bytes.Ok? {
          var ack := AckFrom(bytes.value);
          if ack.Err? {
            return Err(Malformed);
          }
          if ack.value == expectedNext {
            return Ok(());
          }
        }
      }
      DueNothing();
      r := Err(GaveUp);
    }

    /** HEADER, then every chunk in order. */
    method Transfer(ready: ReadyMsg, image: Image) returns (r: Result<(), Failure>)
      requires Valid()
      modifies this, decoder, decoder.buf
      ensures Valid()
      ensures Finish(image, old(Due(BeginWith(image, ready))))
        == Finish(image, if r.Ok? then Due(HostStep(AwaitBootAck, [BootPacket()])) else At(Failed(r.error)))
    {
      hide Decoder.Decoder.Valid, Decoder.Decoder.Abs, ReadsFrame, DataPacket, HeaderPacket, Preflight, WireOf, Finish;
      hide Due, At;
      DueNothing();
      if |image.bytes| >= U32 {
        return Err(Failure.ImageTooLarge);
      }
      if !Preflight(ready, image, |image.bytes|) {
        return Err(Refused);
      }
      r := SendHeader(ready, image);
      if r.Err? {
        return;
      }
      r := SendChunks(image, ChunkSize(ready));
    }

    method SendHeader(ready: ReadyMsg, image: Image) returns (r: Result<(), Failure>)
      requires Valid() && |image.bytes| < U32 && Preflight(ready, image, |image.bytes|)
      modifies this, decoder, decoder.buf
      ensures Valid()
      ensures Finish(image, old(Due(BeginWith(image, ready))))
        == Finish(image, if r.Ok? then Due(Proceed(image, ChunkSize(ready), 0)) else At(Failed(r.error)))
    {
      hide Decoder.Decoder.Valid, Decoder.Decoder.Abs, ReadsFrame, WireOf, Finish;
      hide Preflight, Proceed, ChunkSize, ToLe, Crc.Le32;
      ghost var due := Due(BeginWith(image, ready));
      var header := ImageHeader(image.loadAddr, |image.bytes|, image.memLen, image.crc32, image.entryOff, 0);
      var ok := WriteFrame(Packet(FrameType.Header, header.ToBytes()));
      assert At(AwaitHeaderAck(ChunkSize(ready))) == due;
      FinishHears(image, due);
      var payload, reply := Expect(FrameType.Ack);
      DueNothing();
      r := if payload.Ok? then Ok(()) else Err(payload.error);
    }

    method SendChunks(image: Image, chunk: nat) returns (r: Result<(), Failure>)
      requires Valid() && 1 <= chunk <= MAX_CHUNK && |image.bytes| < U32
      modifies this, decoder, decoder.buf
      ensures Valid()
      ensures Finish(image, old(Due(Proceed(image, chunk, 0))))
        == Finish(image, if r.Ok? then Due(HostStep(AwaitBootAck, [BootPacket()])) else At(Failed(r.error)))
    {
      hide Decoder.Decoder.Valid, Decoder.Decoder.Abs, Due, At, Finish, WireOf, DataFrame.ToBytes;
      ghost var goal := Finish(image, Due(Proceed(image, chunk, 0)));
      var buf := new byte[MAX_PAYLOAD](_ => 0);
      var offset := 0;
      while offset < |image.bytes|
        invariant Valid() && 0 <= offset <= |image.bytes|
        invariant Finish(image, Due(Proceed(image, chunk, offset))) == goal
      {
        var end := if offset + chunk < |image.bytes| then offset + chunk else |image.bytes|;
        var payload := EncodeChunk(buf, offset, image.bytes[offset..end]);
        var sentOne := SendData(image, chunk, offset, payload, end);
        if sentOne.Err? {
          return Err(sentOne.error);
        }
        offset := end;
      }
      r := Ok(());
    }

    /** BOOT, then its acknowledgement. */
    method Boot(ghost image: Image) returns (r: Result<(), Failure>)
      requires Valid()
      modifies this, decoder, decoder.buf
      ensures Valid()
      ensures Finish(image, old(Due(HostStep(AwaitBootAck, [BootPacket()]))))
        == At(if r.Ok? then Booted else Failed(r.error))
    {
      hide Decoder.Decoder.Valid, Decoder.Decoder.Abs, ReadsFrame, WireOf, Finish;
      ghost var due := Due(HostStep(AwaitBootAck, [BootPacket()]));
      var ok := WriteFrame(BootPacket());
      assert At(AwaitBootAck) == due;
      FinishHears(image, due);
      var payload, reply := Expect(FrameType.Ack);
      assert sent + [] == sent;
      FinishEnds(image, At(Booted));
      if payload.Err? { FinishEnds(image, At(Failed(payload.error))); }
      r := if payload.Ok? then Ok(()) else Err(payload.error);
    }

    /** A whole load. The outcome, the bytes written and what is left unread are the
        automaton's, for everything the port may deliver. */
    method Load(image: Image) returns (r: Result<(), Failure>)
      requires Valid()
      modifies this, decoder, decoder.buf
      ensures Valid()
      ensures Finish(image, old(Due(HostStep(AwaitReady, [HelloPacket()]))))
        == At(if r.Ok? then Booted else Failed(r.error))
    {
      hide Decoder.Decoder.Valid, Decoder.Decoder.Abs, Due, At, Finish, WireOf, HelloPacket;
      var ready := Handshake(image);
      if ready.Err? {
        EndsHere(image, ready.error);
        return Err(ready.error);
      }
      r := Transfer(ready.value, image);
      if r.Err? {
        EndsHere(image, r.error);
        return;
      }
      r := Boot(image);
    }

    lemma EndsHere(image: Image, why: Failure)
      requires Valid()
      ensures Finish(image, At(Failed(why))) == At(Failed(why))
    {
      FinishEnds(image, At(Failed(why)));
    }

    lemma DueNothing()
      requires Valid()
      ensures forall why :: Due(HostStep(Failed(why), [])) == At(Failed(why))
    {
      hide Decoder.Decoder.Valid, Decoder.Decoder.Abs, WireOf;
      assert sent + [] == sent;
    }
  }

  lemma FinishEnds(image: Image, l: Link)
    requires HostOk(image, l.host) && !l.host.Waiting()
    ensures Finish(image, l) == l
  {}

  /** The DATA payload for a chunk, encoded into a reused buffer. */
  method EncodeChunk(buf: array<byte>, offset: u32, chunk: seq<byte>) returns (payload: seq<byte>)
    requires buf.Length == MAX_PAYLOAD && |chunk| <= MAX_CHUNK
    modifies buf
    ensures payload == DataFrame(offset, chunk).ToBytes()
  {
    hide ToLe;
    var n := DataFrame(offset, chunk).EncodeInto(buf);
    payload := buf[..n.value];
  }

  /** The automaton's step into send number `attempt` of a chunk; the seventh is failure. */
  function Attempt(image: Image, chunk: nat, offset: nat, attempt: nat): (s: HostStep)
    requires HostOk(image, AwaitData(chunk, offset, 0))
    ensures HostOk(image, s.next)
  {
    if attempt <= MAX_RETRIES then HostStep(AwaitData(chunk, offset, attempt), [DataPacket(image, chunk, offset)])
    else HostStep(Failed(GaveUp), [])
  }

  lemma SmallPacket(image: Image, chunk: nat, offset: nat)
    requires HostOk(image, AwaitData(chunk, offset, 0))
    ensures |DataPacket(image, chunk, offset).payload| <= MAX_PAYLOAD
  {}

  function WireOf(ps: seq<Packet>): seq<byte>
    decreases |ps|
  {
    if ps == [] then []
    else WireOf(ps[..|ps| - 1]) + Encode(ps[|ps| - 1].ty, ps[|ps| - 1].payload)
  }

  /** What the host writes, a decoder that is scanning reads as the same packets. */
  lemma {:induction false} WireDecodes(ps: seq<Packet>)
    requires forall i :: 0 <= i < |ps| ==> |ps[i].payload| <= MAX_PAYLOAD
    ensures After(Sync0, WireOf(ps)) == Sync0
    ensures |Emitted(Sync0, WireOf(ps))| == |ps|
    ensures forall i :: 0 <= i < |ps| ==> Emitted(Sync0, WireOf(ps))[i] == Good(ps[i].ty, ps[i].payload)
    decreases |ps|
  {
    hide Encode, Step;
    if ps != [] {
      var front, last := ps[..|ps| - 1], ps[|ps| - 1];
      WireDecodes(front);
      FrameDecodes(Sync0, last.ty, last.payload);
      RunSplit(Sync0, WireOf(front), Encode(last.ty, last.payload));
    }
  }

  lemma WireGrows(ps: seq<Packet>, p: Packet)
    ensures WireOf(ps + [p]) == WireOf(ps) + Encode(p.ty, p.payload)
  {
    hide Encode;
    assert (ps + [p])[..|ps|] == ps;
  }
}
