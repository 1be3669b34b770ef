/** The loader's receive loop on bytes and silence: the decoder in front of the protocol
    state machine, and the UART output behind it. */
module ByteLoop {
  import opened Bytes
  import opened Outcomes
  import opened Frame
  import opened Message
  import opened Receive
  import opened LoaderSafety
  import opened Decoding
  import Streams
  import Casts

  /** One turn of the loop: a byte, or none. Whether three seconds have passed since
      the last byte, and whether a heartbeat is due, is the clock's to say. */
  datatype Input = Byte(b: byte) | Silence(expired: bool, beat: bool)

  // ----------------------------------------------------------------------- output

  /** What goes out: a frame, or a line for a human. */
  datatype Out = WaitingLine | IdleLine | Sends(packet: Packet)

  const WAITING: string := "chainloader: up, waiting " + "for host (HELLO)...\n"
  const IDLE: string := "chainloader: idle " + "(low power)...\n"

  predicate IsAscii(s: string) {
    forall i :: 0 <= i < |s| ==> s[i] as int < 128
  }

  /** ASCII text as bytes. */
  function Ascii(s: string): (t: seq<byte>)
    requires IsAscii(s)
    ensures |t| == |s|
    decreases |s|
  {
    if s == [] then []
    else
      assert IsAscii(s[1..]);
      [(s[0] as int) as byte] + Ascii(s[1..])
  }

  lemma WaitingIsAscii()
    ensures IsAscii(WAITING)
  {
    assert IsAscii("chainloader: up, waiting ");
    assert IsAscii("for host (HELLO)...\n");
  }

  lemma IdleIsAscii()
    ensures IsAscii(IDLE)
  {
    assert IsAscii("chainloader: idle ");
    assert IsAscii("(low power)...\n");
  }

  /** Both lines are plain ASCII. */
  lemma LinesAreAscii()
    ensures IsAscii(WAITING) && IsAscii(IDLE)
  {
    hide IsAscii;
    WaitingIsAscii();
    IdleIsAscii();
  }

  /** A frame whose payload does not fit is dropped. */
  function OutBytes(o: Out): seq<byte> {
    LinesAreAscii();
    match o
    case WaitingLine => Ascii(WAITING)
    case IdleLine => Ascii(IDLE)
    case Sends(p) => if |p.payload| <= MAX_PAYLOAD then Encode(p.ty, p.payload) else []
  }

  function BytesOf(outs: seq<Out>): seq<byte>
    decreases |outs|
  {
    if outs == [] then [] else BytesOf(outs[..|outs| - 1]) + OutBytes(outs[|outs| - 1])
  }

  function Frames(ps: seq<Packet>): seq<Out>
    decreases |ps|
  {
    if ps == [] then [] else [Sends(ps[0])] + Frames(ps[1..])
  }

  // ------------------------------------------------------------------------- turns

  datatype Machine = Machine(st: Loader, dec: State, out: seq<Out>, jump: Option<Jump>)

  function Reported(e: Event): Happening {
    match e
    case Good(ty, payload) => Arrived(Packet(ty, payload))
    case Bad(error) => Garbled(error)
  }

  /** What a turn of the loop presents to the protocol. */
  function Meets(m: Machine, i: Input): Option<Happening> {
    match i
    case Byte(b) =>
      var e := Step(m.dec, b).1;
      if e.None? then None else Some(Reported(e.value))
    case Silence(expired, _) => if m.st.transfer.Some? && expired then Some(Expired) else None
  }

  /** Where a turn leaves the decoder; a timeout replaces it by a new one. */
  function DecoderAfter(m: Machine, i: Input): State {
    match i
    case Byte(b) => Step(m.dec, b).0
    case Silence(expired, _) => if m.st.transfer.Some? && expired then Sync0 else m.dec
  }

  /** The heartbeat of a turn in which nothing else happens. */
  function Beat(m: Machine, i: Input): seq<Out> {
    if i.Byte? || (m.st.transfer.Some? && i.expired) || !i.beat then []
    else if m.st.lowPower then [IdleLine]
    else if !m.st.contacted then [WaitingLine]
    else []
  }

  function Turn(b: Board, m: Machine, i: Input): Machine
    requires Inv(b, m.st)
  {
    var e := Meets(m, i);
    if e.None? then m.(dec := DecoderAfter(m, i), out := m.out + Beat(m, i))
    else
      var r := React(b, m.st, e.value);
      Machine(r.next, DecoderAfter(m, i), m.out + Frames(r.replies), r.jump)
  }

  /** The loop, until it jumps or its inputs end. */
  function Turns(b: Board, m: Machine, inputs: seq<Input>): (r: Machine)
    requires Inv(b, m.st)
    ensures Inv(b, r.st)
    decreases |inputs|
  {
    if inputs == [] || m.jump.Some? then m
    else
      TurnKeepsInv(b, m, inputs[0]);
      Turns(b, Turn(b, m, inputs[0]), inputs[1..])
  }

  lemma TurnKeepsInv(b: Board, m: Machine, i: Input)
    requires Inv(b, m.st)
    ensures Inv(b, Turn(b, m, i).st)
  {
    hide React, Inv, Meets, DecoderAfter;
    if Meets(m, i).Some? {
      ReactKeepsInv(b, m.st, Meets(m, i).value);
    }
  }

  // -------------------------------------------------------- down to the protocol

  /** The happenings of a stretch of inputs. */
  function Happenings(b: Board, m: Machine, inputs: seq<Input>): seq<Happening>
    requires Inv(b, m.st)
    decreases |inputs|
  {
    if inputs == [] || m.jump.Some? then []
    else
      TurnKeepsInv(b, m, inputs[0]);
      var e := Meets(m, inputs[0]);
      (if e.Some? then [e.value] else []) + Happenings(b, Turn(b, m, inputs[0]), inputs[1..])
  }

  /** Whatever arrives, byte by byte and pause by pause, the loader's state and jump are
      those of a run of the protocol state machine; so everything proved of every run
      of that machine holds for every input on the wire. */
  lemma {:induction false} BytesRefineFrames(b: Board, m: Machine, inputs: seq<Input>)
    requires Inv(b, m.st) && m.jump.None?
    ensures var r := Turns(b, m, inputs);
      var ran := Run(b, m.st, Happenings(b, m, inputs));
      r.st == ran.last && r.jump == ran.jump
    decreases |inputs|
  {
    hide React, Inv, Meets, DecoderAfter, Beat;
    if inputs != [] {
      var e := Meets(m, inputs[0]);
      var t := Turn(b, m, inputs[0]);
      TurnKeepsInv(b, m, inputs[0]);
      if t.jump.Some? {
        JumpEnds(b, t, inputs[1..]);
        OneHappening(b, m.st, e.value, []);
      } else {
        BytesRefineFrames(b, t, inputs[1..]);
        var more := Happenings(b, t, inputs[1..]);
        if e.Some? {
          OneHappening(b, m.st, e.value, more);
        } else {
          assert [] + more == more;
        }
      }
    }
  }

  lemma JumpEnds(b: Board, m: Machine, inputs: seq<Input>)
    requires Inv(b, m.st) && m.jump.Some?
    ensures Turns(b, m, inputs) == m && Happenings(b, m, inputs) == []
  {}

  lemma OneHappening(b: Board, st: Loader, e: Happening, more: seq<Happening>)
    requires Inv(b, st)
    ensures var r := React(b, st, e);
      && Inv(b, r.next)
      && Run(b, st, [e] + more) == if r.jump.Some? then Ran(r.next, r.jump) else Run(b, r.next, more)
  {
    hide React, Inv;
    ReactKeepsInv(b, st, e);
    assert ([e] + more)[1..] == more;
  }

  /** The window, the loader's own extent and everything no header claimed stay as they
      were, whatever bytes arrive and however long the pauses. */
  lemma BytesKeepOutside(b: Board, m: Machine, inputs: seq<Input>, a: nat)
    requires Inv(b, m.st) && m.jump.None? && a < |m.st.mem|
    requires a < WINDOW_MIN || a >= b.limits.windowMax || b.loaderStart <= a < b.loaderEnd
    ensures |Turns(b, m, inputs).st.mem| == |m.st.mem|
    ensures Turns(b, m, inputs).st.mem[a] == m.st.mem[a]
  {
    hide Turns, Run, Inv, Happenings, ValidateHeader, InFootprint;
    BytesRefineFrames(b, m, inputs);
    if Run(b, m.st, Happenings(b, m, inputs)).last.mem[a] != m.st.mem[a] {
      RunFrame(b, m.st, Happenings(b, m, inputs), a);
    }
  }

  /** Whatever bytes arrive, a jump enters a verified image. */
  lemma BytesJumpVerified(b: Board, m: Machine, inputs: seq<Input>)
    requires Inv(b, m.st) && m.jump.None? && Turns(b, m, inputs).jump.Some?
    ensures Bootable(b, Turns(b, m, inputs).st.mem, Turns(b, m, inputs).jump.value)
  {
    hide Turns, Run, Inv, Happenings, Bootable;
    BytesRefineFrames(b, m, inputs);
    RunJumpsVerified(b, m.st, Happenings(b, m, inputs));
  }

  // ------------------------------------------------------ what a listener decodes

  lemma SevenBits(n: nat)
    requires n < 128
    ensures n as byte != MAGIC_LO
  {
    Casts.ThroughByte(n);
  }

  lemma {:induction false} AsciiIsQuiet(s: string)
    requires IsAscii(s)
    ensures Streams.Quiet(Ascii(s))
    decreases |s|
  {
    if s != [] {
      assert IsAscii(s[1..]);
      AsciiIsQuiet(s[1..]);
      SevenBits(s[0] as int);
    }
  }

  /** The frames among the output. */
  function Heard(outs: seq<Out>): seq<Event>
    decreases |outs|
  {
    if outs == [] then []
    else
      var last := outs[|outs| - 1];
      Heard(outs[..|outs| - 1])
      + (if last.Sends? && |last.packet.payload| <= MAX_PAYLOAD
         then [Good(last.packet.ty, last.packet.payload)] else [])
  }

  /** A listener that was scanning decodes exactly the frames the loader sent, in order
      and without errors, heartbeat lines and all. */
  lemma {:induction false} OutputDecodes(outs: seq<Out>)
    ensures After(Sync0, BytesOf(outs)) == Sync0
    ensures Emitted(Sync0, BytesOf(outs)) == Heard(outs)
    decreases |outs|
  {
    hide After, Emitted, Encode, Ascii;
    if outs == [] {
      Streams.Empty(Sync0);
    } else {
      var front, last := outs[..|outs| - 1], outs[|outs| - 1];
      OutputDecodes(front);
      RunSplit(Sync0, BytesOf(front), OutBytes(last));
      OneOut(last);
    }
  }

  lemma OneOut(o: Out)
    ensures After(Sync0, OutBytes(o)) == Sync0
    ensures Emitted(Sync0, OutBytes(o))
      == if o.Sends? && |o.packet.payload| <= MAX_PAYLOAD then [Good(o.packet.ty, o.packet.payload)] else []
  {
    hide After, Emitted, Encode, Ascii, Streams.Quiet, IsAscii;
    LinesAreAscii();
    match o
    case WaitingLine =>
      AsciiIsQuiet(WAITING);
      Streams.GapSettles(Sync0, Ascii(WAITING));
    case IdleLine =>
      AsciiIsQuiet(IDLE);
      Streams.GapSettles(Sync0, Ascii(IDLE));
    case Sends(p) =>
      Streams.Empty(Sync0);
      if |p.payload| <= MAX_PAYLOAD {
        FrameDecodes(Sync0, p.ty, p.payload);
      }
  }

  // ------------------------------------------------------------ nothing is dropped

  predicate Fits(o: Out) { o.Sends? ==> |o.packet.payload| <= MAX_PAYLOAD }

  predicate AllFit(outs: seq<Out>) {
    forall i :: 0 <= i < |outs| ==> Fits(outs[i])
  }

  predicate Small(ps: seq<Packet>) {
    forall i :: 0 <= i < |ps| ==> |ps[i].payload| <= 32
  }

  lemma SmallReplies(b: Board)
    ensures |SendReady(b.limits).payload| == 32
    ensures forall n: u32 :: |SendAck(n).payload| == 4
    ensures forall c: ErrorCode, d: u32 :: |SendError(c, d).payload| == 6
    ensures |IdleBytes(LOW_POWER_HEARTBEAT_SECS)| == 2
  {
    hide ToLe, ReadyFor;
  }

  lemma DataReplySmall(b: Board, st: Loader, payload: seq<byte>)
    requires Inv(b, st)
    ensures Small(HandleData(b, st, payload).replies)
  {
    SmallReplies(b);
    hide Crc.Raw, Crc.Xor, Write, ValidateHeader, DataFrame.Decode, SendAck, SendError;
  }

  lemma HeaderReplySmall(b: Board, st: Loader, payload: seq<byte>)
    ensures Small(HandleHeader(b, st, payload).replies)
  {
    SmallReplies(b);
    hide ImageHeader.FromBytes, ValidateHeader, SendAck, SendError;
  }

  lemma BootReplySmall(b: Board, st: Loader)
    requires Inv(b, st)
    ensures Small(HandleBoot(b, st).replies)
  {
    SmallReplies(b);
    hide Crc.Raw, Crc.Xor, ValidateHeader, SendAck, SendError, Zeroed;
  }

  lemma FrameReplySmall(b: Board, st: Loader, p: Packet)
    requires Inv(b, st)
    ensures Small(HandleFrame(b, st, p.ty, p.payload).replies)
  {
    hide Inv, HandleData, HandleHeader, HandleBoot, SendAck, SendError, SendReady, IdleBytes;
    SmallReplies(b);
    BootReplySmall(b, st);
    DataReplySmall(b, st, p.payload);
    HeaderReplySmall(b, st, p.payload);
  }

  /** Every reply fits a frame with room to spare. */
  lemma ReplySmall(b: Board, st: Loader, e: Happening)
    requires Inv(b, st)
    ensures Small(React(b, st, e).replies)
  {
    hide Inv, HandleFrame, SendError, SendReady;
    SmallReplies(b);
    ContactKeepsInv(b, st);
    if e.Arrived? {
      FrameReplySmall(b, st.(contacted := true), e.packet);
    }
  }

  lemma FitsOne(outs: seq<Out>, p: Packet)
    requires AllFit(outs) && |p.payload| <= 32
    ensures AllFit(outs + [Sends(p)])
  {}

  lemma {:induction false} SmallFits(outs: seq<Out>, ps: seq<Packet>)
    requires AllFit(outs) && Small(ps)
    ensures AllFit(outs + Frames(ps))
    decreases |ps|
  {
    if ps == [] {
      assert outs + Frames(ps) == outs;
    } else {
      FitsOne(outs, ps[0]);
      hide Fits;
      assert forall i :: 0 <= i < |ps[1..]| ==> ps[1..][i] == ps[i + 1];
      SmallFits(outs + [Sends(ps[0])], ps[1..]);
      assert outs + Frames(ps) == outs + [Sends(ps[0])] + Frames(ps[1..]);
    }
  }

  /** The loader never has to drop a reply, so what it reports is what is heard. */
  lemma {:induction false} NothingDropped(b: Board, m: Machine, inputs: seq<Input>)
    requires Inv(b, m.st) && AllFit(m.out)
    ensures AllFit(Turns(b, m, inputs).out)
    decreases |inputs|
  {
    hide React, Inv, Meets, DecoderAfter, Fits;
    if inputs != [] && m.jump.None? {
      var e := Meets(m, inputs[0]);
      TurnKeepsInv(b, m, inputs[0]);
      if e.Some? {
        ReplySmall(b, m.st, e.value);
        SmallFits(m.out, React(b, m.st, e.value).replies);
      } else {
        BeatFits(m, inputs[0]);
      }
      NothingDropped(b, Turn(b, m, inputs[0]), inputs[1..]);
    }
  }

  lemma BeatFits(m: Machine, i: Input)
    ensures AllFit(Beat(m, i))
    ensures AllFit(m.out) ==> AllFit(m.out + Beat(m, i))
  {}
}
