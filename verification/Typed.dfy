/** Typed messages through the whole stack: payload layout, frame, byte stream, decoder,
    and back. */
module Typed {
  import opened Bytes
  import opened Outcomes
  import opened Frame
  import opened Message
  import opened Decoding
  import opened Streams

  datatype Msg =
    | Hello(hostVersion: u32)
    | Ready(ready: ReadyMsg)
    | Header(header: ImageHeader)
    | Data(data: DataFrame)
    | Ack(nextOffset: u32)
    | Error(code: ErrorCode, detail: u32)
    | Boot
    | Mode(mode: byte)
    | Idle(heartbeatSecs: u16)

  function Kind(m: Msg): FrameType {
    match m
    case Hello(_) => FrameType.Hello
    case Ready(_) => FrameType.Ready
    case Header(_) => FrameType.Header
    case Data(_) => FrameType.Data
    case Ack(_) => FrameType.Ack
    case Error(_, _) => FrameType.Error
    case Boot => FrameType.Boot
    case Mode(_) => FrameType.Mode
    case Idle(_) => FrameType.Idle
  }

  function Payload(m: Msg): seq<byte> {
    match m
    case Hello(v) => HelloBytes(v)
    case Ready(r) => r.ToBytes()
    case Header(h) => h.ToBytes()
    case Data(d) => d.ToBytes()
    case Ack(n) => AckBytes(n)
    case Error(c, d) => ErrorBytes(c, d)
    case Boot => []
    case Mode(b) => [b]
    case Idle(n) => IdleBytes(n)
  }

  function CodeOf(raw: u16): Option<ErrorCode> {
    if raw == 1 then Some(ErrorCode.BadVersion)
    else if raw == 2 then Some(ErrorCode.BadCrc)
    else if raw == 3 then Some(ErrorCode.BadLength)
    else if raw == 4 then Some(ErrorCode.UnknownType)
    else if raw == 5 then Some(ErrorCode.Unexpected)
    else if raw == 6 then Some(ErrorCode.AddrOutOfRange)
    else if raw == 7 then Some(ErrorCode.AddrMisaligned)
    else if raw == 8 then Some(ErrorCode.AddrOverlap)
    else if raw == 9 then Some(ErrorCode.ImageTooLarge)
    else if raw == 10 then Some(ErrorCode.OffsetMismatch)
    else if raw == 11 then Some(ErrorCode.ImageCrc)
    else if raw == 12 then Some(ErrorCode.NoImage)
    else None
  }

  /** What a receiver makes of a decoded frame; `None` for a payload it cannot parse. */
  function Interpret(ty: FrameType, p: seq<byte>): Option<Msg> {
    match ty
    case Hello => if |p| < 4 then None else Some(Msg.Hello(Rd32(p, 0)))
    case Ready => var r := ReadyMsg.FromBytes(p); if r.Err? then None else Some(Msg.Ready(r.value))
    case Header => var h := ImageHeader.FromBytes(p); if h.Err? then None else Some(Msg.Header(h.value))
    case Data => var d := DataFrame.Decode(p); if d.Err? then None else Some(Msg.Data(d.value))
    case Ack => var a := AckFrom(p); if a.Err? then None else Some(Msg.Ack(a.value))
    case Error =>
      if |p| < 6 || CodeOf(Rd16(p, 0)).None? then None
      else Some(Msg.Error(CodeOf(Rd16(p, 0)).value, Rd32(p, 2)))
    case Boot => Some(Msg.Boot)
    case Mode => if p == [] then None else Some(Msg.Mode(p[0]))
    case Idle => if |p| < 2 then None else Some(Msg.Idle(Rd16(p, 0)))
  }

  lemma CodeBack(c: ErrorCode)
    ensures CodeOf(c.AsU16()) == Some(c)
  {}

  /** Every message survives its own encoding. */
  lemma MessageRoundTrip(m: Msg)
    ensures Interpret(Kind(m), Payload(m)) == Some(m)
  {
    hide ToLe, FromLe, ReadyMsg.FromBytes, ReadyMsg.ToBytes, ImageHeader.FromBytes, ImageHeader.ToBytes;
    hide DataFrame.Decode, DataFrame.ToBytes, AckFrom, AckBytes, ErrorBytes, CodeOf;
    match m
    case Hello(v) =>
      Field(v, 4);
      assert HelloBytes(v)[0..4] == HelloBytes(v);
    case Ready(r) => ReadyRoundTrip(r);
    case Header(h) => HeaderRoundTrip(h);
    case Data(d) => DataRoundTrip(d);
    case Ack(n) => AckRoundTrip(n);
    case Error(c, d) =>
      ErrorBack(c, d);
      CodeBack(c);
    case Boot =>
    case Mode(_) =>
    case Idle(n) =>
      Field(n, 2);
      assert IdleBytes(n)[0..2] == IdleBytes(n);
  }

  /** A message on the wire, after a stretch of heartbeat text. */
  datatype Said = Said(text: seq<byte>, msg: Msg)

  function ToSend(list: seq<Said>): (r: seq<Sent>)
    ensures |r| == |list|
    decreases |list|
  {
    if list == [] then [] else [Sent(list[0].text, Kind(list[0].msg), Payload(list[0].msg))] + ToSend(list[1..])
  }

  /** The messages a receiver reads off the decoder's reports. */
  function Understood(es: seq<Event>): seq<Option<Msg>>
    decreases |es|
  {
    if es == [] then []
    else [if es[0].Good? then Interpret(es[0].ty, es[0].payload) else None] + Understood(es[1..])
  }

  function Messages(list: seq<Said>): seq<Option<Msg>>
    decreases |list|
  {
    if list == [] then [] else [Some(list[0].msg)] + Messages(list[1..])
  }

  predicate Fitting(list: seq<Said>) {
    forall i :: 0 <= i < |list| ==> Quiet(list[i].text) && |Payload(list[i].msg)| <= MAX_PAYLOAD
  }

  lemma {:induction false} ContentsUnderstood(list: seq<Said>)
    ensures Understood(Contents(ToSend(list))) == Messages(list)
    decreases |list|
  {
    hide Interpret, Payload, Kind;
    if list != [] {
      var sent := ToSend(list);
      MessageRoundTrip(list[0].msg);
      ContentsUnderstood(list[1..]);
      assert sent[1..] == ToSend(list[1..]);
      var es := Contents(sent);
      assert es[0] == Good(Kind(list[0].msg), Payload(list[0].msg)) && es[1..] == Contents(ToSend(list[1..]));
    }
  }

  lemma {:induction false} FittingSendable(list: seq<Said>)
    requires Fitting(list)
    ensures Sendable(ToSend(list))
    decreases |list|
  {
    hide Payload, Quiet, Kind;
    if list != [] {
      assert Fitting(list[1..]);
      FittingSendable(list[1..]);
    }
  }

  /** Any list of typed messages, with heartbeat text between their frames, is decoded
      from the scanning state to exactly those messages, in order and with no error. */
  lemma TypedRoundTrip(list: seq<Said>)
    requires Fitting(list)
    ensures After(Sync0, Wire(ToSend(list))) == Sync0
    ensures Understood(Emitted(Sync0, Wire(ToSend(list)))) == Messages(list)
  {
    hide After, Emitted, Wire, Understood, Contents, Fitting, ToSend, Messages;
    FittingSendable(list);
    StreamRoundTrip(ToSend(list));
    ContentsUnderstood(list);
  }
}
