/** How a frame is laid out, and how one is written.

    A frame is magic, version, type, length, payload and CRC; the CRC covers
    everything between the magic and itself, which is called the body here. */
module Frame {
  import opened Bytes
  import opened Outcomes
  import Crc

  const MAGIC_LO: byte := 0xAE
  const MAGIC_HI: byte := 0x50
  const PROTOCOL_VERSION: byte := 1
  const MAX_PAYLOAD: nat := 1024
  const HEADER_LEN: nat := 6
  const TRAILER_LEN: nat := 4
  const MAX_FRAME: nat := HEADER_LEN + MAX_PAYLOAD + TRAILER_LEN

  datatype FrameType = Hello | Ready | Header | Data | Ack | Error | Boot | Mode | Idle {
    function AsU8(): byte {
      match this
      case Hello => 1
      case Ready => 2
      case Header => 3
      case Data => 4
      case Ack => 5
      case Error => 6
      case Boot => 7
      case Mode => 8
      case Idle => 9
    }

    static function FromU8(raw: byte): Option<FrameType> {
      if raw == 1 then Some(Hello)
      else if raw == 2 then Some(Ready)
      else if raw == 3 then Some(Header)
      else if raw == 4 then Some(Data)
      else if raw == 5 then Some(Ack)
      else if raw == 6 then Some(Error)
      else if raw == 7 then Some(Boot)
      else if raw == 8 then Some(Mode)
      else if raw == 9 then Some(Idle)
      else None
    }
  }

  function FrameLen(payloadLen: nat): nat {
    HEADER_LEN + payloadLen + TRAILER_LEN
  }

  datatype EncodeError = PayloadTooLarge | BufferTooSmall

  /** The four fixed bytes after the magic. */
  function Fixed(ty: FrameType, payloadLen: nat): (s: seq<byte>)
    ensures |s| == 4
  {
    [PROTOCOL_VERSION, ty.AsU8()] + ToLe(payloadLen, 2)
  }

  /** The CRC-covered bytes. */
  function Body(ty: FrameType, payload: seq<byte>): (s: seq<byte>)
    ensures |s| == 4 + |payload|
  {
    Fixed(ty, |payload|) + payload
  }

  /** The frame a receiver expects: the specification of `EncodeFrame`. */
  function Encode(ty: FrameType, payload: seq<byte>): (s: seq<byte>)
    ensures |s| == FrameLen(|payload|)
  {
    [MAGIC_LO, MAGIC_HI] + Body(ty, payload) + Crc.Le32(Crc.Checksum(Body(ty, payload)))
  }

  lemma TypeByte(ty: FrameType)
    ensures FrameType.FromU8(ty.AsU8()) == Some(ty)
  {}

  lemma TypeByteBack(raw: byte)
    ensures FrameType.FromU8(raw).Some? ==> FrameType.FromU8(raw).value.AsU8() == raw
  {}

  /** `out[at..at + bytes.len()].copy_from_slice(bytes)`. */
  method CopyInto(out: array<byte>, at: nat, bytes: seq<byte>)
    requires at + |bytes| <= out.Length
    modifies out
    ensures out[..] == old(out[..at]) + bytes + old(out[at + |bytes|..])
  {
    forall i | 0 <= i < |bytes| {
      out[at + i] := bytes[i];
    }
  }

  /** Everything up to the trailer. */
  method WriteBody(ty: FrameType, payload: seq<byte>, out: array<byte>)
    requires HEADER_LEN + |payload| <= out.Length
    modifies out
    ensures out[..] == [MAGIC_LO, MAGIC_HI] + Body(ty, payload) + old(out[HEADER_LEN + |payload|..])
  {
    hide Fixed;
    ghost var was := out[..];
    var head := [MAGIC_LO, MAGIC_HI] + Fixed(ty, |payload|);
    CopyInto(out, 0, head);
    assert out[..] == head + was[HEADER_LEN..];
    CopyInto(out, HEADER_LEN, payload);
    assert out[..] == head + payload + was[HEADER_LEN + |payload|..];
  }

  /** Writes one frame at the front of `out` and returns its length. */
  method EncodeFrame(ty: FrameType, payload: seq<byte>, out: array<byte>) returns (r: Result<nat, EncodeError>)
    modifies out
    ensures |payload| > MAX_PAYLOAD ==> r == Err(PayloadTooLarge)
    ensures |payload| <= MAX_PAYLOAD && out.Length < FrameLen(|payload|) ==> r == Err(BufferTooSmall)
    ensures r.Err? ==> out[..] == old(out[..])
    ensures |payload| <= MAX_PAYLOAD && out.Length >= FrameLen(|payload|) ==>
      && r == Ok(FrameLen(|payload|))
      && out[..] == Encode(ty, payload) + old(out[FrameLen(|payload|)..])
  {
    hide Crc.Checksum, Crc.Le32, Body;
    if |payload| > MAX_PAYLOAD {
      return Err(PayloadTooLarge);
    }
    var total := FrameLen(|payload|);
    if out.Length < total {
      return Err(BufferTooSmall);
    }
    ghost var was := out[..];
    WriteBody(ty, payload, out);
    var bodyEnd := HEADER_LEN + |payload|;
    ghost var front := [MAGIC_LO, MAGIC_HI] + Body(ty, payload);
    assert out[..bodyEnd] == front && out[2..bodyEnd] == front[2..] == Body(ty, payload);
    var crc := Crc.Crc32Of(out[2..bodyEnd]);
    CopyInto(out, bodyEnd, Crc.Le32(crc));
    assert out[..] == front + Crc.Le32(crc) + was[total..];
    r := Ok(total);
  }
}
