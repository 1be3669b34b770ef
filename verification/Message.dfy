/** Typed payloads and their fixed little-endian layouts. */
module Message {
  import opened Bytes
  import opened Outcomes
  import opened Frame
  import Crc

  datatype MsgError = Truncated(expected: nat, got: nat)

  datatype ErrorCode =
    | BadVersion | BadCrc | BadLength | UnknownType | Unexpected | AddrOutOfRange
    | AddrMisaligned | AddrOverlap | ImageTooLarge | OffsetMismatch | ImageCrc | NoImage
  {
    function AsU16(): u16 {
      match this
      case BadVersion => 1
      case BadCrc => 2
      case BadLength => 3
      case UnknownType => 4
      case Unexpected => 5
      case AddrOutOfRange => 6
      case AddrMisaligned => 7
      case AddrOverlap => 8
      case ImageTooLarge => 9
      case OffsetMismatch => 10
      case ImageCrc => 11
      case NoImage => 12
    }
  }

  // ------------------------------------------------------------ little fields

  /** Reading a field that was written is the identity, at any width in use. */
  lemma Field(n: nat, k: nat)
    requires (k == 2 && n < 0x1_0000) || (k == 4 && n < U32) || (k == 8 && n < U64)
    ensures FromLe(ToLe(n, k)) == n
  {
    Spans();
    FromToLe(n, k);
  }

  function Rd16(b: seq<byte>, off: nat): (n: u16)
    requires off + 2 <= |b|
  {
    Spans();
    FromLe(b[off..off + 2])
  }

  function Rd32(b: seq<byte>, off: nat): (n: u32)
    requires off + 4 <= |b|
  {
    Spans();
    FromLe(b[off..off + 4])
  }

  function Rd64(b: seq<byte>, off: nat): (n: u64)
    requires off + 8 <= |b|
  {
    Spans();
    FromLe(b[off..off + 8])
  }

  function RdWord(b: seq<byte>, off: nat): bv32
    requires off + 4 <= |b|
  {
    Crc.Word(b[off], b[off + 1], b[off + 2], b[off + 3])
  }

  // ------------------------------------------------------------------- HEADER

  datatype ImageHeader = ImageHeader(
    loadAddr: u64, imageLen: u32, memLen: u32, imageCrc32: bv32, entryOff: u32, flags: u32)
  {
    function ToBytes(): (s: seq<byte>)
      ensures |s| == 28
    {
      ToLe(loadAddr, 8) + ToLe(imageLen, 4) + ToLe(memLen, 4) + Crc.Le32(imageCrc32)
      + ToLe(entryOff, 4) + ToLe(flags, 4)
    }

    static function FromBytes(b: seq<byte>): Result<ImageHeader, MsgError> {
      if |b| < 28 then Err(Truncated(28, |b|))
      else Ok(ImageHeader(Rd64(b, 0), Rd32(b, 8), Rd32(b, 12), RdWord(b, 16), Rd32(b, 20), Rd32(b, 24)))
    }
  }

  /** `now` is `was` with its front replaced by `done`. */
  predicate Filled(now: seq<byte>, done: seq<byte>, was: seq<byte>) {
    |now| == |was| && |done| <= |was| && now == done + was[|done|..]
  }

  /** One field written behind those already there. */
  method PutField(out: array<byte>, ghost done: seq<byte>, at: nat, field: seq<byte>, ghost was: seq<byte>)
    requires Filled(out[..], done, was) && at == |done| && at + |field| <= |was|
    modifies out
    ensures Filled(out[..], done + field, was)
  {
    ghost var before := out[..];
    CopyInto(out, at, field);
    assert before[..at] == done && before[at + |field|..] == was[at + |field|..];
  }

  lemma FilledFrom(was: seq<byte>)
    ensures Filled(was, [], was)
  {}

  lemma FilledTo(now: seq<byte>, done: seq<byte>, was: seq<byte>)
    requires Filled(now, done, was)
    ensures now == done + was[|done|..] && |done| <= |was|
  {}

  /** `ImageHeader::to_bytes`: six fields copied into a zeroed buffer. */
  method HeaderToBytes(h: ImageHeader) returns (out: array<byte>)
    ensures fresh(out) && out[..] == h.ToBytes()
  {
    hide ToLe, Crc.Le32, Filled;
    out := new byte[28](_ => 0);
    ghost var was := out[..];
    FilledFrom(was);
    ghost var d1 := ToLe(h.loadAddr, 8);
    ghost var d2 := d1 + ToLe(h.imageLen, 4);
    ghost var d3 := d2 + ToLe(h.memLen, 4);
    ghost var d4 := d3 + Crc.Le32(h.imageCrc32);
    ghost var d5 := d4 + ToLe(h.entryOff, 4);
    PutField(out, [], 0, ToLe(h.loadAddr, 8), was);
    assert [] + d1 == d1;
    PutField(out, d1, 8, ToLe(h.imageLen, 4), was);
    PutField(out, d2, 12, ToLe(h.memLen, 4), was);
    PutField(out, d3, 16, Crc.Le32(h.imageCrc32), was);
    PutField(out, d4, 20, ToLe(h.entryOff, 4), was);
    PutField(out, d5, 24, ToLe(h.flags, 4), was);
    FilledTo(out[..], h.ToBytes(), was);
  }

  /** Where each field lies. */
  lemma HeaderFields(h: ImageHeader)
    ensures var s := h.ToBytes();
      && s[0..8] == ToLe(h.loadAddr, 8) && s[8..12] == ToLe(h.imageLen, 4) && s[12..16] == ToLe(h.memLen, 4)
      && s[16..20] == Crc.Le32(h.imageCrc32) && s[20..24] == ToLe(h.entryOff, 4) && s[24..28] == ToLe(h.flags, 4)
  {
    hide ToLe, Crc.Le32;
    var p2 := ToLe(h.loadAddr, 8) + ToLe(h.imageLen, 4);
    var p3 := p2 + ToLe(h.memLen, 4);
    var p4 := p3 + Crc.Le32(h.imageCrc32);
    var p5 := p4 + ToLe(h.entryOff, 4);
    var s := p5 + ToLe(h.flags, 4);
    assert s == h.ToBytes();
    assert p3[..12] == p2 && p4[..16] == p3 && p5[..20] == p4 && s[..24] == p5;
    assert s[24..28] == ToLe(h.flags, 4);
    assert s[20..24] == p5[20..24] == ToLe(h.entryOff, 4);
    assert s[16..20] == p4[16..20] == Crc.Le32(h.imageCrc32);
    assert s[12..16] == p3[12..16] == ToLe(h.memLen, 4);
    assert s[8..12] == p2[8..12] == ToLe(h.imageLen, 4);
    assert s[0..8] == p2[0..8] == ToLe(h.loadAddr, 8);
  }

  lemma HeaderRoundTrip(h: ImageHeader)
    ensures ImageHeader.FromBytes(h.ToBytes()) == Ok(h)
  {
    hide ToLe, FromLe, Crc.Le32, Crc.Word;
    var s := h.ToBytes();
    HeaderFields(h);
    Field(h.loadAddr, 8);
    Field(h.imageLen, 4);
    Field(h.memLen, 4);
    Field(h.entryOff, 4);
    Field(h.flags, 4);
    Crc.WordLe32(h.imageCrc32);
    assert s[16] == s[16..20][0] && s[17] == s[16..20][1] && s[18] == s[16..20][2] && s[19] == s[16..20][3];
  }

  // -------------------------------------------------------------------- READY

  datatype ReadyMsg = ReadyMsg(
    loaderVersion: u32, maxImageLen: u32, loadAddrMin: u64, loadAddrMax: u64, alignment: u32, maxChunk: u16)
  {
    function ToBytes(): (s: seq<byte>)
      ensures |s| == 32
    {
      ToLe(loaderVersion, 4) + ToLe(maxImageLen, 4) + ToLe(loadAddrMin, 8) + ToLe(loadAddrMax, 8)
      + ToLe(alignment, 4) + ToLe(maxChunk, 2) + [0, 0]
    }

    static function FromBytes(b: seq<byte>): Result<ReadyMsg, MsgError> {
      if |b| < 32 then Err(Truncated(32, |b|))
      else Ok(ReadyMsg(Rd32(b, 0), Rd32(b, 4), Rd64(b, 8), Rd64(b, 16), Rd32(b, 24), Rd16(b, 28)))
    }
  }

  /** The first three fields of READY. */
  function ReadyFront(r: ReadyMsg): (s: seq<byte>)
    ensures |s| == 16
  {
    ToLe(r.loaderVersion, 4) + ToLe(r.maxImageLen, 4) + ToLe(r.loadAddrMin, 8)
  }

  method PutReadyFront(r: ReadyMsg, out: array<byte>, ghost was: seq<byte>)
    requires out.Length == 32 && out[..] == was
    modifies out
    ensures Filled(out[..], ReadyFront(r), was)
  {
    hide ToLe, Filled;
    FilledFrom(was);
    ghost var d1 := ToLe(r.loaderVersion, 4);
    PutField(out, [], 0, ToLe(r.loaderVersion, 4), was);
    assert [] + d1 == d1;
    PutField(out, d1, 4, ToLe(r.maxImageLen, 4), was);
    PutField(out, d1 + ToLe(r.maxImageLen, 4), 8, ToLe(r.loadAddrMin, 8), was);
  }

  /** `Ready::to_bytes`: the last two bytes are reserved and stay zero. */
  method ReadyToBytes(r: ReadyMsg) returns (out: array<byte>)
    ensures fresh(out) && out[..] == r.ToBytes()
  {
    hide ToLe, Filled, ReadyFront;
    out := new byte[32](_ => 0);
    ghost var was := out[..];
    PutReadyFront(r, out, was);
    ghost var d3 := ReadyFront(r);
    ghost var d4 := d3 + ToLe(r.loadAddrMax, 8);
    ghost var d5 := d4 + ToLe(r.alignment, 4);
    PutField(out, d3, 16, ToLe(r.loadAddrMax, 8), was);
    PutField(out, d4, 24, ToLe(r.alignment, 4), was);
    PutField(out, d5, 28, ToLe(r.maxChunk, 2), was);
    FilledTo(out[..], d5 + ToLe(r.maxChunk, 2), was);
    assert was[30..] == [0, 0];
    ReadyBack(r);
  }

  lemma ReadyBack(r: ReadyMsg)
    ensures r.ToBytes()
      == ReadyFront(r) + ToLe(r.loadAddrMax, 8) + ToLe(r.alignment, 4) + ToLe(r.maxChunk, 2) + [0, 0]
  {
    hide ToLe;
  }

  lemma ReadyRoundTrip(r: ReadyMsg)
    ensures ReadyMsg.FromBytes(r.ToBytes()) == Ok(r)
  {
    hide ToLe, FromLe;
    var s := r.ToBytes();
    assert s[0..4] == ToLe(r.loaderVersion, 4);
    assert s[4..8] == ToLe(r.maxImageLen, 4);
    assert s[8..16] == ToLe(r.loadAddrMin, 8);
    assert s[16..24] == ToLe(r.loadAddrMax, 8);
    assert s[24..28] == ToLe(r.alignment, 4);
    assert s[28..30] == ToLe(r.maxChunk, 2);
    Field(r.loaderVersion, 4);
    Field(r.maxImageLen, 4);
    Field(r.loadAddrMin, 8);
    Field(r.loadAddrMax, 8);
    Field(r.alignment, 4);
    Field(r.maxChunk, 2);
  }

  // ---------------------------------------------------------- the small ones

  function AckBytes(nextOffset: u32): (s: seq<byte>)
    ensures |s| == 4
  {
    ToLe(nextOffset, 4)
  }

  function AckFrom(b: seq<byte>): Result<u32, MsgError> {
    if |b| < 4 then Err(Truncated(4, |b|)) else Ok(Rd32(b, 0))
  }

  lemma AckRoundTrip(n: u32)
    ensures AckFrom(AckBytes(n)) == Ok(n)
  {
    hide ToLe, FromLe;
    Field(n, 4);
    assert AckBytes(n)[0..4] == AckBytes(n);
  }

  function HelloBytes(hostVersion: u32): seq<byte> { ToLe(hostVersion, 4) }

  function ErrorBytes(code: ErrorCode, detail: u32): seq<byte> {
    ToLe(code.AsU16(), 2) + ToLe(detail, 4)
  }

  lemma ErrorBack(c: ErrorCode, d: u32)
    ensures |ErrorBytes(c, d)| == 6 && Rd16(ErrorBytes(c, d), 0) == c.AsU16() && Rd32(ErrorBytes(c, d), 2) == d
  {
    hide ToLe, FromLe;
    var s := ErrorBytes(c, d);
    assert s[0..2] == ToLe(c.AsU16(), 2) && s[2..6] == ToLe(d, 4);
    Field(c.AsU16(), 2);
    Field(d, 4);
  }

  function IdleBytes(heartbeatSecs: u16): seq<byte> { ToLe(heartbeatSecs, 2) }

  // --------------------------------------------------------------------- DATA

  const DATA_HEADER: nat := 4

  datatype DataFrame = DataFrame(offset: u32, chunk: seq<byte>)
  {
    function ToBytes(): (s: seq<byte>)
      ensures |s| == DATA_HEADER + |chunk|
    {
      ToLe(offset, 4) + chunk
    }

    static function Decode(b: seq<byte>): Result<DataFrame, MsgError> {
      if |b| < DATA_HEADER then Err(Truncated(DATA_HEADER, |b|))
      else Ok(DataFrame(Rd32(b, 0), b[DATA_HEADER..]))
    }

    /** Writes offset then chunk at the front of `out`. */
    method EncodeInto(out: array<byte>) returns (r: Result<nat, MsgError>)
      modifies out
      ensures out.Length < DATA_HEADER + |chunk| ==>
        r == Err(Truncated(DATA_HEADER + |chunk|, out.Length)) && out[..] == old(out[..])
      ensures out.Length >= DATA_HEADER + |chunk| ==>
        r == Ok(DATA_HEADER + |chunk|) && out[..] == ToBytes() + old(out[DATA_HEADER + |chunk|..])
    {
      var need := DATA_HEADER + |chunk|;
      if out.Length < need {
        return Err(Truncated(need, out.Length));
      }
      ghost var was := out[..];
      CopyInto(out, 0, ToLe(offset, 4));
      CopyInto(out, DATA_HEADER, chunk);
      assert out[..] == ToLe(offset, 4) + chunk + was[need..];
      r := Ok(need);
    }
  }

  lemma DataRoundTrip(d: DataFrame)
    ensures DataFrame.Decode(d.ToBytes()) == Ok(d)
  {
    hide ToLe, FromLe;
    Field(d.offset, 4);
    assert d.ToBytes()[0..4] == ToLe(d.offset, 4);
    assert d.ToBytes()[4..] == d.chunk;
  }
}
