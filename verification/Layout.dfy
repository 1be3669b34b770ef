/** The wire format byte by byte: every number of the protocol's tables at its own offset,
    low byte first. A sender and a receiver that agreed on another layout would satisfy
    every round trip; they would not satisfy these. */
module Layout {
  import opened Bytes
  import opened Outcomes
  import opened Frame
  import opened Message
  import opened Decoding
  import Crc

  /** The `k` bytes of `s` from `off` are the base-256 digits of `n`, lowest first. */
  ghost predicate LeAt(s: seq<byte>, off: nat, n: nat, k: nat) {
    && off + k <= |s|
    && n < Span(k)
    && forall i :: 0 <= i < k ==> s[off + i] as nat == Digit(n, i)
  }

  function Digit(n: nat, i: nat): nat { n / Span(i) % 256 }

  // ------------------------------------------------------------------- digits

  lemma DivDiv(n: nat, a: nat)
    requires a > 0
    ensures n / 256 / a == n / (256 * a)
  {
    var q, r := n / 256, n % 256;
    var x, y := q / a, q % a;
    assert n == 256 * q + r && q == a * x + y;
    assert 256 * q == 256 * (a * x) + 256 * y;
    Quotient(n, 256 * a, x, 256 * y + r);
  }

  lemma Quotient(n: nat, d: nat, x: nat, rest: nat)
    requires d > 0 && n == d * x + rest && rest < d
    ensures n / d == x
  {
    var q := n / d;
    assert n == d * q + n % d;
    if q < x {
      NextMultiple(q, x, d);
    } else if x < q {
      NextMultiple(x, q, d);
    }
  }

  lemma NextMultiple(a: nat, b: nat, d: nat)
    requires a < b
    ensures d * a + d <= d * b
  {
    var k := b - a;
    assert d * b == d * a + d * k;
    assert d * k == d + d * (k - 1);
  }

  lemma DigitShift(n: nat, i: nat)
    ensures Digit(n, i + 1) == Digit(n / 256, i)
  {
    DivDiv(n, Span(i));
  }

  /** Writing puts down the digits. */
  lemma {:induction false} ToLeDigits(n: nat, k: nat)
    requires n < Span(k)
    ensures LeAt(ToLe(n, k), 0, n, k)
  {
    if k > 0 {
      var s := ToLe(n, k);
      ToLeDigits(n / 256, k - 1);
      LowByte(n);
      forall i | 0 <= i < k ensures s[i] as nat == Digit(n, i) {
        if i > 0 {
          DigitShift(n, i - 1);
          assert s[i] == ToLe(n / 256, k - 1)[i - 1];
        }
      }
    }
  }

  /** Reading takes them up. */
  lemma FromLeDigits(s: seq<byte>)
    ensures LeAt(s, 0, FromLe(s), |s|)
  {
    ToFromLe(s);
    ToLeDigits(FromLe(s), |s|);
  }

  lemma Shifted(s: seq<byte>, off: nat, n: nat, k: nat)
    requires off + k <= |s| && LeAt(s[off..off + k], 0, n, k)
    ensures LeAt(s, off, n, k)
  {
    var t := s[off..off + k];
    assert forall i :: 0 <= i < k ==> t[i] as nat == Digit(n, i) && s[off + i] == t[i];
  }

  /** A field written at its place. */
  lemma Written(s: seq<byte>, off: nat, n: nat, k: nat)
    requires off + k <= |s| && s[off..off + k] == ToLe(n, k) && n < Span(k)
    ensures LeAt(s, off, n, k)
  {
    hide LeAt;
    ToLeDigits(n, k);
    Shifted(s, off, n, k);
  }

  /** A field read from its place. */
  lemma Taken(s: seq<byte>, off: nat, k: nat)
    requires off + k <= |s|
    ensures LeAt(s, off, FromLe(s[off..off + k]), k)
  {
    hide LeAt, FromLe;
    FromLeDigits(s[off..off + k]);
    Shifted(s, off, FromLe(s[off..off + k]), k);
  }

  /** Digits determine the number. */
  lemma {:induction false} SameDigits(m: nat, n: nat, k: nat)
    requires m < Span(k) && n < Span(k) && forall i :: 0 <= i < k ==> Digit(m, i) == Digit(n, i)
    ensures m == n
  {
    if k > 0 {
      assert Digit(m, 0) == m % 256 && Digit(n, 0) == n % 256;
      forall i | 0 <= i < k - 1 ensures Digit(m / 256, i) == Digit(n / 256, i) {
        DigitShift(m, i);
        DigitShift(n, i);
        assert Digit(m, i + 1) == Digit(n, i + 1);
      }
      SameDigits(m / 256, n / 256, k - 1);
    }
  }

  lemma OneValue(s: seq<byte>, off: nat, m: nat, n: nat, k: nat)
    requires LeAt(s, off, m, k) && LeAt(s, off, n, k)
    ensures m == n
  {
    assert forall i :: 0 <= i < k ==> s[off + i] as nat == Digit(m, i) == Digit(n, i);
    SameDigits(m, n, k);
  }

  // -------------------------------------------------------------------- numbers

  /** The type bytes, and nothing else is a type. */
  lemma TypeNumbers(raw: byte)
    ensures FrameType.Hello.AsU8() == 1 && FrameType.Ready.AsU8() == 2 && FrameType.Header.AsU8() == 3
    ensures FrameType.Data.AsU8() == 4 && FrameType.Ack.AsU8() == 5 && FrameType.Error.AsU8() == 6
    ensures FrameType.Boot.AsU8() == 7 && FrameType.Mode.AsU8() == 8 && FrameType.Idle.AsU8() == 9
    ensures FrameType.FromU8(raw).Some? <==> 1 <= raw as nat <= 9
    ensures FrameType.FromU8(raw).Some? ==> FrameType.FromU8(raw).value.AsU8() == raw
  {
    if 1 <= raw <= 9 {
      Nine(raw);
    }
    assert 1 <= raw <= 9 <==> 1 <= raw as nat <= 9;
  }

  lemma Nine(raw: byte)
    requires 1 <= raw <= 9
    ensures raw == 1 || raw == 2 || raw == 3 || raw == 4 || raw == 5 || raw == 6 || raw == 7 || raw == 8 || raw == 9
  {}

  /** The error codes. */
  lemma CodeNumbers()
    ensures ErrorCode.BadVersion.AsU16() == 1 && ErrorCode.BadCrc.AsU16() == 2 && ErrorCode.BadLength.AsU16() == 3
    ensures ErrorCode.UnknownType.AsU16() == 4 && ErrorCode.Unexpected.AsU16() == 5
    ensures ErrorCode.AddrOutOfRange.AsU16() == 6 && ErrorCode.AddrMisaligned.AsU16() == 7
    ensures ErrorCode.AddrOverlap.AsU16() == 8 && ErrorCode.ImageTooLarge.AsU16() == 9
    ensures ErrorCode.OffsetMismatch.AsU16() == 10 && ErrorCode.ImageCrc.AsU16() == 11
    ensures ErrorCode.NoImage.AsU16() == 12
  {}

  // ---------------------------------------------------------------------- frames

  /** A frame: AE 50, version 1, the type, the length, the payload, and a trailer over
      everything from the version on which a CRC-32 register is left in its residue. */
  lemma FrameBytes(ty: FrameType, payload: seq<byte>)
    requires |payload| <= 1024
    ensures var f := Encode(ty, payload); var n := |payload|;
      && |f| == 6 + n + 4
      && f[0] == 0xAE && f[1] == 0x50 && f[2] == 1 && f[3] == ty.AsU8() && LeAt(f, 4, n, 2)
      && f[6..6 + n] == payload
      && Crc.Raw(0xffff_ffff, f[2..]) == 0xdebb_20e3
  {
    hide Crc.Raw, Crc.Checksum, Crc.Le32, ToLe, LeAt;
    var n := |payload|;
    var body := Body(ty, payload);
    var t := Crc.Le32(Crc.Checksum(body));
    var f := Encode(ty, payload);
    Spans();
    FixedAt(ty, payload);
    Written(f, 4, n, 2);
    assert f[2..] == body + t;
    Crc.ResidueIff(body, t);
  }

  lemma FixedAt(ty: FrameType, payload: seq<byte>)
    ensures var f := Encode(ty, payload);
      && f[..4] == [0xAE, 0x50, 1, ty.AsU8()] && f[4..6] == ToLe(|payload|, 2) && f[6..6 + |payload|] == payload
  {
    hide Encode, Crc.Checksum, Crc.Le32, ToLe, FrameType.AsU8;
    FrameIs(ty, payload);
    var t := Crc.Le32(Crc.Checksum(Body(ty, payload)));
    Cut([0xAE, 0x50, 1, ty.AsU8()], ToLe(|payload|, 2), payload, t);
  }

  lemma FrameIs(ty: FrameType, payload: seq<byte>)
    ensures Encode(ty, payload)
      == [0xAE, 0x50, 1, ty.AsU8()] + ToLe(|payload|, 2) + payload + Crc.Le32(Crc.Checksum(Body(ty, payload)))
  {
    hide Crc.Checksum, Crc.Le32, ToLe, FrameType.AsU8;
    Joins([0xAE, 0x50], [1, ty.AsU8()], ToLe(|payload|, 2), payload);
    assert [0xAE, 0x50] + [1, ty.AsU8()] == [0xAE, 0x50, 1, ty.AsU8()];
  }

  lemma Joins(a: seq<byte>, b: seq<byte>, c: seq<byte>, d: seq<byte>)
    ensures a + (b + c + d) == a + b + c + d
  {}

  lemma Cut(a: seq<byte>, b: seq<byte>, c: seq<byte>, d: seq<byte>)
    ensures var f := a + b + c + d;
      f[..|a|] == a && f[|a|..|a| + |b|] == b && f[|a| + |b|..|a| + |b| + |c|] == c
  {}

  // ------------------------------------------------------------------- verdicts

  /** What a decoder makes of the four bytes after a magic, in their own numbers. */
  ghost predicate Rejected(v: byte, t: byte, len: nat, e: DecodeError) {
    if v != 1 then e == DecodeError.BadVersion(v)
    else if !(1 <= t as nat <= 9) then e == DecodeError.UnknownType(t)
    else len > 1024 && e == LengthTooLarge(len)
  }

  lemma FixedVerdict(fixed: seq<byte>, len: nat)
    requires |fixed| == 4 && LeAt(fixed, 2, len, 2)
    ensures var c := CheckFixed(fixed);
      if c.Err? then Rejected(fixed[0], fixed[1], len, c.error)
      else fixed[0] == 1 && c.value.ty.AsU8() == fixed[1] && c.value.len == len <= 1024
  {
    hide LeAt, FromLe;
    assert fixed[2..] == fixed[2..4];
    Taken(fixed, 2, 2);
    OneValue(fixed, 2, len, FromLe(fixed[2..4]), 2);
    TypeNumbers(fixed[1]);
  }

  /** After a magic, from either scanning state, four more bytes draw one rejection or
      none: a foreign version first, then an unknown type, then a length above 1024. */
  lemma HeaderVerdict(st: State, fixed: seq<byte>, len: nat)
    requires (st == Sync0 || st == Sync1) && |fixed| == 4 && LeAt(fixed, 2, len, 2)
    ensures var es := Emitted(st, [0xAE, 0x50] + fixed);
      if fixed[0] == 1 && 1 <= fixed[1] as nat <= 9 && len <= 1024
      then es == [] && After(st, [0xAE, 0x50] + fixed).InBody?
      else
        && |es| == 1 && es[0].Bad? && Rejected(fixed[0], fixed[1], len, es[0].error)
        && After(st, [0xAE, 0x50] + fixed) == Sync0
  {
    hide CheckFixed, LeAt, After, Emitted;
    FixedVerdict(fixed, len);
    TypeNumbers(fixed[1]);
    RunSplit(st, Magic(), fixed);
    MagicOpens(st);
    FixedDecides(fixed);
  }

  /** A complete frame body draws its payload, or a CRC error that quotes the CRC found in
      the trailer and the one expected. */
  lemma BodyVerdict(ty: FrameType, len: nat, got: seq<byte>, found: bv32)
    requires |got| == 4 + len + 4 && got[4 + len..] == Crc.Le32(found)
    ensures var want := Crc.Checksum(got[..4 + len]);
      CheckBody(ty, len, got)
        == if found == want then Good(ty, got[4..4 + len]) else Bad(DecodeError.BadCrc(found, want))
  {
    hide Crc.Le32, Crc.Checksum, Crc.Word;
    var t := got[4 + len..];
    WordIff(t, found);
    assert t[0] == got[4 + len] && t[1] == got[5 + len] && t[2] == got[6 + len] && t[3] == got[7 + len];
  }

  // -------------------------------------------------------------------- payloads

  /** HEADER: 28 bytes; a shorter payload is refused and a longer one is cut. */
  lemma HeaderBytes(h: ImageHeader)
    ensures var s := h.ToBytes();
      && |s| == 28
      && LeAt(s, 0, h.loadAddr, 8) && LeAt(s, 8, h.imageLen, 4) && LeAt(s, 12, h.memLen, 4)
      && s[16..20] == Crc.Le32(h.imageCrc32)
      && LeAt(s, 20, h.entryOff, 4) && LeAt(s, 24, h.flags, 4)
  {
    hide ToLe, Crc.Le32, LeAt, ImageHeader.ToBytes;
    var s := h.ToBytes();
    Spans();
    HeaderFields(h);
    Written(s, 0, h.loadAddr, 8);
    Written(s, 8, h.imageLen, 4);
    Written(s, 12, h.memLen, 4);
    Written(s, 20, h.entryOff, 4);
    Written(s, 24, h.flags, 4);
  }

  lemma HeaderRead(b: seq<byte>)
    ensures var r := ImageHeader.FromBytes(b);
      if |b| < 28 then r == Err(Truncated(28, |b|))
      else
        && r.Ok?
        && LeAt(b, 0, r.value.loadAddr, 8) && LeAt(b, 8, r.value.imageLen, 4) && LeAt(b, 12, r.value.memLen, 4)
        && b[16..20] == Crc.Le32(r.value.imageCrc32)
        && LeAt(b, 20, r.value.entryOff, 4) && LeAt(b, 24, r.value.flags, 4)
  {
    hide FromLe, LeAt, Crc.Le32, Crc.Word;
    if |b| >= 28 {
      Taken(b, 0, 8);
      Taken(b, 8, 4);
      Taken(b, 12, 4);
      Taken(b, 20, 4);
      Taken(b, 24, 4);
      Crc.Le32Word(b[16], b[17], b[18], b[19]);
      assert b[16..20] == [b[16], b[17], b[18], b[19]];
    }
  }

  /** READY: 32 bytes, the last two zero. */
  lemma ReadyBytes(r: ReadyMsg)
    ensures var s := r.ToBytes();
      && |s| == 32
      && LeAt(s, 0, r.loaderVersion, 4) && LeAt(s, 4, r.maxImageLen, 4) && LeAt(s, 8, r.loadAddrMin, 8)
      && LeAt(s, 16, r.loadAddrMax, 8) && LeAt(s, 24, r.alignment, 4) && LeAt(s, 28, r.maxChunk, 2)
      && s[30] == 0 && s[31] == 0
  {
    hide ToLe, LeAt;
    var s := r.ToBytes();
    Spans();
    Written(s, 0, r.loaderVersion, 4);
    Written(s, 4, r.maxImageLen, 4);
    Written(s, 8, r.loadAddrMin, 8);
    Written(s, 16, r.loadAddrMax, 8);
    Written(s, 24, r.alignment, 4);
    Written(s, 28, r.maxChunk, 2);
  }

  lemma ReadyRead(b: seq<byte>)
    ensures var r := ReadyMsg.FromBytes(b);
      if |b| < 32 then r == Err(Truncated(32, |b|))
      else
        && r.Ok?
        && LeAt(b, 0, r.value.loaderVersion, 4) && LeAt(b, 4, r.value.maxImageLen, 4)
        && LeAt(b, 8, r.value.loadAddrMin, 8) && LeAt(b, 16, r.value.loadAddrMax, 8)
        && LeAt(b, 24, r.value.alignment, 4) && LeAt(b, 28, r.value.maxChunk, 2)
  {
    hide FromLe, LeAt;
    if |b| >= 32 {
      Taken(b, 0, 4);
      Taken(b, 4, 4);
      Taken(b, 8, 8);
      Taken(b, 16, 8);
      Taken(b, 24, 4);
      Taken(b, 28, 2);
    }
  }

  /** DATA: the offset, then the chunk, which is all the rest. */
  lemma DataBytes(d: DataFrame, b: seq<byte>)
    ensures var s := d.ToBytes(); |s| == 4 + |d.chunk| && LeAt(s, 0, d.offset, 4) && s[4..] == d.chunk
    ensures var r := DataFrame.Decode(b);
      if |b| < 4 then r == Err(Truncated(4, |b|)) else r.Ok? && LeAt(b, 0, r.value.offset, 4) && r.value.chunk == b[4..]
  {
    hide ToLe, FromLe, LeAt;
    Spans();
    assert d.ToBytes()[0..4] == ToLe(d.offset, 4);
    Written(d.ToBytes(), 0, d.offset, 4);
    if |b| >= 4 {
      Taken(b, 0, 4);
    }
  }

  /** ACK: the next offset. */
  lemma AckLayout(n: u32, b: seq<byte>)
    ensures |AckBytes(n)| == 4 && LeAt(AckBytes(n), 0, n, 4)
    ensures if |b| < 4 then AckFrom(b) == Err(Truncated(4, |b|))
      else AckFrom(b).Ok? && LeAt(b, 0, AckFrom(b).value, 4)
  {
    hide ToLe, FromLe, LeAt;
    Spans();
    assert AckBytes(n)[0..4] == ToLe(n, 4);
    Written(AckBytes(n), 0, n, 4);
    if |b| >= 4 {
      Taken(b, 0, 4);
    }
  }

  /** ERROR: the code, then the detail. */
  lemma ErrorLayout(c: ErrorCode, d: u32)
    ensures |ErrorBytes(c, d)| == 6 && LeAt(ErrorBytes(c, d), 0, c.AsU16(), 2) && LeAt(ErrorBytes(c, d), 2, d, 4)
  {
    hide ToLe, LeAt;
    Spans();
    var s := ErrorBytes(c, d);
    assert s[0..2] == ToLe(c.AsU16(), 2) && s[2..6] == ToLe(d, 4);
    Written(s, 0, c.AsU16(), 2);
    Written(s, 2, d, 4);
  }

  /** HELLO and IDLE: one number each. */
  lemma SmallLayouts(version: u32, secs: u16)
    ensures |HelloBytes(version)| == 4 && LeAt(HelloBytes(version), 0, version, 4)
    ensures |IdleBytes(secs)| == 2 && LeAt(IdleBytes(secs), 0, secs, 2)
  {
    hide ToLe, LeAt;
    Spans();
    assert HelloBytes(version)[0..4] == ToLe(version, 4) && IdleBytes(secs)[0..2] == ToLe(secs, 2);
    Written(HelloBytes(version), 0, version, 4);
    Written(IdleBytes(secs), 0, secs, 2);
  }
}
