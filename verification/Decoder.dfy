/** The resynchronising decoder over its fixed buffer, updated in place. */
module Decoder {
  import opened Bytes
  import opened Outcomes
  import opened Frame
  import opened Decoding
  import Crc

  const FIXED_LEN: nat := HEADER_LEN - 2
  const DECODE_BUF: nat := FIXED_LEN + MAX_PAYLOAD + TRAILER_LEN

  datatype Phase = PhaseSync0 | PhaseSync1 | PhaseFixed | PhaseBody

  datatype Decoded = Nothing | Frame(ty: FrameType) | Error(error: DecodeError)

  class Decoder {
    var phase: Phase
    const buf: array<byte>
    var fixedN: nat
    var bodyGot: nat
    var bodyNeed: nat
    var ty: FrameType
    var len: nat
    /** Every byte pushed so far. */
    ghost var history: seq<byte>

    ghost predicate Shape()
      reads this, buf
    {
      && buf.Length == DECODE_BUF
      && len <= MAX_PAYLOAD
      && fixedN <= FIXED_LEN
      && (phase == PhaseFixed ==> fixedN < FIXED_LEN)
      && (phase == PhaseBody ==>
          && bodyNeed == len + TRAILER_LEN
          && bodyGot < bodyNeed
          && CheckFixed(buf[..4]) == Ok(Opening(ty, len)))
    }

    /** What the fields mean. */
    ghost function Abs(): State
      requires Shape()
      reads this, buf
    {
      match phase
      case PhaseSync0 => Sync0
      case PhaseSync1 => Sync1
      case PhaseFixed => InFixed(buf[..fixedN])
      case PhaseBody =>
        var got := buf[..FIXED_LEN + bodyGot];
        assert got[..4] == buf[..4];
        InBody(ty, len, got)
    }

    ghost predicate Valid()
      reads this, buf
    {
      && Shape()
      && Abs() == After(Sync0, history)
      && Recent(Abs(), history)
    }

    constructor ()
      ensures Valid() && fresh(buf)
      ensures Abs() == Sync0 && history == []
    {
      phase := PhaseSync0;
      buf := new byte[DECODE_BUF](_ => 0);
      fixedN, bodyGot, bodyNeed := 0, 0, 0;
      ty, len := FrameType.Hello, 0;
      history := [];
    }

    /** The payload of the frame just completed. */
    function CurrentPayload(): seq<byte>
      requires Shape()
      reads this, buf
    {
      buf[FIXED_LEN..FIXED_LEN + len]
    }

    /** Back to scanning; the buffer keeps its bytes. */
    method Reset()
      requires buf.Length == DECODE_BUF && len <= MAX_PAYLOAD
      modifies this
      ensures Shape() && Abs() == Sync0
      ensures len == old(len) && ty == old(ty) && history == old(history)
    {
      phase := PhaseSync0;
      fixedN, bodyGot := 0, 0;
    }

    /** What a push answers, against the step function. */
    ghost predicate Answers(r: Decoded, e: Option<Event>)
      requires Shape()
      reads this, buf
    {
      match r
      case Nothing => e == None
      case Frame(t) => e == Some(Good(t, CurrentPayload()))
      case Error(err) => e == Some(Bad(err))
    }

    method Push(b: byte) returns (r: Decoded)
      requires Valid()
      modifies this, buf
      ensures Valid() && history == old(history) + [b]
      ensures Abs() == Step(old(Abs()), b).0
      ensures Answers(r, Step(old(Abs()), b).1)
      ensures r.Frame? ==>
        |CurrentPayload()| <= MAX_PAYLOAD && EndsWith(history, Encode(r.ty, CurrentPayload()))
    {
      hide CheckFixed, CheckBody, Encode, Recent, EndsWith, After, Step;
      StepSound(Abs(), history, b);
      OneMore(Sync0, history, b);
      r := Advance(b);
      history := history + [b];
    }

    /** The match on the phase. */
    method Advance(b: byte) returns (r: Decoded)
      requires Shape()
      modifies this, buf
      ensures Shape() && history == old(history)
      ensures Abs() == Step(old(Abs()), b).0
      ensures Answers(r, Step(old(Abs()), b).1)
    {
      hide CheckFixed, CheckBody;
      match phase {
        case PhaseSync0 =>
          if b == MAGIC_LO {
            phase := PhaseSync1;
          }
          r := Nothing;
        case PhaseSync1 =>
          if b == MAGIC_HI {
            phase := PhaseFixed;
            fixedN := 0;
          } else if b != MAGIC_LO {
            phase := PhaseSync0;
          }
          r := Nothing;
        case PhaseFixed =>
          r := PushFixed(b);
        case PhaseBody =>
          r := PushBody(b);
      }
    }

    method PushFixed(b: byte) returns (r: Decoded)
      requires Shape() && phase == PhaseFixed
      modifies this, buf
      ensures Shape() && history == old(history)
      ensures Abs() == Step(old(Abs()), b).0
      ensures Answers(r, Step(old(Abs()), b).1)
      ensures !r.Frame?
    {
      hide Encode, Recent, EndsWith, FromLe;
      buf[fixedN] := b;
      fixedN := fixedN + 1;
      assert buf[..fixedN] == old(buf[..fixedN]) + [b];
      if fixedN < FIXED_LEN {
        return Nothing;
      }
      ghost var now := buf[..4];
      var version := buf[0];
      if version != PROTOCOL_VERSION {
        Reset();
        return Decoded.Error(BadVersion(version));
      }
      var known := FrameType.FromU8(buf[1]);
      if known.None? {
        var raw := buf[1];
        Reset();
        return Decoded.Error(UnknownType(raw));
      }
      assert now[2..] == [buf[2], buf[3]];
      var n := FromLe([buf[2], buf[3]]);
      if n > MAX_PAYLOAD {
        Reset();
        return Decoded.Error(LengthTooLarge(n));
      }
      ty := known.value;
      len := n;
      bodyNeed := len + TRAILER_LEN;
      bodyGot := 0;
      phase := PhaseBody;
      assert buf[..4 + bodyGot] == now;
      r := Nothing;
    }

    method PushBody(b: byte) returns (r: Decoded)
      requires Shape() && phase == PhaseBody
      modifies this, buf
      ensures Shape() && history == old(history)
      ensures Abs() == Step(old(Abs()), b).0
      ensures Answers(r, Step(old(Abs()), b).1)
    {
      hide CheckFixed, Encode, Recent, EndsWith, FromLe, Crc.Checksum, Crc.Word;
      buf[FIXED_LEN + bodyGot] := b;
      bodyGot := bodyGot + 1;
      ghost var now := buf[..FIXED_LEN + bodyGot];
      assert now == old(buf[..FIXED_LEN + bodyGot]) + [b];
      assert buf[..4] == old(buf[..4]);
      if bodyGot < bodyNeed {
        return Nothing;
      }
      var bodyEnd := FIXED_LEN + len;
      assert buf[..bodyEnd] == now[..bodyEnd];
      assert buf[FIXED_LEN..bodyEnd] == now[4..bodyEnd];
      var expected := Crc.Crc32Of(buf[..bodyEnd]);
      var found := Crc.Word(buf[bodyEnd], buf[bodyEnd + 1], buf[bodyEnd + 2], buf[bodyEnd + 3]);
      phase := PhaseSync0;
      fixedN := 0;
      bodyGot := 0;
      if found == expected {
        r := Decoded.Frame(ty);
      } else {
        r := Decoded.Error(BadCrc(found, expected));
      }
    }
  }
}
