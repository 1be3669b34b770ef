/** The byte-fed decoder as a function on values.

    `Step` is one call of the decoder; `After` and `Emitted` run it over a stream. What
    follows from it for whole streams is in `Streams`. */
module Decoding {
  import opened Bytes
  import opened Outcomes
  import opened Frame
  import Crc

  datatype DecodeError =
    | BadVersion(version: byte)
    | UnknownType(raw: byte)
    | LengthTooLarge(len: nat)
    | BadCrc(found: bv32, expected: bv32)

  /** What valid fixed bytes announce. */
  datatype Opening = Opening(ty: FrameType, len: nat)

  datatype Event = Good(ty: FrameType, payload: seq<byte>) | Bad(error: DecodeError)

  /** `got` holds the bytes stored since the magic. */
  datatype RawState =
    | Sync0
    | Sync1
    | InFixed(got: seq<byte>)
    | InBody(ty: FrameType, len: nat, got: seq<byte>)
  {
    predicate Consistent() {
      match this
      case Sync0 => true
      case Sync1 => true
      case InFixed(got) => |got| < 4
      case InBody(ty, len, got) =>
        && 4 <= |got| < 4 + len + TRAILER_LEN
        && CheckFixed(got[..4]) == Ok(Opening(ty, len))
    }
  }

  type State = s: RawState | s.Consistent() witness Sync0

  /** The header checks, in the order the code makes them. */
  function CheckFixed(fixed: seq<byte>): (r: Result<Opening, DecodeError>)
    requires |fixed| == 4
    ensures r.Ok? ==> r.value.len <= MAX_PAYLOAD
  {
    if fixed[0] != PROTOCOL_VERSION then Err(BadVersion(fixed[0]))
    else if FrameType.FromU8(fixed[1]).None? then Err(UnknownType(fixed[1]))
    else
      var len := FromLe(fixed[2..]);
      if len > MAX_PAYLOAD then Err(LengthTooLarge(len))
      else Ok(Opening(FrameType.FromU8(fixed[1]).value, len))
  }

  /** The CRC check over a complete body and trailer. */
  function CheckBody(ty: FrameType, len: nat, got: seq<byte>): Event
    requires |got| == 4 + len + TRAILER_LEN
  {
    var end := 4 + len;
    var expected := Crc.Checksum(got[..end]);
    var found := Crc.Word(got[end], got[end + 1], got[end + 2], got[end + 3]);
    if found == expected then Good(ty, got[4..end]) else Bad(BadCrc(found, expected))
  }

  /** One byte. */
  function Step(st: State, b: byte): (State, Option<Event>) {
    match st
    case Sync0 =>
      (if b == MAGIC_LO then Sync1 else Sync0, None)
    case Sync1 =>
      (if b == MAGIC_HI then InFixed([]) else if b == MAGIC_LO then Sync1 else Sync0, None)
    case InFixed(got) =>
      var now := got + [b];
      if |now| < 4 then (InFixed(now), None)
      else
        var checked := CheckFixed(now);
        if checked.Err? then (Sync0, Some(Bad(checked.error)))
        else
          assert now[..4] == now;
          (InBody(checked.value.ty, checked.value.len, now), None)
    case InBody(ty, len, got) =>
      var now := got + [b];
      assert now[..4] == got[..4];
      if |now| < 4 + len + TRAILER_LEN then (InBody(ty, len, now), None)
      else (Sync0, Some(CheckBody(ty, len, now)))
  }

  function Opt(e: Option<Event>): seq<Event> {
    if e.Some? then [e.value] else []
  }

  function After(st: State, s: seq<byte>): State
    decreases |s|
  {
    if s == [] then st else After(Step(st, s[0]).0, s[1..])
  }

  function Emitted(st: State, s: seq<byte>): seq<Event>
    decreases |s|
  {
    if s == [] then [] else Opt(Step(st, s[0]).1) + Emitted(Step(st, s[0]).0, s[1..])
  }

  lemma {:induction false} RunSplit(st: State, a: seq<byte>, b: seq<byte>)
    ensures After(st, a + b) == After(After(st, a), b)
    ensures Emitted(st, a + b) == Emitted(st, a) + Emitted(After(st, a), b)
    decreases |a|
  {
    hide Step;
    if a == [] {
      assert a + b == b;
    } else {
      var next, t := Step(st, a[0]).0, a[1..];
      assert (a + b)[1..] == t + b;
      RunSplit(next, t, b);
      var e := Opt(Step(st, a[0]).1);
      assert e + (Emitted(next, t) + Emitted(After(next, t), b)) == e + Emitted(next, t) + Emitted(After(next, t), b);
    }
  }

  lemma OneMore(st: State, s: seq<byte>, b: byte)
    ensures After(st, s + [b]) == Step(After(st, s), b).0
    ensures Emitted(st, s + [b]) == Emitted(st, s) + Opt(Step(After(st, s), b).1)
  {
    hide Step;
    RunSplit(st, s, [b]);
    assert [b][1..] == [];
  }

  lemma {:induction false} CollectFixed(got: seq<byte>, s: seq<byte>)
    requires |got| + |s| < 4
    ensures After(InFixed(got), s) == InFixed(got + s) && Emitted(InFixed(got), s) == []
    decreases |s|
  {
    if s == [] {
      assert got + s == got;
    } else {
      CollectFixed(got + [s[0]], s[1..]);
      assert got + [s[0]] + s[1..] == got + s;
    }
  }

  lemma {:induction false} CollectBody(st: State, s: seq<byte>)
    requires st.InBody? && |st.got| + |s| < 4 + st.len + TRAILER_LEN
    ensures After(st, s) == InBody(st.ty, st.len, st.got + s) && Emitted(st, s) == []
    decreases |s|
  {
    if s == [] {
      assert st.got + s == st.got;
    } else {
      var next := Step(st, s[0]).0;
      CollectBody(next, s[1..]);
      assert next.got + s[1..] == st.got + s;
    }
  }

  // ------------------------------------------------------------ whole frames

  /** From either scanning state a magic leads to the fixed bytes, quietly. */
  lemma MagicOpens(st: State)
    requires st == Sync0 || st == Sync1
    ensures After(st, [MAGIC_LO, MAGIC_HI]) == InFixed([]) && Emitted(st, [MAGIC_LO, MAGIC_HI]) == []
  {
    var m := [MAGIC_LO, MAGIC_HI];
    assert Step(st, m[0]) == (Sync1, None);
    assert m[1..] == [MAGIC_HI] && m[1..][1..] == [];
    assert After(Sync1, m[1..]) == After(InFixed([]), []);
    assert Emitted(Sync1, m[1..]) == [] + Emitted(InFixed([]), []);
  }

  /** Four fixed bytes either open a body or are rejected. */
  lemma FixedDecides(fixed: seq<byte>)
    requires |fixed| == 4
    ensures var checked := CheckFixed(fixed);
      if checked.Ok? then
        && After(InFixed([]), fixed) == InBody(checked.value.ty, checked.value.len, fixed)
        && Emitted(InFixed([]), fixed) == []
      else
        After(InFixed([]), fixed) == Sync0 && Emitted(InFixed([]), fixed) == [Bad(checked.error)]
  {
    var a, b := fixed[..3], fixed[3..];
    assert fixed == a + b;
    RunSplit(InFixed([]), a, b);
    CollectFixed([], a);
    assert [] + a == a && a + [b[0]] == fixed && b[1..] == [];
    assert fixed[..4] == fixed;
  }

  /** The rest of a body is collected quietly and settled by its last byte. */
  lemma BodyDecides(st: State, rest: seq<byte>)
    requires st.InBody? && |st.got| + |rest| == 4 + st.len + TRAILER_LEN
    ensures After(st, rest) == Sync0
    ensures Emitted(st, rest) == [CheckBody(st.ty, st.len, st.got + rest)]
    ensures Emitted(st, rest[..|rest| - 1]) == []
  {
    hide CheckBody, CheckFixed;
    var a, b := rest[..|rest| - 1], rest[|rest| - 1..];
    assert rest == a + b;
    RunSplit(st, a, b);
    CollectBody(st, a);
    LastByte(After(st, a), b);
    assert st.got + a + b == st.got + rest;
  }

  lemma LastByte(st: State, b: seq<byte>)
    requires st.InBody? && |st.got| + 1 == 4 + st.len + TRAILER_LEN && |b| == 1
    ensures After(st, b) == Sync0 && Emitted(st, b) == [CheckBody(st.ty, st.len, st.got + b)]
  {
    hide CheckBody, CheckFixed;
    assert b == [b[0]] && b[1..] == [];
    assert After(Sync0, b[1..]) == Sync0 && Emitted(Sync0, b[1..]) == [];
  }

  lemma FixedChecks(ty: FrameType, len: nat)
    requires len <= MAX_PAYLOAD
    ensures CheckFixed(Fixed(ty, len)) == Ok(Opening(ty, len))
  {
    hide FromLe, ToLe;
    TypeByte(ty);
    Spans();
    FromToLe(len, 2);
    assert Fixed(ty, len)[2..] == ToLe(len, 2);
  }

  lemma WordIff(t: seq<byte>, c: bv32)
    requires |t| == 4
    ensures Crc.Word(t[0], t[1], t[2], t[3]) == c <==> t == Crc.Le32(c)
  {
    hide Crc.Word, Crc.Le32;
    Crc.WordLe32(c);
    Crc.Le32Word(t[0], t[1], t[2], t[3]);
    assert t == [t[0], t[1], t[2], t[3]];
  }

  /** A body is accepted exactly when its trailer is the body's CRC. */
  lemma AcceptIff(ty: FrameType, len: nat, got: seq<byte>)
    requires |got| == 4 + len + TRAILER_LEN
    ensures CheckBody(ty, len, got).Good? <==> got[4 + len..] == Crc.Le32(Crc.Checksum(got[..4 + len]))
    ensures CheckBody(ty, len, got).Bad? ==> CheckBody(ty, len, got).error.BadCrc?
  {
    hide Crc.Word, Crc.Le32, Crc.Checksum;
    WordIff(got[4 + len..], Crc.Checksum(got[..4 + len]));
  }

  function Magic(): seq<byte> { [MAGIC_LO, MAGIC_HI] }

  /** Magic, valid fixed bytes and a full body: one event, at the last byte. */
  lemma Opened(st: State, fixed: seq<byte>)
    requires st == Sync0 || st == Sync1
    requires |fixed| == 4 && CheckFixed(fixed).Ok?
    ensures var o := CheckFixed(fixed).value;
      && After(st, Magic() + fixed) == InBody(o.ty, o.len, fixed)
      && Emitted(st, Magic() + fixed) == []
  {
    hide Step, CheckFixed;
    RunSplit(st, Magic(), fixed);
    MagicOpens(st);
    FixedDecides(fixed);
  }

  lemma WholeFrame(st: State, fixed: seq<byte>, rest: seq<byte>)
    requires st == Sync0 || st == Sync1
    requires |fixed| == 4 && CheckFixed(fixed).Ok? && |rest| == CheckFixed(fixed).value.len + TRAILER_LEN
    ensures var o := CheckFixed(fixed).value;
      && After(st, Magic() + fixed + rest) == Sync0
      && Emitted(st, Magic() + fixed + rest) == [CheckBody(o.ty, o.len, fixed + rest)]
      && Emitted(st, Magic() + fixed + rest[..|rest| - 1]) == []
  {
    hide Step, CheckFixed, CheckBody, Magic;
    var front := Magic() + fixed;
    Opened(st, fixed);
    RunSplit(st, front, rest);
    RunSplit(st, front, rest[..|rest| - 1]);
    BodyDecides(After(st, front), rest);
  }

  /** An encoded frame is reported once, by its last byte, with its own payload. */
  lemma FrameDecodes(st: State, ty: FrameType, payload: seq<byte>)
    requires st == Sync0 || st == Sync1
    requires |payload| <= MAX_PAYLOAD
    ensures After(st, Encode(ty, payload)) == Sync0
    ensures Emitted(st, Encode(ty, payload)) == [Good(ty, payload)]
    ensures Emitted(st, Encode(ty, payload)[..FrameLen(|payload|) - 1]) == []
  {
    hide Crc.Le32, Crc.Checksum, CheckFixed, CheckBody, After, Emitted;
    var fixed := Fixed(ty, |payload|);
    var body := Body(ty, payload);
    var rest := payload + Crc.Le32(Crc.Checksum(body));
    FixedChecks(ty, |payload|);
    WholeFrame(st, fixed, rest);
    AcceptEncoded(ty, payload);
    assert fixed + rest == body + Crc.Le32(Crc.Checksum(body));
    assert Encode(ty, payload) == Magic() + fixed + rest;
    assert Encode(ty, payload)[..FrameLen(|payload|) - 1] == Magic() + fixed + rest[..|rest| - 1];
  }

  lemma AcceptEncoded(ty: FrameType, payload: seq<byte>)
    ensures CheckBody(ty, |payload|, Body(ty, payload) + Crc.Le32(Crc.Checksum(Body(ty, payload)))) == Good(ty, payload)
  {
    hide Crc.Le32, Crc.Checksum, Crc.Word;
    var body := Body(ty, payload);
    var got := body + Crc.Le32(Crc.Checksum(body));
    AcceptIff(ty, |payload|, got);
    assert got[..4 + |payload|] == body && got[4 + |payload|..] == Crc.Le32(Crc.Checksum(body));
    assert got[4..4 + |payload|] == payload;
  }

  // ---------------------------------------------------- what the history holds

  predicate EndsWith(h: seq<byte>, t: seq<byte>) {
    |t| <= |h| && h[|h| - |t|..] == t
  }

  /** The end of the history `h` that each state remembers. */
  predicate Recent(st: State, h: seq<byte>) {
    match st
    case Sync0 => true
    case Sync1 => EndsWith(h, [MAGIC_LO])
    case InFixed(got) => EndsWith(h, Magic() + got)
    case InBody(_, _, got) => EndsWith(h, Magic() + got)
  }

  lemma EndsGrow(h: seq<byte>, t: seq<byte>, b: byte)
    requires EndsWith(h, t)
    ensures EndsWith(h + [b], t + [b])
  {
    var g := h + [b];
    assert g[|g| - |t| - 1..] == h[|h| - |t|..] + [b];
  }

  /** Accepted fixed bytes are the fixed bytes of that type and length. */
  lemma FixedBack(fixed: seq<byte>)
    requires |fixed| == 4 && CheckFixed(fixed).Ok?
    ensures fixed == Fixed(CheckFixed(fixed).value.ty, CheckFixed(fixed).value.len)
  {
    hide FromLe, ToLe;
    TypeByteBack(fixed[1]);
    ToFromLe(fixed[2..]);
    assert fixed == [fixed[0], fixed[1]] + fixed[2..];
  }

  lemma GoodIsEncoded(ty: FrameType, len: nat, got: seq<byte>)
    requires |got| == 4 + len + TRAILER_LEN
    requires CheckFixed(got[..4]) == Ok(Opening(ty, len))
    requires CheckBody(ty, len, got).Good?
    ensures CheckBody(ty, len, got) == Good(ty, got[4..4 + len])
    ensures Magic() + got == Encode(ty, got[4..4 + len])
  {
    hide Crc.Checksum, Crc.Le32, Crc.Word, CheckFixed, ToLe;
    FixedBack(got[..4]);
    AcceptIff(ty, len, got);
    var payload := got[4..4 + len];
    assert got[..4 + len] == Body(ty, payload);
    assert got == got[..4 + len] + got[4 + len..];
  }

  lemma BodyStepSound(st: State, h: seq<byte>, b: byte)
    requires Recent(st, h) && st.InBody?
    ensures Recent(Step(st, b).0, h + [b])
    ensures var e := Step(st, b).1;
      e.Some? && e.value.Good? ==>
        && |e.value.payload| <= MAX_PAYLOAD
        && EndsWith(h + [b], Encode(e.value.ty, e.value.payload))
  {
    hide CheckFixed, CheckBody, Encode, EndsWith;
    var now := st.got + [b];
    EndsGrow(h, Magic() + st.got, b);
    assert Magic() + st.got + [b] == Magic() + now;
    assert now[..4] == st.got[..4];
    if |now| == 4 + st.len + TRAILER_LEN && CheckBody(st.ty, st.len, now).Good? {
      GoodIsEncoded(st.ty, st.len, now);
    }
  }

  lemma EndsHere(h: seq<byte>, b: byte)
    ensures EndsWith(h + [b], [b])
  {}

  /** Soundness of one step over any history: whatever is reported as a frame is
      exactly what the sender of that frame would have put on the wire. */
  lemma StepSound(st: State, h: seq<byte>, b: byte)
    requires Recent(st, h)
    ensures Recent(Step(st, b).0, h + [b])
    ensures var e := Step(st, b).1;
      e.Some? && e.value.Good? ==>
        && |e.value.payload| <= MAX_PAYLOAD
        && EndsWith(h + [b], Encode(e.value.ty, e.value.payload))
  {
    hide CheckFixed, CheckBody, Encode, EndsWith;
    EndsHere(h, b);
    match st
    case Sync0 =>
    case Sync1 =>
      EndsGrow(h, [MAGIC_LO], b);
      assert [MAGIC_LO] + [MAGIC_HI] == Magic() + [];
    case InFixed(got) =>
      EndsGrow(h, Magic() + got, b);
      assert Magic() + got + [b] == Magic() + (got + [b]);
    case InBody(_, _, _) =>
      BodyStepSound(st, h, b);
  }
}
