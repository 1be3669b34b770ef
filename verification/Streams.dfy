/** What the decoder makes of whole byte streams: it refines a batch parser, reports
    only frames that were really sent, survives noise, and detects every short burst. */
module Streams {
  import opened Bytes
  import opened Outcomes
  import opened Frame
  import opened Decoding
  import Crc

  // ------------------------------------------------------------ batch parsing

  datatype Item =
    | Skipped(bytes: seq<byte>)
    | Parsed(bytes: seq<byte>, ty: FrameType, payload: seq<byte>)
    | Rejected(bytes: seq<byte>, error: DecodeError)
    | Pending(bytes: seq<byte>)

  /** Cuts a whole stream, looking ahead as far as it likes. */
  function Parse(s: seq<byte>): seq<Item>
    decreases |s|
  {
    if s == [] then []
    else if s[0] != MAGIC_LO then [Skipped(s[..1])] + Parse(s[1..])
    else if |s| == 1 then [Pending(s)]
    else if s[1] == MAGIC_LO then [Skipped(s[..1])] + Parse(s[1..])
    else if s[1] != MAGIC_HI then [Skipped(s[..2])] + Parse(s[2..])
    else if |s| < HEADER_LEN then [Pending(s)]
    else ParseFrame(s)
  }

  function ParseFrame(s: seq<byte>): seq<Item>
    requires |s| >= HEADER_LEN
    decreases |s|, 0
  {
    var checked := CheckFixed(s[2..6]);
    if checked.Err? then [Rejected(s[..6], checked.error)] + Parse(s[6..])
    else
      var end := FrameLen(checked.value.len);
      if |s| < end then [Pending(s)]
      else [Settle(s[..end], CheckBody(checked.value.ty, checked.value.len, s[2..end]))] + Parse(s[end..])
  }

  function Settle(bytes: seq<byte>, e: Event): Item {
    match e
    case Good(ty, payload) => Parsed(bytes, ty, payload)
    case Bad(error) => Rejected(bytes, error)
  }

  function Joined(items: seq<Item>): seq<byte> {
    if items == [] then [] else items[0].bytes + Joined(items[1..])
  }

  function Report(item: Item): seq<Event> {
    match item
    case Skipped(_) => []
    case Parsed(_, ty, payload) => [Good(ty, payload)]
    case Rejected(_, error) => [Bad(error)]
    case Pending(_) => []
  }

  function Reports(items: seq<Item>): seq<Event> {
    if items == [] then [] else Report(items[0]) + Reports(items[1..])
  }

  /** The two views agree on one item in front of a stream that already agrees. */
  lemma OneItem(item: Item, rest: seq<byte>)
    requires After(Sync0, item.bytes) == Sync0 && Emitted(Sync0, item.bytes) == Report(item)
    requires Emitted(Sync0, rest) == Reports(Parse(rest)) && Joined(Parse(rest)) == rest
    ensures Emitted(Sync0, item.bytes + rest) == Reports([item] + Parse(rest))
    ensures Joined([item] + Parse(rest)) == item.bytes + rest
  {
    hide Step, Parse;
    RunSplit(Sync0, item.bytes, rest);
    assert ([item] + Parse(rest))[1..] == Parse(rest);
  }

  lemma OnePending(s: seq<byte>)
    requires Emitted(Sync0, s) == []
    ensures Emitted(Sync0, s) == Reports([Pending(s)]) && Joined([Pending(s)]) == s
  {
    assert [Pending(s)][1..] == [];
    assert s + [] == s;
  }

  lemma Run1(st: State, b: byte)
    ensures After(st, [b]) == Step(st, b).0 && Emitted(st, [b]) == Opt(Step(st, b).1)
  {
    hide Step;
    assert [b][1..] == [];
  }

  lemma Run2(st: State, a: byte, b: byte)
    ensures var mid := Step(st, a).0;
      After(st, [a, b]) == Step(mid, b).0 && Emitted(st, [a, b]) == Opt(Step(st, a).1) + Opt(Step(mid, b).1)
  {
    hide Step;
    assert [a, b] == [a] + [b];
    RunSplit(st, [a], [b]);
    Run1(st, a);
    Run1(Step(st, a).0, b);
  }

  lemma Empty(st: State)
    ensures After(st, []) == st && Emitted(st, []) == []
  {}

  lemma Cut(s: seq<byte>, k: nat)
    requires k <= |s|
    ensures s == s[..k] + s[k..]
  {}

  lemma SkipOther(s: seq<byte>)
    requires s != [] && s[0] != MAGIC_LO
    ensures After(Sync0, s[..1]) == Sync0 && Emitted(Sync0, s[..1]) == []
  {
    Run1(Sync0, s[0]);
    assert s[..1] == [s[0]];
  }

  lemma SkipPair(s: seq<byte>)
    requires |s| >= 2 && s[0] == MAGIC_LO && s[1] != MAGIC_LO && s[1] != MAGIC_HI
    ensures After(Sync0, s[..2]) == Sync0 && Emitted(Sync0, s[..2]) == []
  {
    Run2(Sync0, s[0], s[1]);
    assert s[..2] == [s[0], s[1]];
  }

  /** A repeated low magic byte may be dropped: the second one restarts the match. */
  lemma SkipLow(s: seq<byte>)
    requires |s| >= 2 && s[0] == MAGIC_LO && s[1] == MAGIC_LO
    ensures Emitted(Sync0, s) == Emitted(Sync0, s[1..])
  {
    Run2(Sync0, s[0], s[1]);
    Run1(Sync0, s[1]);
    Cut(s, 2);
    assert s[..2] == [s[0], s[1]];
    assert s[1..] == [s[1]] + s[2..];
    hide Step;
    RunSplit(Sync0, s[..2], s[2..]);
    RunSplit(Sync0, [s[1]], s[2..]);
  }

  lemma ShortHeader(s: seq<byte>)
    requires 2 <= |s| < HEADER_LEN && s[0] == MAGIC_LO && s[1] == MAGIC_HI
    ensures Emitted(Sync0, s) == []
  {
    hide Step;
    Cut(s, 2);
    assert s[..2] == [MAGIC_LO, MAGIC_HI];
    MagicOpens(Sync0);
    RunSplit(Sync0, s[..2], s[2..]);
    CollectFixed([], s[2..]);
  }

  lemma LoneLow(s: seq<byte>)
    requires |s| == 1 && s[0] == MAGIC_LO
    ensures Emitted(Sync0, s) == []
  {
    Run1(Sync0, s[0]);
    assert s == [s[0]];
  }

  lemma BadHeader(s: seq<byte>)
    requires |s| >= HEADER_LEN && s[0] == MAGIC_LO && s[1] == MAGIC_HI && CheckFixed(s[2..6]).Err?
    ensures After(Sync0, s[..6]) == Sync0 && Emitted(Sync0, s[..6]) == [Bad(CheckFixed(s[2..6]).error)]
  {
    hide Step, CheckFixed;
    assert s[..6] == [MAGIC_LO, MAGIC_HI] + s[2..6];
    MagicOpens(Sync0);
    RunSplit(Sync0, [MAGIC_LO, MAGIC_HI], s[2..6]);
    FixedDecides(s[2..6]);
  }

  lemma ShortBody(s: seq<byte>)
    requires |s| >= HEADER_LEN && s[0] == MAGIC_LO && s[1] == MAGIC_HI && CheckFixed(s[2..6]).Ok?
    requires |s| < FrameLen(CheckFixed(s[2..6]).value.len)
    ensures Emitted(Sync0, s) == []
  {
    hide Step, CheckFixed;
    assert s == Magic() + s[2..6] + s[6..];
    Opened(Sync0, s[2..6]);
    RunSplit(Sync0, Magic() + s[2..6], s[6..]);
    CollectBody(After(Sync0, Magic() + s[2..6]), s[6..]);
  }

  lemma FullBody(s: seq<byte>)
    requires |s| >= HEADER_LEN && s[0] == MAGIC_LO && s[1] == MAGIC_HI && CheckFixed(s[2..6]).Ok?
    requires |s| == FrameLen(CheckFixed(s[2..6]).value.len)
    ensures var o := CheckFixed(s[2..6]).value;
      After(Sync0, s) == Sync0 && Emitted(Sync0, s) == [CheckBody(o.ty, o.len, s[2..])]
  {
    hide CheckFixed, CheckBody, After, Emitted;
    assert s == Magic() + s[2..6] + s[6..];
    assert s[2..] == s[2..6] + s[6..];
    WholeFrame(Sync0, s[2..6], s[6..]);
  }

  /** Feeding a stream byte by byte reports exactly what cutting it up reports, and
      the cut accounts for every byte. */
  lemma {:induction false} StreamingRefinesBatch(s: seq<byte>)
    ensures Emitted(Sync0, s) == Reports(Parse(s))
    ensures Joined(Parse(s)) == s
    decreases |s|, 1
  {
    hide CheckFixed, CheckBody, After, Emitted;
    if s == [] {
      Empty(Sync0);
    } else if s[0] != MAGIC_LO {
      Cut(s, 1);
      SkipOther(s);
      StreamingRefinesBatch(s[1..]);
      OneItem(Skipped(s[..1]), s[1..]);
    } else if |s| == 1 {
      LoneLow(s);
      OnePending(s);
    } else if s[1] == MAGIC_LO {
      Cut(s, 1);
      SkipLow(s);
      StreamingRefinesBatch(s[1..]);
      assert ([Skipped(s[..1])] + Parse(s[1..]))[1..] == Parse(s[1..]);
    } else if s[1] != MAGIC_HI {
      Cut(s, 2);
      SkipPair(s);
      StreamingRefinesBatch(s[2..]);
      OneItem(Skipped(s[..2]), s[2..]);
    } else if |s| < HEADER_LEN {
      ShortHeader(s);
      OnePending(s);
    } else {
      FrameRefinesBatch(s);
    }
  }

  lemma {:induction false} FrameRefinesBatch(s: seq<byte>)
    requires |s| >= HEADER_LEN && s[0] == MAGIC_LO && s[1] == MAGIC_HI
    ensures Emitted(Sync0, s) == Reports(ParseFrame(s))
    ensures Joined(ParseFrame(s)) == s
    decreases |s|, 0
  {
    hide CheckFixed, CheckBody, After, Emitted, Parse;
    var checked := CheckFixed(s[2..6]);
    if checked.Err? {
      Cut(s, 6);
      BadHeader(s);
      StreamingRefinesBatch(s[6..]);
      OneItem(Rejected(s[..6], checked.error), s[6..]);
    } else {
      var end := FrameLen(checked.value.len);
      if |s| < end {
        ShortBody(s);
        OnePending(s);
      } else {
        var f := s[..end];
        Cut(s, end);
        assert f[2..6] == s[2..6] && f[2..] == s[2..end];
        FullBody(f);
        StreamingRefinesBatch(s[end..]);
        OneItem(Settle(f, CheckBody(checked.value.ty, checked.value.len, s[2..end])), s[end..]);
      }
    }
  }

  // ------------------------------------------------------------------- resync

  /** Bytes that certainly bring the decoder back to scanning. */
  function Rank(st: State): nat {
    match st
    case Sync0 => 0
    case Sync1 => 9 + MAX_PAYLOAD
    case InFixed(got) => 8 + MAX_PAYLOAD - |got|
    case InBody(_, len, got) => 8 + len - |got|
  }

  predicate Quiet(s: seq<byte>) {
    forall i :: 0 <= i < |s| ==> s[i] != MAGIC_LO
  }

  lemma RankFalls(st: State, b: byte)
    requires b != MAGIC_LO
    ensures st == Sync0 ==> Step(st, b) == (Sync0, None)
    ensures st != Sync0 ==> Rank(Step(st, b).0) < Rank(st)
    ensures Step(st, b).1.Some? ==> Step(st, b).0 == Sync0
  {
    hide CheckBody;
  }

  lemma {:induction false} GapSettles(st: State, s: seq<byte>)
    requires Quiet(s) && |s| >= Rank(st)
    ensures After(st, s) == Sync0
    ensures |Emitted(st, s)| <= 1
    ensures st == Sync0 ==> Emitted(st, s) == []
    decreases |s|
  {
    hide Step;
    if s != [] {
      RankFalls(st, s[0]);
      GapSettles(Step(st, s[0]).0, s[1..]);
    }
  }

  lemma RankBound(st: State)
    ensures Rank(st) <= 9 + MAX_PAYLOAD
  {}

  /** A gap of 1033 bytes without the low magic byte costs at most one report and
      leaves the decoder scanning, so the next frame is received intact. */
  lemma ResyncAfterGap(st: State, gap: seq<byte>, ty: FrameType, payload: seq<byte>)
    requires Quiet(gap) && |gap| >= 1033 && |payload| <= MAX_PAYLOAD
    ensures After(st, gap) == Sync0 && |Emitted(st, gap)| <= 1
    ensures Emitted(st, gap + Encode(ty, payload)) == Emitted(st, gap) + [Good(ty, payload)]
    ensures After(st, gap + Encode(ty, payload)) == Sync0
  {
    hide After, Emitted, Encode;
    RankBound(st);
    GapSettles(st, gap);
    RunSplit(st, gap, Encode(ty, payload));
    FrameDecodes(Sync0, ty, payload);
  }

  /** 1032 bytes are not enough: a stray low magic byte followed by a plausible header
      of a full-size frame is still waiting for its last trailer byte. */
  lemma ShorterGapFails() returns (gap: seq<byte>)
    ensures Quiet(gap) && |gap| == 1032 && After(Sync1, gap) != Sync0
  {
    hide Fixed, After;
    LargestFixed();
    var rest: seq<byte> := seq(1027, _ => 0);
    LongWait(rest);
    gap := [MAGIC_HI] + Fixed(FrameType.Data, MAX_PAYLOAD) + rest;
  }

  /** So 1033 is exact: quiet stretches of a given length settle every state if and only
      if they are at least that long. */
  lemma GapIff(n: nat)
    ensures n >= 1033 <==> forall st, gap :: Quiet(gap) && |gap| == n ==> After(st, gap) == Sync0
  {
    hide After, Emitted;
    if n >= 1033 {
      forall st, gap | Quiet(gap) && |gap| == n ensures After(st, gap) == Sync0 {
        RankBound(st);
        GapSettles(st, gap);
      }
    } else {
      var long := ShorterGapFails();
      var gap, rest := long[..n], long[n..];
      assert gap + rest == long;
      RunSplit(Sync1, gap, rest);
      if After(Sync1, gap) == Sync0 {
        GapSettles(Sync0, rest);
      }
    }
  }

  lemma LongWait(rest: seq<byte>)
    requires |rest| == 1027
    ensures After(Sync1, [MAGIC_HI] + Fixed(FrameType.Data, MAX_PAYLOAD) + rest) != Sync0
  {
    hide Step, CheckFixed, Fixed, Emitted;
    var fixed := Fixed(FrameType.Data, MAX_PAYLOAD);
    FixedChecks(FrameType.Data, MAX_PAYLOAD);
    RunSplit(Sync1, [MAGIC_HI] + fixed, rest);
    RunSplit(Sync1, [MAGIC_HI], fixed);
    HighOpens();
    FixedDecides(fixed);
    CollectBody(InBody(FrameType.Data, MAX_PAYLOAD, fixed), rest);
  }

  lemma LargestFixed()
    ensures Quiet(Fixed(FrameType.Data, MAX_PAYLOAD))
  {
    assert ToLe(4, 1) == [4] + ToLe(0, 0);
    assert ToLe(MAX_PAYLOAD, 2) == [0] + ToLe(4, 1);
  }

  lemma HighOpens()
    ensures After(Sync1, [MAGIC_HI]) == InFixed([])
  {
    Run1(Sync1, MAGIC_HI);
  }

  // --------------------------------------------------------------- round trip

  /** A frame preceded by text that contains no low magic byte. */
  datatype Sent = Sent(text: seq<byte>, ty: FrameType, payload: seq<byte>)

  predicate Sendable(list: seq<Sent>) {
    forall i :: 0 <= i < |list| ==> Quiet(list[i].text) && |list[i].payload| <= MAX_PAYLOAD
  }

  function Wire(list: seq<Sent>): seq<byte> {
    if list == [] then []
    else list[0].text + Encode(list[0].ty, list[0].payload) + Wire(list[1..])
  }

  function Contents(list: seq<Sent>): seq<Event> {
    if list == [] then [] else [Good(list[0].ty, list[0].payload)] + Contents(list[1..])
  }

  lemma OneSent(s: Sent, more: seq<byte>)
    requires Quiet(s.text) && |s.payload| <= MAX_PAYLOAD
    ensures After(Sync0, s.text + Encode(s.ty, s.payload) + more) == After(Sync0, more)
    ensures Emitted(Sync0, s.text + Encode(s.ty, s.payload) + more) == [Good(s.ty, s.payload)] + Emitted(Sync0, more)
  {
    hide Encode, After, Emitted;
    GapSettles(Sync0, s.text);
    FrameDecodes(Sync0, s.ty, s.payload);
    RunSplit(Sync0, s.text, Encode(s.ty, s.payload));
    RunSplit(Sync0, s.text + Encode(s.ty, s.payload), more);
  }

  /** Any list of frames, with heartbeat text between them, decodes to itself. */
  lemma {:induction false} StreamRoundTrip(list: seq<Sent>)
    requires Sendable(list)
    ensures After(Sync0, Wire(list)) == Sync0
    ensures Emitted(Sync0, Wire(list)) == Contents(list)
    decreases |list|
  {
    if list == [] {
      Empty(Sync0);
    } else {
      hide Encode, After, Emitted;
      OneSent(list[0], Wire(list[1..]));
      StreamRoundTrip(list[1..]);
    }
  }

  // ---------------------------------------------------------- burst detection

  /** `g` differs from `f`, and only inside the four bytes from `at`. */
  predicate Burst(f: seq<byte>, g: seq<byte>, at: nat) {
    && |f| == |g| && f != g && at + 4 <= |f|
    && f[..at] == g[..at] && f[at + 4..] == g[at + 4..]
  }

  /** Damage confined to four consecutive bytes of payload and trailer, wherever the
      window lies, is reported as a bad CRC by the frame's last byte and by nothing
      before it. */
  lemma BurstDetected(ty: FrameType, payload: seq<byte>, damaged: seq<byte>, at: nat)
    requires |payload| <= MAX_PAYLOAD && at >= HEADER_LEN
    requires Burst(Encode(ty, payload), damaged, at)
    ensures After(Sync0, damaged) == Sync0
    ensures |Emitted(Sync0, damaged)| == 1
    ensures Emitted(Sync0, damaged)[0].Bad? && Emitted(Sync0, damaged)[0].error.BadCrc?
    ensures Emitted(Sync0, damaged[..|damaged| - 1]) == []
  {
    hide Encode, CheckFixed, CheckBody, After, Emitted;
    var f := Encode(ty, payload);
    DamagedHeader(ty, payload, damaged, at);
    var fixed, rest := damaged[2..6], damaged[6..];
    FixedChecks(ty, |payload|);
    WholeFrame(Sync0, fixed, rest);
    assert damaged == Magic() + fixed + rest;
    assert damaged[..|damaged| - 1] == Magic() + fixed + rest[..|rest| - 1];
    assert fixed + rest == damaged[2..];
    DamagedBody(ty, payload, damaged, at);
  }

  lemma DamagedHeader(ty: FrameType, payload: seq<byte>, damaged: seq<byte>, at: nat)
    requires at >= HEADER_LEN && Burst(Encode(ty, payload), damaged, at)
    ensures damaged[..2] == Magic() && damaged[2..6] == Fixed(ty, |payload|)
  {
    hide Crc.Checksum, Crc.Le32, ToLe;
    var f := Encode(ty, payload);
    assert f[..at][..2] == damaged[..2] && f[..at][2..6] == damaged[2..6];
  }

  lemma DamagedBody(ty: FrameType, payload: seq<byte>, damaged: seq<byte>, at: nat)
    requires at >= HEADER_LEN && Burst(Encode(ty, payload), damaged, at)
    ensures CheckBody(ty, |payload|, damaged[2..]).Bad? && CheckBody(ty, |payload|, damaged[2..]).error.BadCrc?
  {
    hide CheckBody, Crc.Le32, Crc.Checksum, Crc.Raw, Encode, Body;
    var f := Encode(ty, payload);
    var n := 4 + |payload|;
    EncodedTail(ty, payload);
    Crc.ResidueIff(f[2..][..n], f[2..][n..]);
    assert f[2..] == f[2..][..n] + f[2..][n..];
    var got := damaged[2..];
    var a, x, y, z := f[2..at], f[at..at + 4], damaged[at..at + 4], f[at + 4..];
    assert f[2..] == a + x + z;
    assert got == a + y + z by {
      assert a == f[..at][2..] && damaged[2..at] == damaged[..at][2..];
    }
    assert f == f[..at] + x + z && damaged == f[..at] + y + z;
    Crc.WindowDetected(0xffff_ffff, a, x, y, z);
    assert got == got[..n] + got[n..];
    Crc.ResidueIff(got[..n], got[n..]);
    AcceptIff(ty, |payload|, got);
  }

  lemma EncodedTail(ty: FrameType, payload: seq<byte>)
    ensures var f := Encode(ty, payload); var n := 4 + |payload|;
      f[2..][n..] == Crc.Le32(Crc.Checksum(f[2..][..n]))
  {
    hide Crc.Checksum, Crc.Le32;
    var f := Encode(ty, payload);
    assert f[2..][..4 + |payload|] == Body(ty, payload);
  }
}
