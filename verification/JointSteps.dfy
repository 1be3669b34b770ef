/** Every step of the joined programs is a run of the frame-level system. */
module JointSteps {
  import opened Bytes
  import opened Outcomes
  import opened Frame
  import opened Message
  import opened Receive
  import opened Session
  import opened LoaderSafety
  import opened Decoding
  import opened Protocol
  import opened ByteLoop
  import opened HostMachine
  import opened Joint

  // ------------------------------------------------------------ what is put on a wire

  function Goods(ps: seq<Packet>): (es: seq<Event>)
    ensures |es| == |ps| && forall i :: 0 <= i < |ps| ==> es[i] == Good(ps[i].ty, ps[i].payload)
  {
    seq(|ps|, i requires 0 <= i < |ps| => Good(ps[i].ty, ps[i].payload))
  }

  lemma {:induction false} PacketsOfGoods(ps: seq<Packet>)
    ensures Packets(Goods(ps)) == ps
    decreases |ps|
  {
    if ps != [] {
      assert Goods(ps)[1..] == Goods(ps[1..]);
      PacketsOfGoods(ps[1..]);
    }
  }

  lemma HeardOne(outs: seq<Out>, p: Packet)
    requires |p.payload| <= MAX_PAYLOAD
    ensures Heard(outs + [Sends(p)]) == Heard(outs) + [Good(p.ty, p.payload)]
  {
    assert (outs + [Sends(p)])[..|outs|] == outs;
  }

  lemma {:induction false} HeardFrames(outs: seq<Out>, ps: seq<Packet>)
    requires Small(ps)
    ensures Heard(outs + Frames(ps)) == Heard(outs) + Goods(ps)
    decreases |ps|
  {
    hide Heard, Goods, Small;
    GoodsSplit(ps);
    if ps == [] {
      assert outs + Frames(ps) == outs && Heard(outs) + [] == Heard(outs);
    } else {
      SmallSplit(ps);
      HeardOne(outs, ps[0]);
      HeardFrames(outs + [Sends(ps[0])], ps[1..]);
      assert outs + Frames(ps) == outs + [Sends(ps[0])] + Frames(ps[1..]);
      var one := [Good(ps[0].ty, ps[0].payload)];
      assert Heard(outs) + one + Goods(ps[1..]) == Heard(outs) + (one + Goods(ps[1..]));
    }
  }

  lemma GoodsSplit(ps: seq<Packet>)
    ensures Goods(ps) == if ps == [] then [] else [Good(ps[0].ty, ps[0].payload)] + Goods(ps[1..])
  {}

  lemma SmallSplit(ps: seq<Packet>)
    requires Small(ps) && ps != []
    ensures |ps[0].payload| <= MAX_PAYLOAD && Small(ps[1..])
  {}

  lemma HeardBeat(m: Machine, i: Input)
    ensures Heard(Beat(m, i)) == []
  {
    assert [IdleLine][..0] == [] && [WaitingLine][..0] == [];
  }

  /** What a turn says, the host reads as the turn's replies. */
  lemma SaysDecodes(b: Board, m: Machine, i: Input)
    requires Inv(b, m.st)
    ensures After(Sync0, BytesOf(Says(b, m, i))) == Sync0
    ensures Packets(Emitted(Sync0, BytesOf(Says(b, m, i))))
      == if Meets(m, i).None? then [] else React(b, m.st, Meets(m, i).value).replies
  {
    hide After, Emitted, BytesOf, React, Inv, Heard, Beat, Meets;
    OutputDecodes(Says(b, m, i));
    if Meets(m, i).None? {
      HeardBeat(m, i);
    } else {
      var ps := React(b, m.st, Meets(m, i).value).replies;
      ReplySmall(b, m.st, Meets(m, i).value);
      HeardFrames([], ps);
      NothingHeard();
      assert [] + Frames(ps) == Frames(ps);
      assert [] + Goods(ps) == Goods(ps);
      PacketsOfGoods(ps);
    }
  }

  lemma NothingHeard()
    ensures Heard([]) == []
  {}

  /** What the host writes, the loader reads as the frames written. */
  lemma WriteDecodes(ps: seq<Packet>)
    requires forall i :: 0 <= i < |ps| ==> |ps[i].payload| <= MAX_PAYLOAD
    ensures After(Sync0, WireOf(ps)) == Sync0
    ensures ItemsOf(Emitted(Sync0, WireOf(ps))) == CleanAll(ps)
  {
    hide After, Emitted, WireOf;
    WireDecodes(ps);
  }

  lemma HostSendsSmall(image: Image, h: RawHost, reply: Option<Packet>)
    requires HostOk(image, h)
    ensures forall p :: p in HostReply(image, h, reply).sent ==> |p.payload| <= MAX_PAYLOAD
  {
    hide ReadyMsg.FromBytes, Preflight, AckFrom, ToLe;
  }

  // ------------------------------------------------------------------------ the host

  /** One reply, or none, acted on: the frame-level host does the same. */
  lemma HostTakesIs(b: Board, image: Image, j: Pair, w: World, reply: Option<Packet>)
    requires HostOk(image, j.host) && After(j.loader.dec, j.up) == Sync0
    requires w.host == j.host && w.up == ItemsOf(Emitted(j.loader.dec, j.up)) && w.loader == j.loader.st
    ensures var k := HostTakes(image, j, reply); var v := HostActs(image, w, reply);
      && v.host == k.host && v.up == ItemsOf(Emitted(k.loader.dec, k.up)) && v.loader == k.loader.st
      && After(k.loader.dec, k.up) == Sync0
      && v.down == w.down && v.landed == w.landed
      && k.hdec == j.hdec && k.down == j.down && k.loader == j.loader && k.pieces == j.pieces && k.inputs == j.inputs
  {
    hide After, Emitted, WireOf, HostReply, HostOk;
    var sent := HostReply(image, j.host, reply).sent;
    HostSendsSmall(image, j.host, reply);
    WriteDecodes(sent);
    RunSplit(j.loader.dec, j.up, WireOf(sent));
    var a, c := Emitted(j.loader.dec, j.up), Emitted(Sync0, WireOf(sent));
    assert ItemsOf(a + c) == ItemsOf(a) + ItemsOf(c);
  }

  /** Reading a piece either finds no frame, or stops at the first. */
  lemma {:induction false} ScanMeans(dec: State, bytes: seq<byte>)
    ensures var s := Scan(dec, bytes);
      if s.packet.None? then s.dec == After(dec, bytes) && Packets(Emitted(dec, bytes)) == []
      else s.dec == Sync0 && |Packets(Emitted(dec, bytes))| > 0 && Packets(Emitted(dec, bytes))[0] == s.packet.value
    decreases |bytes|
  {
    if bytes != [] {
      var next, e := Step(dec, bytes[0]).0, Step(dec, bytes[0]).1;
      GoodEnds(dec, bytes[0]);
      hide Step;
      ScanMeans(next, bytes[1..]);
      PacketsJoin(Opt(e), Emitted(next, bytes[1..]));
      if e.Some? {
        PacketsOne(e.value);
      }
    }
  }

  lemma GoodEnds(dec: State, b: byte)
    ensures Step(dec, b).1.Some? ==> Step(dec, b).0 == Sync0
  {
    hide CheckBody, CheckFixed;
  }

  // --------------------------------------------------------------------- channel steps

  /** Harm on the way up, frame by frame. */
  lemma HarmIsStep(b: Board, image: Image, w: World, es: seq<Event>, h: Harm) returns (acts: seq<Action>)
    requires Sane(b, image, w) && w.up == ItemsOf(es) && Applies(h, es)
    ensures Path(b, image, w, acts, w.(up := ItemsOf(Harmed(h, es))))
  {
    hide Path;
    var v := w.(up := ItemsOf(Harmed(h, es)));
    match h
    case Unharmed =>
      acts := [];
      PathNowhere(b, image, w);
    case Lost(i) =>
      acts := [LoseUp(i)];
      assert Without(w.up, i) == v.up;
      PathOne(b, image, w, LoseUp(i), v);
    case Spoilt(i, e) =>
      acts := [DamageUp(i, e)];
      assert w.up[i := Damaged(e)] == v.up;
      PathOne(b, image, w, DamageUp(i, e), v);
    case Added(i, e) =>
      acts := [NoiseUp(i, e)];
      assert w.up[..i] + [Damaged(e)] + w.up[i..] == v.up;
      PathOne(b, image, w, NoiseUp(i, e), v);
  }

  lemma WithoutPacket(es: seq<Event>, i: nat, mid: seq<Event>)
    requires i < |es| && Packets(mid) == []
    ensures var ps := Packets(es); var at := |Packets(es[..i])|;
      if es[i].Good? then at < |ps| && Packets(es[..i] + mid + es[i + 1..]) == Without(ps, at)
      else Packets(es[..i] + mid + es[i + 1..]) == ps
  {
    hide Packets;
    var a, c := es[..i], es[i + 1..];
    assert es == a + [es[i]] + c;
    PacketsJoin(a + [es[i]], c);
    PacketsJoin(a, [es[i]]);
    PacketsOne(es[i]);
    PacketsJoin(a + mid, c);
    PacketsJoin(a, mid);
  }

  lemma AddedPacket(es: seq<Event>, i: nat, e: DecodeError)
    requires i <= |es|
    ensures Packets(es[..i] + [Bad(e)] + es[i..]) == Packets(es)
  {
    hide Packets;
    assert es == es[..i] + es[i..];
    PacketsJoin(es[..i], es[i..]);
    PacketsJoin(es[..i] + [Bad(e)], es[i..]);
    PacketsJoin(es[..i], [Bad(e)]);
    PacketsOne(Bad(e));
  }

  /** Harm on the way down: a frame is lost, or nothing is. */
  lemma HarmDownIs(b: Board, image: Image, w: World, es: seq<Event>, h: Harm) returns (acts: seq<Action>)
    requires Sane(b, image, w) && w.down == Packets(es) && Applies(h, es)
    ensures Path(b, image, w, acts, w.(down := Packets(Harmed(h, es))))
  {
    hide Path, Packets;
    var v := w.(down := Packets(Harmed(h, es)));
    acts := [];
    PathNowhere(b, image, w);
    if h.Lost? || h.Spoilt? {
      var mid := if h.Lost? then [] else [Bad(h.error)];
      NoPackets(mid);
      WithoutPacket(es, h.i, mid);
      assert h.Lost? ==> es[..h.i] + mid + es[h.i + 1..] == Harmed(h, es);
      assert h.Spoilt? ==> es[..h.i] + mid + es[h.i + 1..] == Harmed(h, es);
      if es[h.i].Good? {
        var at := |Packets(es[..h.i])|;
        acts := [LoseDown(at)];
        PathOne(b, image, w, LoseDown(at), v);
      }
    } else if h.Added? {
      AddedPacket(es, h.i, h.error);
    }
  }

  lemma NoPackets(mid: seq<Event>)
    requires mid == [] || (|mid| == 1 && mid[0].Bad?)
    ensures Packets(mid) == []
  {
    if mid != [] {
      assert mid == [mid[0]];
      PacketsOne(mid[0]);
    }
  }

  /** Any number of frames at the front may be lost. */
  lemma {:induction false} LoseFront(b: Board, image: Image, w: World, n: nat) returns (acts: seq<Action>)
    requires Sane(b, image, w) && n <= |w.down|
    ensures Path(b, image, w, acts, w.(down := w.down[n..]))
    decreases n
  {
    hide Path, Sane;
    if n == 0 {
      acts := [];
      PathNowhere(b, image, w);
    } else {
      var u := w.(down := w.down[1..]);
      assert Without(w.down, 0) == w.down[1..];
      SaneDown(b, image, w, u.down);
      var rest := LoseFront(b, image, u, n - 1);
      assert u.down[n - 1..] == w.down[n..];
      acts := [LoseDown(0)] + rest;
      PathFirst(b, image, w, LoseDown(0), rest, w.(down := w.down[n..]));
    }
  }

  lemma SaneDown(b: Board, image: Image, w: World, down: seq<Packet>)
    requires Sane(b, image, w)
    ensures Sane(b, image, w.(down := down))
  {}

  /** After the jump the payload may say anything. */
  lemma {:induction false} SayAll(b: Board, image: Image, w: World, ps: seq<Packet>) returns (acts: seq<Action>)
    requires Sane(b, image, w) && w.landed.Some?
    ensures Path(b, image, w, acts, w.(down := w.down + ps))
    decreases |ps|
  {
    hide Path, Sane;
    if ps == [] {
      acts := [];
      PathNowhere(b, image, w);
      assert w.down + ps == w.down;
    } else {
      var u := w.(down := w.down + [ps[0]]);
      SaneDown(b, image, w, u.down);
      var rest := SayAll(b, image, u, ps[1..]);
      assert u.down + ps[1..] == w.down + ps;
      acts := [PayloadSays(ps[0])] + rest;
      PathFirst(b, image, w, PayloadSays(ps[0]), rest, w.(down := w.down + ps));
    }
  }

  lemma Rewrite(b: Board, image: Image, w: World, ps: seq<Packet>) returns (acts: seq<Action>)
    requires Sane(b, image, w) && w.landed.Some?
    ensures Path(b, image, w, acts, w.(down := ps))
  {
    hide Path, Sane;
    var p := LoseFront(b, image, w, |w.down|);
    var u := w.(down := []);
    assert w.down[|w.down|..] == [];
    SaneDown(b, image, w, []);
    var q := SayAll(b, image, u, ps);
    assert [] + ps == ps;
    acts := p + q;
    PathThen(b, image, w, p, u, q, w.(down := ps));
  }

  // ------------------------------------------------------------------- the loader

  /** A turn that meets nothing changes nothing a frame-level system can see. */
  lemma TurnMeetsNothing(b: Board, image: Image, j: Pair, i: Input, up: seq<byte>)
    requires Closed(b, image, j) && j.loader.jump.None? && Meets(j.loader, i).None?
    requires Emitted(DecoderAfter(j.loader, i), up) == Emitted(j.loader.dec, j.up)
    requires After(DecoderAfter(j.loader, i), up) == Sync0
    ensures var k := LoaderTakes(b, j.(up := up), i);
      Framed(k) == Framed(j) && Closed(b, image, k)
  {
    hide After, Emitted, BytesOf, Says, HostOk, Inv, Meets, DecoderAfter, Beat;
    SaysDecodes(b, j.loader, i);
    var text := BytesOf(Says(b, j.loader, i));
    RunSplit(j.hdec, j.down, text);
    PacketsJoin(Emitted(j.hdec, j.down), Emitted(Sync0, text));
    assert Packets(Emitted(j.hdec, j.down)) + [] == Packets(Emitted(j.hdec, j.down));
  }

  /** A turn that meets something is the frame-level loader's action. */
  lemma TurnMeets(b: Board, image: Image, j: Pair, w: World, i: Input, up: seq<byte>)
    requires Closed(b, image, j) && j.loader.jump.None? && Meets(j.loader, i).Some?
    requires After(DecoderAfter(j.loader, i), up) == Sync0
    requires w == Framed(j).(up := ItemsOf(Emitted(DecoderAfter(j.loader, i), up)))
    ensures var k := LoaderTakes(b, j.(up := up), i);
      && Framed(k) == LoaderActs(b, w, Meets(j.loader, i).value)
      && Closed(b, image, k)
  {
    hide After, Emitted, BytesOf, Says, HostOk, Inv, Meets, DecoderAfter, React;
    SaysDecodes(b, j.loader, i);
    var text := BytesOf(Says(b, j.loader, i));
    RunSplit(j.hdec, j.down, text);
    PacketsJoin(Emitted(j.hdec, j.down), Emitted(Sync0, text));
    ReactKeepsInv(b, j.loader.st, Meets(j.loader, i).value);
  }

  lemma ByteStep(b: Board, image: Image, j: Pair) returns (acts: seq<Action>)
    requires Closed(b, image, j) && JCan(j, LoaderByte)
    ensures var k := JDo(b, image, j, LoaderByte);
      Path(b, image, Framed(j), acts, Framed(k)) && Closed(b, image, k)
  {
    hide Path, React, HostOk, Inv, Step, BytesOf, LoaderTakes;
    var x, rest := j.up[0], j.up[1..];
    var e := Step(j.loader.dec, x).1;
    var w := Framed(j);
    var after := Emitted(Step(j.loader.dec, x).0, rest);
    assert Emitted(j.loader.dec, j.up) == Opt(e) + after;
    if e.None? {
      assert [] + after == after;
      TurnMeetsNothing(b, image, j, Byte(x), rest);
      acts := [];
      PathNowhere(b, image, w);
    } else {
      assert w.up == [ItemOf(e.value)] + ItemsOf(after);
      assert w.up[0] == ItemOf(e.value) && w.up[1..] == ItemsOf(after);
      TurnMeets(b, image, j, w.(up := w.up[1..]), Byte(x), rest);
      ReportedIs(e.value);
      acts := [LoaderHears];
      PathOne(b, image, w, LoaderHears, Framed(JDo(b, image, j, LoaderByte)));
    }
  }

  lemma ReportedIs(e: Event)
    ensures EventOf(ItemOf(e)) == Reported(e)
  {}

  lemma PauseStep(b: Board, image: Image, j: Pair, a: JAct) returns (acts: seq<Action>)
    requires Closed(b, image, j) && a.LoaderPause? && JCan(j, a)
    ensures var k := JDo(b, image, j, a);
      Path(b, image, Framed(j), acts, Framed(k)) && Closed(b, image, k)
  {
    hide Path, React, HostOk, Inv, After, Emitted, BytesOf, LoaderTakes;
    var i := Silence(a.expired, a.beat);
    var w := Framed(j);
    if Meets(j.loader, i).None? {
      TurnMeetsNothing(b, image, j, i, j.up);
      acts := [];
      PathNowhere(b, image, w);
    } else {
      var u := w.(up := ItemsOf(Emitted(Sync0, j.up)));
      var p := HarmIsStep(b, image, w, Emitted(j.loader.dec, j.up), a.cut);
      TurnMeets(b, image, j, u, i, j.up);
      var v := Framed(JDo(b, image, j, a));
      PathOne(b, image, u, LoaderTimesOut, v);
      PathThen(b, image, w, p, u, [LoaderTimesOut], v);
      acts := p + [LoaderTimesOut];
    }
  }

  // ---------------------------------------------------------------- the host's reading

  lemma GiveUpStep(b: Board, image: Image, j: Pair, a: JAct) returns (acts: seq<Action>)
    requires Closed(b, image, j) && a.HostGivesUp? && JCan(j, a)
    ensures var k := JDo(b, image, j, a);
      Path(b, image, Framed(j), acts, Framed(k)) && Closed(b, image, k)
  {
    hide Path, HostOk, Inv, After, Emitted, HostReply, HostActs, HostTakes;
    var w := Framed(j);
    var j1 := j.(pieces := j.pieces + [if a.broken then Broken else Deadline]);
    HostTakesIs(b, image, j1, w, None);
    HostActsOk(image, w, None);
    acts := [HostTimesOut];
    PathOne(b, image, w, HostTimesOut, Framed(JDo(b, image, j, a)));
  }

  lemma HostActsOk(image: Image, w: World, reply: Option<Packet>)
    requires HostOk(image, w.host)
    ensures HostOk(image, HostActs(image, w, reply).host)
  {
    hide HostReply, HostOk;
  }

  /** A piece without a frame is just read. */
  lemma NothingRead(b: Board, image: Image, j: Pair, n: nat)
    requires Closed(b, image, j) && n <= |j.down| && Scan(j.hdec, j.down[..n]).packet.None?
    ensures var k := HostGets(image, j, n); Framed(k) == Framed(j) && Closed(b, image, k)
  {
    hide After, Emitted, HostOk, Inv, Scan;
    ScanMeans(j.hdec, j.down[..n]);
    assert j.down == j.down[..n] + j.down[n..];
    RunSplit(j.hdec, j.down[..n], j.down[n..]);
    PacketsJoin(Emitted(j.hdec, j.down[..n]), Emitted(After(j.hdec, j.down[..n]), j.down[n..]));
  }

  /** A piece with a frame: the frame is heard, and the rest of the piece is lost. */
  lemma FrameRead(b: Board, image: Image, j: Pair, n: nat) returns (acts: seq<Action>)
    requires Closed(b, image, j) && JCan(j, HostReads(n)) && Scan(j.hdec, j.down[..n]).packet.Some?
    ensures var k := HostGets(image, j, n);
      Path(b, image, Framed(j), acts, Framed(k)) && Closed(b, image, k)
  {
    hide Path, After, Emitted, HostOk, Inv, Scan, HostReply, HostActs, HostTakes, ReadsCleanly;
    var w := Framed(j);
    var piece, rest := j.down[..n], j.down[n..];
    var p := Scan(j.hdec, piece).packet.value;
    FirstHeard(j, n);
    var w1 := w.(down := w.down[1..]);
    var got := j.(hdec := Sync0, down := rest, pieces := j.pieces + [Got(piece)]);
    HostTakesIs(b, image, got, w1, Some(p));
    HostActsOk(image, w1, Some(p));
    var u := HostActs(image, w1, Some(p));
    var k := HostTakes(image, got, Some(p));
    PathOne(b, image, w, HostHears, u);
    var more: seq<Action>;
    if j.loader.jump.None? {
      var lost := RestLost(j, n);
      more := LoseFront(b, image, u, lost);
    } else {
      more := Rewrite(b, image, u, Packets(Emitted(Sync0, rest)));
    }
    acts := [HostHears] + more;
    PathThen(b, image, w, [HostHears], u, more, Framed(k));
  }

  lemma FirstHeard(j: Pair, n: nat)
    requires n <= |j.down| && Scan(j.hdec, j.down[..n]).packet.Some?
    ensures var ps := Packets(Emitted(j.hdec, j.down));
      ps != [] && ps[0] == Scan(j.hdec, j.down[..n]).packet.value && Scan(j.hdec, j.down[..n]).dec == Sync0
  {
    hide After, Emitted, Scan;
    ScanMeans(j.hdec, j.down[..n]);
    assert j.down == j.down[..n] + j.down[n..];
    RunSplit(j.hdec, j.down[..n], j.down[n..]);
    PacketsJoin(Emitted(j.hdec, j.down[..n]), Emitted(After(j.hdec, j.down[..n]), j.down[n..]));
  }

  /** How many whole frames a clean read drops. */
  lemma RestLost(j: Pair, n: nat) returns (lost: nat)
    requires n <= |j.down| && ReadsCleanly(j, n) && Scan(j.hdec, j.down[..n]).packet.Some?
    requires After(j.hdec, j.down) == Sync0
    ensures |Packets(Emitted(j.hdec, j.down))| > 0 && After(Sync0, j.down[n..]) == Sync0
    ensures var ps := Packets(Emitted(j.hdec, j.down))[1..];
      lost <= |ps| && ps[lost..] == Packets(Emitted(Sync0, j.down[n..]))
  {
    hide After, Emitted, Scan;
    ScanMeans(j.hdec, j.down[..n]);
    assert j.down == j.down[..n] + j.down[n..];
    RunSplit(j.hdec, j.down[..n], j.down[n..]);
    var a, c := Emitted(j.hdec, j.down[..n]), Emitted(Sync0, j.down[n..]);
    PacketsJoin(a, c);
    lost := |Packets(a)| - 1;
  }

  // ------------------------------------------------------------------- every action

  lemma WireStep(b: Board, image: Image, j: Pair, a: JAct) returns (acts: seq<Action>)
    requires Closed(b, image, j) && JCan(j, a) && (a.HarmUp? || a.HarmDown? || a.Babble?)
    ensures var k := JDo(b, image, j, a);
      Path(b, image, Framed(j), acts, Framed(k)) && Closed(b, image, k)
  {
    hide Path, After, Emitted, HostOk, Inv;
    var w := Framed(j);
    match a
    case HarmUp(bytes, harm) => acts := HarmIsStep(b, image, w, Emitted(j.loader.dec, j.up), harm);
    case HarmDown(bytes, harm) => acts := HarmDownIs(b, image, w, Emitted(j.hdec, j.down), harm);
    case Babble(bytes) => acts := Rewrite(b, image, w, Packets(Emitted(j.hdec, bytes)));
  }

  /** Whatever the joined programs and their wires do next, the frame-level system can do. */
  lemma JointStep(b: Board, image: Image, j: Pair, a: JAct) returns (acts: seq<Action>)
    requires Closed(b, image, j) && JCan(j, a)
    ensures var k := JDo(b, image, j, a);
      Path(b, image, Framed(j), acts, Framed(k)) && Closed(b, image, k)
  {
    hide Path, Closed, Framed, LoaderTakes, HostTakes, Scan, JCan, Sane;
    ClosedSane(b, image, j);
    if a.LoaderByte? {
      acts := ByteStep(b, image, j);
    } else if a.LoaderPause? {
      acts := PauseStep(b, image, j, a);
    } else if a.HostReads? {
      ReadLength(j, a);
      if Scan(j.hdec, j.down[..a.k]).packet.None? {
        NothingRead(b, image, j, a.k);
        acts := [];
        PathNowhere(b, image, Framed(j));
      } else {
        acts := FrameRead(b, image, j, a.k);
      }
    } else if a.HostQuiet? {
      QuietStep(b, image, j);
      acts := [];
      PathNowhere(b, image, Framed(j));
    } else if a.HostGivesUp? {
      acts := GiveUpStep(b, image, j, a);
    } else {
      acts := WireStep(b, image, j, a);
    }
  }

  lemma ClosedSane(b: Board, image: Image, j: Pair)
    requires Closed(b, image, j)
    ensures Sane(b, image, Framed(j))
  {}

  lemma ReadLength(j: Pair, a: JAct)
    requires a.HostReads? && JCan(j, a)
    ensures a.k <= |j.down|
  {}

  lemma QuietStep(b: Board, image: Image, j: Pair)
    requires Closed(b, image, j)
    ensures var k := j.(pieces := j.pieces + [Quiet]); Framed(k) == Framed(j) && Closed(b, image, k)
  {
    hide After, Emitted, HostOk, Inv;
  }
}
