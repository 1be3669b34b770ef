/** The other way round: frame-level runs in which both sides only read are carried out by
    the programs on bytes. So loads over the wire do succeed. */
module JointLifts {
  import opened Bytes
  import opened Outcomes
  import opened Frame
  import opened Receive
  import opened Session
  import opened Decoding
  import opened Protocol
  import opened ByteLoop
  import opened HostMachine
  import opened Joint
  import opened JointSteps
  import opened JointRuns
  import Recovery

  /** `acts` leads the pair from `j` to `k`. */
  ghost predicate JPath(b: Board, image: Image, j: Pair, acts: seq<JAct>, k: Pair) {
    JRuns(b, image, j, acts) && JExec(b, image, j, acts) == k
  }

  lemma JPathNowhere(b: Board, image: Image, j: Pair)
    ensures JPath(b, image, j, [], j)
  {}

  lemma JPathFirst(b: Board, image: Image, j: Pair, a: JAct, acts: seq<JAct>, k: Pair)
    requires Sane(b, image, Framed(j)) && JCan(j, a) && JPath(b, image, JDo(b, image, j, a), acts, k)
    ensures JPath(b, image, j, [a] + acts, k)
  {
    hide JDo, JCan, Sane;
    assert ([a] + acts)[1..] == acts;
  }

  lemma {:induction false} JPathThen(
    b: Board, image: Image, j: Pair, p: seq<JAct>, k: Pair, q: seq<JAct>, l: Pair)
    requires JPath(b, image, j, p, k) && JPath(b, image, k, q, l)
    ensures JPath(b, image, j, p + q, l)
    decreases |p|
  {
    hide JDo, JCan, Sane;
    if p == [] {
      assert p + q == q;
    } else {
      assert (p + q)[1..] == p[1..] + q;
      JPathThen(b, image, JDo(b, image, j, p[0]), p[1..], k, q, l);
    }
  }

  // ---------------------------------------------------------------- the loader hears

  /** One byte: either the frame-level loader sees nothing of it, or it hears the next
      item. */
  lemma ByteIs(b: Board, image: Image, j: Pair)
    requires Closed(b, image, j) && JCan(j, LoaderByte)
    ensures var k := JDo(b, image, j, LoaderByte);
      && Closed(b, image, k) && |k.up| < |j.up|
      && if Step(j.loader.dec, j.up[0]).1.None? then Framed(k) == Framed(j) && k.loader.jump.None?
         else Enabled(Framed(j), LoaderHears) && Framed(k) == Do(b, image, Framed(j), LoaderHears)
  {
    hide React, HostOk, Inv, Step, BytesOf, LoaderTakes;
    var x, rest := j.up[0], j.up[1..];
    var e := Step(j.loader.dec, x).1;
    var w := Framed(j);
    var after := Emitted(Step(j.loader.dec, x).0, rest);
    assert Emitted(j.loader.dec, j.up) == Opt(e) + after;
    LoaderKeepsUp(b, j.(up := rest), Byte(x));
    if e.None? {
      assert [] + after == after;
      TurnMeetsNothing(b, image, j, Byte(x), rest);
    } else {
      assert w.up == [ItemOf(e.value)] + ItemsOf(after);
      assert w.up[0] == ItemOf(e.value) && w.up[1..] == ItemsOf(after);
      TurnMeets(b, image, j, w.(up := w.up[1..]), Byte(x), rest);
      ReportedIs(e.value);
    }
  }

  lemma LoaderKeepsUp(b: Board, j: Pair, i: Input)
    requires Inv(b, j.loader.st)
    ensures LoaderTakes(b, j, i).up == j.up
    ensures Meets(j.loader, i).None? ==> LoaderTakes(b, j, i).loader.jump == j.loader.jump
  {
    hide React, Inv, BytesOf;
  }

  /** The loader reads bytes until it hears something. */
  lemma {:induction false} HearNext(b: Board, image: Image, j: Pair) returns (acts: seq<JAct>, k: Pair)
    requires Closed(b, image, j) && Enabled(Framed(j), LoaderHears)
    ensures JPath(b, image, j, acts, k) && Closed(b, image, k)
    ensures Framed(k) == Do(b, image, Framed(j), LoaderHears)
    decreases |j.up|
  {
    hide JPath, Do, Closed, JDo, Step, Sane;
    UpIsThere(j);
    ByteIs(b, image, j);
    ClosedSane(b, image, j);
    var n := JDo(b, image, j, LoaderByte);
    if Step(j.loader.dec, j.up[0]).1.None? {
      var rest: seq<JAct>;
      rest, k := HearNext(b, image, n);
      JPathFirst(b, image, j, LoaderByte, rest, k);
      acts := [LoaderByte] + rest;
    } else {
      k := n;
      JPathNowhere(b, image, k);
      JPathFirst(b, image, j, LoaderByte, [], k);
      acts := [LoaderByte] + [];
    }
  }

  lemma UpIsThere(j: Pair)
    requires Enabled(Framed(j), LoaderHears)
    ensures JCan(j, LoaderByte) && j.up != []
  {}

  // ------------------------------------------------------------------ the host hears

  /** The shortest piece that holds the next frame. */
  lemma {:induction false} NextFrame(dec: State, bytes: seq<byte>) returns (n: nat)
    requires Packets(Emitted(dec, bytes)) != []
    ensures n <= |bytes| && Scan(dec, bytes[..n]).packet.Some?
    ensures After(dec, bytes[..n]) == Sync0 && |Packets(Emitted(dec, bytes[..n]))| == 1
    decreases |bytes|
  {
    var next, e := Step(dec, bytes[0]).0, Step(dec, bytes[0]).1;
    GoodEnds(dec, bytes[0]);
    hide Step;
    if e.Some? && e.value.Good? {
      n := 1;
      assert bytes[..1] == [bytes[0]];
      OneByte(dec, bytes[0]);
    } else {
      PacketsJoin(Opt(e), Emitted(next, bytes[1..]));
      if e.Some? { PacketsOne(e.value); }
      var m := NextFrame(next, bytes[1..]);
      n := m + 1;
      assert bytes[..n][1..] == bytes[1..][..m] && bytes[..n][0] == bytes[0];
      PacketsJoin(Opt(e), Emitted(next, bytes[1..][..m]));
    }
  }

  lemma OneByte(dec: State, x: byte)
    requires Step(dec, x).1.Some? && Step(dec, x).1.value.Good? && Step(dec, x).0 == Sync0
    ensures Scan(dec, [x]).packet.Some? && After(dec, [x]) == Sync0 && |Packets(Emitted(dec, [x]))| == 1
  {
    hide Step;
    assert [x][1..] == [];
    var e := Step(dec, x).1.value;
    assert Emitted(dec, [x]) == [e] + [];
    assert [e] + [] == [e];
    PacketsOne(e);
  }

  lemma HostNext(b: Board, image: Image, j: Pair) returns (acts: seq<JAct>, k: Pair)
    requires Closed(b, image, j) && Enabled(Framed(j), HostHears)
    ensures JPath(b, image, j, acts, k) && Closed(b, image, k)
    ensures Framed(k) == Do(b, image, Framed(j), HostHears)
  {
    hide JPath, After, Emitted, HostOk, Inv, Scan, HostReply, HostActs, HostTakes;
    var n := NextFrame(j.hdec, j.down);
    ReadExactly(b, image, j, n);
    k := JDo(b, image, j, HostReads(n));
    JPathNowhere(b, image, k);
    JPathFirst(b, image, j, HostReads(n), [], k);
    acts := [HostReads(n)] + [];
  }

  lemma ReadExactly(b: Board, image: Image, j: Pair, n: nat)
    requires Closed(b, image, j) && Enabled(Framed(j), HostHears) && n <= |j.down|
    requires Scan(j.hdec, j.down[..n]).packet.Some?
    requires After(j.hdec, j.down[..n]) == Sync0 && |Packets(Emitted(j.hdec, j.down[..n]))| == 1
    ensures JCan(j, HostReads(n))
    ensures var k := HostGets(image, j, n);
      Closed(b, image, k) && Framed(k) == Do(b, image, Framed(j), HostHears)
  {
    hide After, Emitted, HostOk, Inv, Scan, HostReply, HostActs, HostTakes;
    var w := Framed(j);
    var piece, rest := j.down[..n], j.down[n..];
    ScanMeans(j.hdec, piece);
    var p := Scan(j.hdec, piece).packet.value;
    assert j.down == piece + rest;
    RunSplit(j.hdec, piece, rest);
    PacketsJoin(Emitted(j.hdec, piece), Emitted(Sync0, rest));
    assert w.down[0] == p && w.down[1..] == Packets(Emitted(Sync0, rest));
    var w1 := w.(down := w.down[1..]);
    var got := j.(hdec := Sync0, down := rest, pieces := j.pieces + [Got(piece)]);
    HostTakesIs(b, image, got, w1, Some(p));
    HostActsOk(image, w1, Some(p));
  }

  // -------------------------------------------------------------------- whole runs

  predicate OnlyReading(ps: seq<Action>) {
    forall i :: 0 <= i < |ps| ==> ps[i] == LoaderHears || ps[i] == HostHears
  }

  /** Every frame-level run of reading is a run of the programs on their bytes. */
  lemma {:induction false} ReadingLifts(b: Board, image: Image, j: Pair, ps: seq<Action>)
    returns (acts: seq<JAct>, k: Pair)
    requires Closed(b, image, j) && Runs(b, image, Framed(j), ps) && OnlyReading(ps)
    ensures JPath(b, image, j, acts, k) && Closed(b, image, k)
    ensures Framed(k) == Exec(b, image, Framed(j), ps)
    decreases |ps|
  {
    hide JPath, Do, Closed, Sane, Enabled, Framed;
    if ps == [] {
      acts, k := [], j;
      JPathNowhere(b, image, j);
    } else {
      var first: seq<JAct>;
      var n: Pair;
      if ps[0] == LoaderHears {
        first, n := HearNext(b, image, j);
      } else {
        first, n := HostNext(b, image, j);
      }
      var rest: seq<JAct>;
      rest, k := ReadingLifts(b, image, n, ps[1..]);
      JPathThen(b, image, j, first, n, rest, k);
      acts := first + rest;
    }
  }

  lemma {:induction false} QuietSchedule(n: nat)
    ensures OnlyReading(Recovery.Schedule(seq(n, _ => 0)))
    decreases n
  {
    if n > 0 {
      var ks: seq<nat> := seq(n, _ => 0);
      assert ks[1..] == seq(n - 1, _ => 0);
      QuietSchedule(n - 1);
    }
  }

  /** A load over the wire succeeds: from every start for an admissible image with nothing
      on its way to the host, some run of the two programs on their bytes ends with the
      host reporting success and the image in the loader's memory. */
  lemma JointSucceeds(b: Board, image: Image, j: Pair) returns (acts: seq<JAct>, k: Pair)
    requires JStart(b, image, j) && j.down == [] && Recovery.Admissible(b, image)
    ensures JPath(b, image, j, acts, k)
    ensures k.host.Booted? && k.loader.jump.Some?
    ensures Landed(image, Landing(k.loader.jump.value, k.loader.st.mem))
  {
    hide JPath, Closed, Start, Exec, Runs, Landed, OnlyReading, Emitted, JRuns, JExec;
    hide Recovery.Admissible, Recovery.Schedule, Recovery.Leads;
    NothingDown(j);
    var n := ChunksLeft(image, MAX_CHUNK, 0);
    var ks: seq<nat> := seq(n, _ => 0);
    var v := Recovery.LoadGetsThrough(b, image, Framed(j), ks);
    Recovery.LeadsMeans(b, image, Framed(j), Recovery.Load(ks), v, 2 + Recovery.Sum(ks) + |ks|);
    QuietSchedule(n);
    LoadOnlyReads(ks);
    acts, k := ReadingLifts(b, image, j, Recovery.Load(ks));
    JPathMeans(b, image, j, acts, k);
    JointLands(b, image, j, acts);
  }

  /** Every frame-level start with nothing on its way down has its bytes. */
  lemma StartOnBytes(b: Board, image: Image, w: World) returns (j: Pair)
    requires Start(b, image, w) && w.down == []
    ensures JStart(b, image, j) && j.down == [] && Framed(j) == w
  {
    hide After, Emitted, Inv, ToLe, WireOf, Encode;
    var hello := HelloPacket();
    FrameDecodes(Sync0, hello.ty, hello.payload);
    var up := Encode(hello.ty, hello.payload);
    j := Pair(AwaitReady, Sync0, [hello], [], Machine(w.loader, Sync0, [], None), [], up, []);
    NothingEmitted();
    assert ItemsOf([Good(hello.ty, hello.payload)]) == [Clean(hello)];
  }

  lemma NothingEmitted()
    ensures After(Sync0, []) == Sync0 && Emitted(Sync0, []) == []
  {}

  lemma NothingDown(j: Pair)
    requires j.down == []
    ensures Framed(j).down == []
  {}

  lemma LoadOnlyReads(ks: seq<nat>)
    requires OnlyReading(Recovery.Schedule(ks))
    ensures OnlyReading(Recovery.Load(ks))
  {}

  lemma JPathMeans(b: Board, image: Image, j: Pair, acts: seq<JAct>, k: Pair)
    requires JPath(b, image, j, acts, k)
    ensures JRuns(b, image, j, acts) && JExec(b, image, j, acts) == k
  {}
}
