/** A load over the wire: whole runs of the joined programs, and the two programs' own
    methods on the bytes such a run gives them. */
module JointRuns {
  import opened Outcomes
  import opened Receive
  import opened Session
  import opened Decoding
  import opened Protocol
  import opened ByteLoop
  import opened HostMachine
  import opened Joint
  import opened JointSteps
  import LoaderMachine

  // ----------------------------------------------------------------------- runs

  ghost predicate JRuns(b: Board, image: Image, j: Pair, acts: seq<JAct>)
    decreases |acts|
  {
    acts == [] ||
    (Sane(b, image, Framed(j)) && JCan(j, acts[0]) &&
     JRuns(b, image, JDo(b, image, j, acts[0]), acts[1..]))
  }

  ghost function JExec(b: Board, image: Image, j: Pair, acts: seq<JAct>): Pair
    requires JRuns(b, image, j, acts)
    decreases |acts|
  {
    if acts == [] then j else JExec(b, image, JDo(b, image, j, acts[0]), acts[1..])
  }

  /** Every run of the two programs over their bytes is a run of the frame-level system. */
  lemma {:induction false} JointIsRun(b: Board, image: Image, j: Pair, acts: seq<JAct>) returns (ps: seq<Action>)
    requires Closed(b, image, j) && JRuns(b, image, j, acts)
    ensures Path(b, image, Framed(j), ps, Framed(JExec(b, image, j, acts)))
    ensures Closed(b, image, JExec(b, image, j, acts))
    decreases |acts|
  {
    hide Path, Closed, Framed, JDo, JCan, Sane;
    if acts == [] {
      ps := [];
      PathNowhere(b, image, Framed(j));
    } else {
      var k := JDo(b, image, j, acts[0]);
      var first := JointStep(b, image, j, acts[0]);
      var rest := JointIsRun(b, image, k, acts[1..]);
      ps := first + rest;
      PathThen(b, image, Framed(j), first, Framed(k), rest, Framed(JExec(b, image, j, acts)));
    }
  }

  /** A session over the wire begins like one of frames: HELLO is out, nothing older goes
      up and no ACK comes down; the wires may carry text and other frames. */
  ghost predicate JStart(b: Board, image: Image, j: Pair) {
    && Closed(b, image, j)
    && Start(b, image, Framed(j))
    && j.pieces == [] && j.inputs == []
  }

  /** If the host ends in success the loader has jumped, and a jump lands the image. */
  lemma JointLands(b: Board, image: Image, j: Pair, acts: seq<JAct>)
    requires JStart(b, image, j) && JRuns(b, image, j, acts)
    ensures var k := JExec(b, image, j, acts);
      && (k.host.Booted? ==> k.loader.jump.Some?)
      && (k.loader.jump.Some? ==> Landed(image, Landing(k.loader.jump.value, k.loader.st.mem)))
  {
    hide Closed, Start, JExec, JRuns, Landed, Runs, Exec, Emitted, Packets;
    var ps := JointIsRun(b, image, j, acts);
    BootedMeansLanded(b, image, Framed(j), ps);
  }

  // ------------------------------------------------------- the loader's side of a run

  lemma {:induction false} TurnsMore(b: Board, m: Machine, inputs: seq<Input>, i: Input)
    requires Inv(b, m.st) && Turns(b, m, inputs).jump.None?
    ensures Turns(b, m, inputs + [i]) == Turn(b, Turns(b, m, inputs), i)
    decreases |inputs|
  {
    hide Turn, Inv;
    if inputs == [] {
      assert [] + [i] == [i] && [i][1..] == [];
      TurnKeepsInv(b, m, i);
    } else if m.jump.None? {
      assert (inputs + [i])[1..] == inputs[1..] + [i];
      TurnKeepsInv(b, m, inputs[0]);
      TurnsMore(b, Turn(b, m, inputs[0]), inputs[1..], i);
    }
  }

  lemma LoaderStep(b: Board, image: Image, m: Machine, j: Pair, a: JAct)
    requires Sane(b, image, Framed(j)) && JCan(j, a) && Inv(b, m.st) && j.loader == Turns(b, m, j.inputs)
    ensures var k := JDo(b, image, j, a); k.loader == Turns(b, m, k.inputs)
  {
    hide Turn, Turns, Inv, HostOk, HostReply, Scan, After, Emitted;
    if a.LoaderByte? {
      TurnsMore(b, m, j.inputs, Byte(j.up[0]));
    } else if a.LoaderPause? {
      TurnsMore(b, m, j.inputs, Silence(a.expired, a.beat));
    }
  }

  /** The loader in a joint run is where its receive loop takes it on its inputs. */
  lemma {:induction false} LoaderFollows(b: Board, image: Image, m: Machine, j: Pair, acts: seq<JAct>)
    requires JRuns(b, image, j, acts) && Inv(b, m.st) && j.loader == Turns(b, m, j.inputs)
    ensures var k := JExec(b, image, j, acts); k.loader == Turns(b, m, k.inputs)
    decreases |acts|
  {
    hide JDo, JCan, Inv, Turns, Sane;
    if acts != [] {
      LoaderStep(b, image, m, j, acts[0]);
      LoaderFollows(b, image, m, JDo(b, image, j, acts[0]), acts[1..]);
    }
  }

  // --------------------------------------------------------- the host's side of a run

  /** The host in a joint run, with more to read. */
  function HostOf(j: Pair, more: seq<Read>): Link { Link(j.host, j.hdec, more, j.sent) }

  /** Where one piece takes a waiting host. */
  function AfterPiece(image: Image, j: Pair, r: Read, more: seq<Read>): (l: Link)
    requires HostOk(image, j.host)
    ensures HostOk(image, l.host)
  {
    match r
    case Quiet => HostOf(j, more)
    case Broken => Takes(HostOf(j, more), HostReply(image, j.host, None))
    case Deadline => Takes(HostOf(j, more), HostReply(image, j.host, None))
    case Got(bytes) =>
      var s := Scan(j.hdec, bytes);
      var l := HostOf(j.(hdec := s.dec), more);
      if s.packet.None? then l else Takes(l, HostReply(image, j.host, s.packet))
  }

  lemma FinishPiece(image: Image, j: Pair, r: Read, more: seq<Read>)
    requires HostOk(image, j.host) && j.host.Waiting()
    ensures Finish(image, HostOf(j, [r] + more)) == Finish(image, AfterPiece(image, j, r, more))
  {
    hide Scan, HostReply, HostOk, Finish;
    var l := HostOf(j, [r] + more);
    assert ([r] + more)[1..] == more;
    FinishHears(image, l);
    match r
    case Quiet => FinishHears(image, HostOf(j, more));
    case Got(bytes) =>
      var s := Scan(j.hdec, bytes);
      if s.packet.None? { FinishHears(image, HostOf(j.(hdec := s.dec), more)); }
    case Broken =>
    case Deadline =>
  }

  lemma HostFollowsStep(b: Board, image: Image, j: Pair, a: JAct, more: seq<Read>) returns (got: seq<Read>)
    requires Sane(b, image, Framed(j)) && JCan(j, a)
    ensures var k := JDo(b, image, j, a);
      && HostOk(image, k.host)
      && k.pieces == j.pieces + got
      && Finish(image, HostOf(j, got + more)) == Finish(image, HostOf(k, more))
  {
    hide Finish, Inv, HostOk, HostReply, Scan, After, Emitted, Turn;
    got := [];
    assert j.pieces + [] == j.pieces && [] + more == more;
    if a.HostReads? {
      got := [Got(j.down[..a.k])];
      FinishPiece(image, j, got[0], more);
    } else if a.HostQuiet? {
      got := [Quiet];
      FinishPiece(image, j, Quiet, more);
    } else if a.HostGivesUp? {
      got := [if a.broken then Broken else Deadline];
      FinishPiece(image, j, got[0], more);
    }
  }

  lemma SaneHost(b: Board, image: Image, j: Pair)
    requires Sane(b, image, Framed(j))
    ensures HostOk(image, j.host)
  {}

  /** The host in a joint run is where its code takes it on the pieces it has read. */
  lemma {:induction false} HostFollows(b: Board, image: Image, j: Pair, acts: seq<JAct>, more: seq<Read>)
    returns (got: seq<Read>)
    requires Closed(b, image, j) && JRuns(b, image, j, acts)
    ensures var k := JExec(b, image, j, acts);
      && HostOk(image, j.host) && HostOk(image, k.host)
      && k.pieces == j.pieces + got
      && Finish(image, HostOf(j, got + more)) == Finish(image, HostOf(k, more))
    decreases |acts|
  {
    hide JDo, JCan, HostOk, Finish, Closed, Framed, Sane, HostOf;
    ClosedSane(b, image, j);
    SaneHost(b, image, j);
    if acts == [] {
      got := [];
      assert [] + more == more && j.pieces + [] == j.pieces;
    } else {
      var k := JDo(b, image, j, acts[0]);
      var ps := JointStep(b, image, j, acts[0]);
      var rest := HostFollows(b, image, k, acts[1..], more);
      var first := HostFollowsStep(b, image, j, acts[0], rest + more);
      got := first + rest;
      assert first + (rest + more) == got + more;
      assert j.pieces + first + rest == j.pieces + got;
    }
  }

  /** With nothing left to read a session never comes to success. */
  lemma {:induction false} SilenceFails(image: Image, h: RawHost, dec: State, sent: seq<Packet>)
    requires HostOk(image, h) && Finish(image, Link(h, dec, [], sent)).host.Booted?
    ensures h.Booted?
    decreases Patience(image, h)
  {
    hide HostOk, Patience, Finish;
    if h.Waiting() {
      var l := Link(h, dec, [], sent);
      FinishHears(image, l);
      EveryReplyCounts(image, h, None);
      var next := Hears(image, l);
      SilenceFails(image, next.host, next.dec, next.sent);
      NoneNeverBoots(image, h);
      assert false;
    } else {
      FinishEnds(image, Link(h, dec, [], sent));
    }
  }

  lemma NoneNeverBoots(image: Image, h: RawHost)
    requires HostOk(image, h) && h.Waiting()
    ensures !HostReply(image, h, None).next.Booted?
  {}

  // ----------------------------------------------------------- the two programs at work

  /** What the wires gave both programs, in some joint run from their starting states. */
  ghost predicate Joined(b: Board, image: Image, j: Pair, acts: seq<JAct>, port: seq<Read>, inputs: seq<Input>) {
    && JStart(b, image, j)
    && JRuns(b, image, j, acts)
    && port == JExec(b, image, j, acts).pieces
    && inputs == JExec(b, image, j, acts).inputs
  }

  lemma JoinedLands(
    b: Board, image: Image, j: Pair, acts: seq<JAct>, port: seq<Read>, inputs: seq<Input>)
    requires Joined(b, image, j, acts, port, inputs) && Inv(b, j.loader.st) && HostOk(image, j.host)
    requires Finish(image, HostOf(j, port)).host.Booted?
    ensures var m := Turns(b, j.loader, inputs);
      m.jump.Some? && Landed(image, Landing(m.jump.value, m.st.mem))
  {
    hide JRuns, JExec, Inv, HostOk, Finish, Turns, Landed, Closed, Start;
    JointLands(b, image, j, acts);
    var k := JExec(b, image, j, acts);
    var got := HostFollows(b, image, j, acts, []);
    assert [] + got == got && got + [] == got;
    SilenceFails(image, k.host, k.hdec, k.sent);
    StartTurns(b, j.loader);
    LoaderFollows(b, image, j.loader, j, acts);
  }

  lemma StartTurns(b: Board, m: Machine)
    requires Inv(b, m.st)
    ensures m == Turns(b, m, [])
  {}

  /** A load, by the programs themselves. The host's code runs on the pieces its port
      delivers and the loader's on the bytes and pauses of its UART, both from one joint
      run. If the host's load returns Ok, the loader has jumped to the image's entry, and
      its memory array holds the image byte for byte with the tail cleared. */
  method LoadOverTheWire(
    host: Host, loader: LoaderMachine.Receiver, image: Image, inputs: seq<Input>,
    ghost j: Pair, ghost acts: seq<JAct>)
    returns (r: Result<(), Failure>, jump: Option<Jump>)
    requires host.Valid() && loader.Valid()
    requires {host, host.decoder, host.decoder.buf}
      !! {loader, loader.mem, loader.decoder, loader.decoder.buf} + loader.Live()
    requires j.loader == loader.Now(None)
    requires HostOf(j, host.inbox) == host.Due(HostStep(AwaitReady, [HelloPacket()]))
    requires Joined(loader.board, image, j, acts, host.inbox, inputs)
    modifies host, host.decoder, host.decoder.buf
    modifies loader, loader.mem, loader.Live(), loader.decoder, loader.decoder.buf
    ensures loader.Valid()
    ensures r.Ok? ==> jump.Some? && Landed(image, Landing(jump.value, loader.mem[..]))
  {
    hide Landed, JRuns, JExec, JStart, Turns, Inv, Finish, Emitted, After, BytesOf, HelloPacket;
    ghost var b, port := loader.board, host.inbox;
    ghost var m := loader.Now(None);
    assert Inv(b, m.st);
    r := host.Load(image);
    assert loader.Now(None) == m;
    jump := loader.Serve(inputs);
    if r.Ok? {
      JoinedLands(b, image, j, acts, port, inputs);
    }
  }
}
