/** The two programs joined by their wires, byte by byte.

    Each side's bytes are the other's input, in any pieces and with any pauses. The wires
    may lose whole frames, turn frames into detected errors and add noise: `Harm` says
    what that does to the events a decoder would report. Every step of the joined machines
    is shown to be steps of the frame-level system of `Protocol`. */
module Joint {
  import opened Bytes
  import opened Outcomes
  import opened Receive
  import opened Session
  import opened Decoding
  import opened Protocol
  import opened ByteLoop
  import opened HostMachine

  // ---------------------------------------------------------------------- events

  function ItemOf(e: Event): Protocol.Item {
    match e
    case Good(ty, payload) => Clean(Packet(ty, payload))
    case Bad(error) => Damaged(error)
  }

  function ItemsOf(es: seq<Event>): (items: seq<Protocol.Item>)
    ensures |items| == |es| && forall i :: 0 <= i < |es| ==> items[i] == ItemOf(es[i])
  {
    seq(|es|, i requires 0 <= i < |es| => ItemOf(es[i]))
  }

  /** The frames among the events; errors are skipped, as the host skips them. */
  function Packets(es: seq<Event>): seq<Packet>
    decreases |es|
  {
    if es == [] then []
    else (if es[0].Good? then [Packet(es[0].ty, es[0].payload)] else []) + Packets(es[1..])
  }

  lemma PacketsFirst(es: seq<Event>)
    requires es != []
    ensures Packets(es) == (if es[0].Good? then [Packet(es[0].ty, es[0].payload)] else []) + Packets(es[1..])
  {}

  lemma {:induction false} PacketsJoin(a: seq<Event>, b: seq<Event>)
    ensures Packets(a + b) == Packets(a) + Packets(b)
    decreases |a|
  {
    if a == [] {
      assert a + b == b && Packets(a) == [] && [] + Packets(b) == Packets(b);
    } else {
      hide Packets;
      var h := if a[0].Good? then [Packet(a[0].ty, a[0].payload)] else [];
      PacketsFirst(a);
      PacketsFirst(a + b);
      assert (a + b)[1..] == a[1..] + b;
      PacketsJoin(a[1..], b);
      assert h + (Packets(a[1..]) + Packets(b)) == h + Packets(a[1..]) + Packets(b);
    }
  }

  lemma PacketsOne(e: Event)
    ensures Packets([e]) == if e.Good? then [Packet(e.ty, e.payload)] else []
  {
    assert [e][1..] == [];
  }

  // ------------------------------------------------------------------------ harm

  /** What a wire does to the events still to be reported: nothing, one lost, one damaged,
      or one error more. Corruption that no decoder can detect is not among them. */
  datatype Harm = Unharmed | Lost(i: nat) | Spoilt(i: nat, error: DecodeError) | Added(i: nat, error: DecodeError)

  predicate Applies(h: Harm, es: seq<Event>) {
    match h
    case Unharmed => true
    case Lost(i) => i < |es|
    case Spoilt(i, _) => i < |es|
    case Added(i, _) => i <= |es|
  }

  function Harmed(h: Harm, es: seq<Event>): seq<Event>
    requires Applies(h, es)
  {
    match h
    case Unharmed => es
    case Lost(i) => es[..i] + es[i + 1..]
    case Spoilt(i, e) => es[i := Bad(e)]
    case Added(i, e) => es[..i] + [Bad(e)] + es[i..]
  }

  // ----------------------------------------------------------------------- state

  /** Both programs and the bytes still on their wires, with what each has been given. */
  datatype Pair = Pair(
    host: RawHost, hdec: State, sent: seq<Packet>, pieces: seq<Read>,
    loader: Machine, inputs: seq<Input>,
    up: seq<byte>, down: seq<byte>)

  /** The frame-level world: what the bytes on the wires will be read as. */
  function Framed(j: Pair): World {
    World(j.host, ItemsOf(Emitted(j.loader.dec, j.up)), Packets(Emitted(j.hdec, j.down)), j.loader.st,
          if j.loader.jump.Some? then Some(Landing(j.loader.jump.value, j.loader.st.mem)) else None)
  }

  /** The bytes on the wires end between frames; after the jump the payload owns the wire
      to the host. */
  ghost predicate Closed(b: Board, image: Image, j: Pair) {
    && Sane(b, image, Framed(j))
    && After(j.loader.dec, j.up) == Sync0
    && (j.loader.jump.None? ==> After(j.hdec, j.down) == Sync0)
  }

  // --------------------------------------------------------------------- actions

  datatype JAct =
    | LoaderByte
    | LoaderPause(expired: bool, beat: bool, cut: Harm)
    | HostReads(k: nat)
    | HostQuiet
    | HostGivesUp(broken: bool)
    | HarmUp(bytes: seq<byte>, harm: Harm)
    | HarmDown(bytes: seq<byte>, harm: Harm)
    | Babble(bytes: seq<byte>)

  /** A timeout resets the decoder. What it will make of the bytes on the wire must then
      be what it would have made of them, with one frame harmed: the one it was cut in. */
  predicate CutsCleanly(j: Pair, cut: Harm) {
    && After(Sync0, j.up) == Sync0
    && Applies(cut, Emitted(j.loader.dec, j.up))
    && Emitted(Sync0, j.up) == Harmed(cut, Emitted(j.loader.dec, j.up))
  }

  /** A read that completes a frame ends between frames, so that what is dropped with it
      is whole frames. */
  predicate ReadsCleanly(j: Pair, k: nat)
    requires k <= |j.down|
  {
    Scan(j.hdec, j.down[..k]).packet.Some? ==> After(j.hdec, j.down[..k]) == Sync0
  }

  predicate JCan(j: Pair, a: JAct) {
    match a
    case LoaderByte => j.loader.jump.None? && j.up != []
    case LoaderPause(expired, _, cut) =>
      j.loader.jump.None? && (j.loader.st.transfer.Some? && expired ==> CutsCleanly(j, cut))
    case HostReads(k) => j.host.Waiting() && k <= |j.down| && (j.loader.jump.None? ==> ReadsCleanly(j, k))
    case HostQuiet => j.host.Waiting()
    case HostGivesUp(_) => j.host.Waiting()
    case HarmUp(bytes, harm) =>
      && After(j.loader.dec, bytes) == Sync0
      && Applies(harm, Emitted(j.loader.dec, j.up))
      && Emitted(j.loader.dec, bytes) == Harmed(harm, Emitted(j.loader.dec, j.up))
    case HarmDown(bytes, harm) =>
      && j.loader.jump.None?
      && After(j.hdec, bytes) == Sync0
      && Applies(harm, Emitted(j.hdec, j.down))
      && Emitted(j.hdec, bytes) == Harmed(harm, Emitted(j.hdec, j.down))
    case Babble(_) => j.loader.jump.Some?
  }

  /** What a turn of the loader puts on its UART. */
  function Says(b: Board, m: Machine, i: Input): seq<Out>
    requires Inv(b, m.st)
  {
    var e := Meets(m, i);
    if e.None? then Beat(m, i) else ByteLoop.Frames(React(b, m.st, e.value).replies)
  }

  function LoaderTakes(b: Board, j: Pair, i: Input): Pair
    requires Inv(b, j.loader.st)
  {
    j.(loader := Turn(b, j.loader, i), inputs := j.inputs + [i], down := j.down + BytesOf(Says(b, j.loader, i)))
  }

  /** The host acts on a reply, or on none. */
  function HostTakes(image: Image, j: Pair, reply: Option<Packet>): Pair
    requires HostOk(image, j.host)
  {
    var s := HostReply(image, j.host, reply);
    j.(host := s.next, sent := j.sent + s.sent, up := j.up + WireOf(s.sent))
  }

  function HostGets(image: Image, j: Pair, k: nat): Pair
    requires HostOk(image, j.host) && k <= |j.down|
  {
    var s := Scan(j.hdec, j.down[..k]);
    var got := j.(hdec := s.dec, down := j.down[k..], pieces := j.pieces + [Got(j.down[..k])]);
    if s.packet.None? then got else HostTakes(image, got, s.packet)
  }

  function JDo(b: Board, image: Image, j: Pair, a: JAct): Pair
    requires Sane(b, image, Framed(j)) && JCan(j, a)
  {
    match a
    case LoaderByte => LoaderTakes(b, j.(up := j.up[1..]), Byte(j.up[0]))
    case LoaderPause(expired, beat, _) => LoaderTakes(b, j, Silence(expired, beat))
    case HostReads(k) => HostGets(image, j, k)
    case HostQuiet => j.(pieces := j.pieces + [Quiet])
    case HostGivesUp(broken) =>
      HostTakes(image, j.(pieces := j.pieces + [if broken then Broken else Deadline]), None)
    case HarmUp(bytes, _) => j.(up := bytes)
    case HarmDown(bytes, _) => j.(down := bytes)
    case Babble(bytes) => j.(down := bytes)
  }

  // ------------------------------------------------------------------ frame-level paths

  /** `acts` leads the frame-level system from `w` to `v`. */
  ghost predicate Path(b: Board, image: Image, w: World, acts: seq<Action>, v: World) {
    Runs(b, image, w, acts) && Exec(b, image, w, acts) == v
  }

  lemma PathNowhere(b: Board, image: Image, w: World)
    ensures Path(b, image, w, [], w)
  {}

  lemma PathFirst(b: Board, image: Image, w: World, act: Action, acts: seq<Action>, v: World)
    requires Sane(b, image, w) && Enabled(w, act) && Path(b, image, Do(b, image, w, act), acts, v)
    ensures Path(b, image, w, [act] + acts, v)
  {
    hide Do, Sane, Enabled;
    assert ([act] + acts)[1..] == acts;
  }

  lemma PathOne(b: Board, image: Image, w: World, act: Action, v: World)
    requires Sane(b, image, w) && Enabled(w, act) && Do(b, image, w, act) == v
    ensures Path(b, image, w, [act], v)
  {
    hide Do, Sane, Enabled;
    PathNowhere(b, image, v);
    PathFirst(b, image, w, act, [], v);
    assert [act] + [] == [act];
  }

  lemma {:induction false} PathThen(
    b: Board, image: Image, w: World, p: seq<Action>, u: World, q: seq<Action>, v: World)
    requires Path(b, image, w, p, u) && Path(b, image, u, q, v)
    ensures Path(b, image, w, p + q, v)
    decreases |p|
  {
    hide Do, Sane, Enabled;
    if p == [] {
      assert p + q == q;
    } else {
      assert (p + q)[1..] == p[1..] + q;
      PathThen(b, image, Do(b, image, w, p[0]), p[1..], u, q, v);
    }
  }
}
