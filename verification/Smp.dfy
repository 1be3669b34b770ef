/** Parking, releasing and re-parking the secondary cores, one load or store at a time.

    Four cores share the release slots, the ACTIVE flags, the handoff block, the
    firmware's spin-table words and one mailbox of interrupt bits per core. Every
    action below is one access by one core; a run is any interleaving of them, under
    sequential consistency. The payload is an arbitrary environment: on any core it may
    write release slots, ring mailboxes and execute HVC. */
module Smp {

  const HANDOFF: nat := 9

  /** The core number of a secondary; core 0 is the boot core. */
  type secondary = c: nat | 1 <= c <= 3 witness 1

  type cpu = c: nat | c <= 3

  /** What a secondary starts the payload with. */
  datatype Context = Context(entry: nat, regs: seq<nat>)

  /** Where a secondary stands: each value is the access it makes next. */
  datatype Pc =
    | Spin                                       // firmware spin-table
    | Enter                                      // clear ACTIVE
    | Park                                       // poll the release slot
    | Consume(entry: nat)                        // clear the slot
    | MarkActive(entry: nat)                     // set ACTIVE
    | DrainRead(entry: nat)                      // read own mailbox
    | DrainClear(entry: nat, bits: set<nat>)     // clear what was read
    | Rebuild(entry: nat, got: seq<nat>)         // load the handoff, then ERET
    | Payload(ctx: Context)
    | Hvc(ctx: Context, imm: nat)                // trapped, decoding the immediate
    | HvcClear                                   // HVC #0: clear ACTIVE
    | HvcPing                                    // ring core 0
    | FiqRead(ctx: Context)                      // trapped, read own mailbox
    | FiqGot(ctx: Context, bits: set<nat>)       // clear it, unless nothing was pending
    | FiqClean                                   // sweep the L1 data cache

  /** A core's own words: its release slot, ACTIVE flag and pending mailbox bits. */
  datatype Core = Core(pc: Pc, slot: nat, active: bool, pending: set<nat>)

  /** Where the boot core stands. */
  datatype BootPc =
    | Loading                                    // receiving an image
    | Publish(i: nat)                            // store handoff word i
    | ZeroSlot(k: nat)                           // store 0 to slot k
    | Word(k: nat)                               // write spin-table word k
    | Running                                    // payload on core 0
    | BootHvc(imm: nat)
    | BootFiqRead
    | BootFiqGot(bits: set<nat>)
    | Scan(k: nat)                               // quiesce: read ACTIVE[k]
    | RingAt(k: nat)                             // quiesce: ring core k
    | Wait(k: nat)                               // quiesce: poll ACTIVE[k]
    | Flush                                      // flush every cache level

  /** `cores[0]` holds the boot core's words; its `pc` is unused. */
  datatype RawSystem = System(boot: BootPc, args: seq<nat>, handoff: seq<nat>, words: seq<bool>, cores: seq<Core>) {
    predicate Shape() {
      && |args| == HANDOFF && |handoff| == HANDOFF && |words| == 4 && |cores| == 4
      && (boot.Publish? ==> boot.i < HANDOFF)
      && (boot.ZeroSlot? ==> boot.k < 4)
      && (boot.Word? ==> 1 <= boot.k < 4)
      && (boot.Scan? ==> 1 <= boot.k < 4)
      && (boot.RingAt? ==> 1 <= boot.k < 4)
      && (boot.Wait? ==> 1 <= boot.k < 4)
    }
  }

  type System = s: RawSystem | s.Shape() witness PowerOn()

  function Off(): Core { Core(Spin, 0, false, {}) }

  function PowerOn(): (s: RawSystem)
    ensures s.Shape()
  {
    var zeros := seq(HANDOFF, _ => 0);
    System(Loading, zeros, zeros, [false, false, false, false], [Off(), Off(), Off(), Off()])
  }

  // --------------------------------------------------------------------- steps

  /** A secondary's step on its own words. */
  function Own(core: Core, word: bool, handoff: seq<nat>): Core
    requires |handoff| == HANDOFF
  {
    match core.pc
    case Spin => if word then core.(pc := Enter) else core
    case Enter => core.(pc := Park, active := false)
    case Park => if core.slot == 0 then core else core.(pc := Consume(core.slot))
    case Consume(e) => core.(pc := MarkActive(e), slot := 0)
    case MarkActive(e) => core.(pc := DrainRead(e), active := true)
    case DrainRead(e) => core.(pc := DrainClear(e, core.pending))
    case DrainClear(e, bits) => core.(pc := Rebuild(e, []), pending := core.pending - bits)
    case Rebuild(e, got) =>
      if |got| < HANDOFF then core.(pc := Rebuild(e, got + [handoff[|got|]]))
      else core.(pc := Payload(Context(e, got)))
    case Payload(_) => core
    case Hvc(ctx, imm) => core.(pc := if imm == 0 then HvcClear else Payload(ctx))
    case HvcClear => core.(pc := HvcPing, active := false)
    case HvcPing => core.(pc := Enter)
    case FiqRead(ctx) => core.(pc := FiqGot(ctx, core.pending))
    case FiqGot(ctx, bits) =>
      if bits == {} then core.(pc := Payload(ctx)) else core.(pc := FiqClean, pending := core.pending - bits)
    case FiqClean => core.(pc := Enter)
  }

  function Rung(core: Core, bit: nat): Core { core.(pending := core.pending + {bit}) }

  /** A secondary's step; only the HVC #0 path touches another core, the boot core. */
  function Advance(s: System, c: secondary): System {
    var next := s.cores[c := Own(s.cores[c], s.words[c], s.handoff)];
    s.(cores := if s.cores[c].pc.HvcPing? then next[0 := Rung(next[0], 0)] else next)
  }

  /** The boot core's step outside the payload. */
  function BootStep(s: System): System {
    match s.boot
    case Loading => s
    case Publish(i) =>
      s.(handoff := s.handoff[i := s.args[i]], boot := if i + 1 < HANDOFF then Publish(i + 1) else ZeroSlot(0))
    case ZeroSlot(k) =>
      s.(cores := s.cores[k := s.cores[k].(slot := 0)], boot := if k < 3 then ZeroSlot(k + 1) else Word(1))
    case Word(k) => s.(words := s.words[k := true], boot := if k < 3 then Word(k + 1) else Running)
    case Running => s
    case BootHvc(imm) => s.(boot := if imm == 0 then Scan(1) else Running)
    case BootFiqRead => s.(boot := BootFiqGot(s.cores[0].pending))
    case BootFiqGot(bits) =>
      if bits == {} then s.(boot := Running)
      else s.(boot := Scan(1), cores := s.cores[0 := s.cores[0].(pending := s.cores[0].pending - bits)])
    case Scan(k) => s.(boot := if s.cores[k].active then RingAt(k) else AfterScan(k))
    case RingAt(k) => s.(boot := AfterScan(k), cores := s.cores[k := Rung(s.cores[k], 0)])
    case Wait(k) => if s.cores[k].active then s else s.(boot := if k < 3 then Wait(k + 1) else Flush)
    case Flush => s.(boot := Loading)
  }

  function AfterScan(k: nat): BootPc { if k < 3 then Scan(k + 1) else Wait(1) }

  datatype Act =
    | Step(c: cpu)                               // one access, or one instruction of the payload
    | Launch(args: seq<nat>)                     // BOOT: core 0 leaves the receive loop
    | Doorbell(who: cpu, c: cpu, entry: nat)      // payload writes a release slot
    | Ring(who: cpu, c: cpu, bit: nat)            // payload rings a mailbox
    | CallHvc(who: cpu, imm: nat)                 // payload executes HVC
    | TakeFiq(who: cpu)                           // an FIQ traps the core, ours or not

  predicate InPayload(s: System, c: cpu) {
    if c == 0 then s.boot == Running else s.cores[c].pc.Payload?
  }

  predicate Can(s: System, a: Act) {
    match a
    case Step(_) => true
    case Launch(args) => s.boot == Loading && |args| == HANDOFF
    case Doorbell(who, _, _) => InPayload(s, who)
    case Ring(who, _, _) => InPayload(s, who)
    case CallHvc(who, _) => InPayload(s, who)
    case TakeFiq(who) => InPayload(s, who)
  }

  function Do(s: System, a: Act): System
    requires Can(s, a)
  {
    match a
    case Step(c) => if c == 0 then BootStep(s) else Advance(s, c)
    case Launch(args) => s.(boot := Publish(0), args := args)
    case Doorbell(_, c, entry) => s.(cores := s.cores[c := s.cores[c].(slot := entry)])
    case Ring(_, c, bit) => s.(cores := s.cores[c := Rung(s.cores[c], bit)])
    case CallHvc(who, imm) =>
      if who == 0 then s.(boot := BootHvc(imm))
      else s.(cores := s.cores[who := s.cores[who].(pc := Hvc(s.cores[who].pc.ctx, imm))])
    case TakeFiq(who) =>
      if who == 0 then s.(boot := BootFiqRead)
      else s.(cores := s.cores[who := s.cores[who].(pc := FiqRead(s.cores[who].pc.ctx))])
  }

  ghost predicate Runs(s: System, acts: seq<Act>)
    decreases |acts|
  {
    acts == [] || (Can(s, acts[0]) && Runs(Do(s, acts[0]), acts[1..]))
  }

  ghost function Exec(s: System, acts: seq<Act>): System
    requires Runs(s, acts)
    decreases |acts|
  {
    if acts == [] then s else Exec(Do(s, acts[0]), acts[1..])
  }

  // --------------------------------------------------- ACTIVE means what it says

  /** Executing payload code, or trapped out of it and able to return. */
  predicate Inside(core: Core) {
    core.pc.Payload? || core.pc.Hvc? || core.pc.FiqRead? || core.pc.FiqGot?
  }

  /** How a secondary's flag follows its program counter. Only the entry to the
      trampoline is reached with the flag either way. */
  predicate FlagOk(core: Core) {
    match core.pc
    case Spin => !core.active
    case Enter => true
    case Park => !core.active
    case Consume(e) => !core.active && e != 0
    case MarkActive(e) => !core.active && e != 0
    case HvcPing => !core.active
    case _ => core.active
  }

  predicate Flags(s: System) {
    forall c: secondary :: FlagOk(s.cores[c])
  }

  lemma OwnKeepsFlag(core: Core, word: bool, handoff: seq<nat>)
    requires FlagOk(core) && |handoff| == HANDOFF
    ensures FlagOk(Own(core, word, handoff))
  {}

  /** What one action can do to a secondary's words: the core's own step, or a write to
      its slot or mailbox by another, or a trap. */
  ghost predicate Touch(s: System, a: Act, c: secondary, was: Core, now: Core)
  {
    || now == was
    || (a == Step(c) && now == Own(was, s.words[c], s.handoff))
    || (a == Step(0) && s.boot == ZeroSlot(c) && now == was.(slot := 0))
    || (a == Step(0) && s.boot == RingAt(c) && now == Rung(was, 0))
    || (a.Doorbell? && a.c == c && now == was.(slot := a.entry))
    || (a.Ring? && a.c == c && now == Rung(was, a.bit))
    || (was.pc.Payload? && a.CallHvc? && a.who == c && now == was.(pc := Hvc(was.pc.ctx, a.imm)))
    || (was.pc.Payload? && a.TakeFiq? && a.who == c && now == was.(pc := FiqRead(was.pc.ctx)))
  }

  lemma DoTouches(s: System, a: Act, c: secondary)
    requires Can(s, a)
    ensures Touch(s, a, c, s.cores[c], Do(s, a).cores[c])
  {
    hide Own;
  }

  /** One action of any core keeps every flag in step with its program counter. */
  lemma StepKeepsFlags(s: System, a: Act)
    requires Flags(s) && Can(s, a)
    ensures Flags(Do(s, a))
  {
    hide Do, Own;
    forall c: secondary ensures FlagOk(Do(s, a).cores[c]) {
      DoTouches(s, a, c);
      assert FlagOk(s.cores[c]);
      OwnKeepsFlag(s.cores[c], s.words[c], s.handoff);
    }
  }

  /** Over every interleaving from power-on, a secondary in the payload has ACTIVE set. */
  lemma {:induction false} PayloadImpliesActive(s: System, acts: seq<Act>, c: secondary)
    requires Flags(s) && Runs(s, acts)
    ensures Flags(Exec(s, acts))
    ensures Inside(Exec(s, acts).cores[c]) ==> Exec(s, acts).cores[c].active
    decreases |acts|
  {
    hide Do, Can;
    if acts == [] {
      assert FlagOk(s.cores[c]);
    } else {
      StepKeepsFlags(s, acts[0]);
      PayloadImpliesActive(Do(s, acts[0]), acts[1..], c);
    }
  }

  lemma PowerOnFlags()
    ensures Flags(PowerOn())
  {}
}
