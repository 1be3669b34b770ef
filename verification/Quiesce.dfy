/** Why a reload is safe with every core running: when the boot core's quiesce returns,
    no secondary is executing the payload, and none will before a new doorbell. */
module Quiesce {
  import opened Smp

  // ------------------------------------------------------------------ vocabulary

  /** No start is on its way to this core: its slot is empty and not just consumed. */
  predicate Unstarted(core: Core) {
    core.slot == 0 && !core.pc.Consume? && !core.pc.MarkActive?
  }

  predicate NoStart(s: System) {
    forall c: secondary :: Unstarted(s.cores[c])
  }

  /** Out of the payload, and bound to wait in the trampoline for a doorbell. */
  predicate Down(core: Core) {
    core.slot == 0 && (core.pc.Spin? || core.pc.Enter? || core.pc.Park? || core.pc.HvcPing?)
  }

  predicate AllDown(s: System) {
    forall c: secondary :: Down(s.cores[c])
  }

  /** Anything but a nonzero doorbell for a secondary. */
  predicate Silent(a: Act) {
    a.Doorbell? ==> a.entry == 0 || a.c == 0
  }

  predicate AllSilent(acts: seq<Act>) {
    forall i :: 0 <= i < |acts| ==> Silent(acts[i])
  }

  /** Whose step an action is. */
  function Actor(a: Act): cpu {
    match a
    case Step(c) => c
    case Launch(_) => 0
    case Doorbell(who, _, _) => who
    case Ring(who, _, _) => who
    case CallHvc(who, _) => who
    case TakeFiq(who) => who
  }

  /** A pending FIQ is taken before the payload's next instruction on that core. */
  predicate Prompt(s: System, a: Act) {
    var c := Actor(a);
    c != 0 && s.cores[c].pc.Payload? && s.cores[c].pending != {} ==> a.TakeFiq?
  }

  ghost predicate PromptRun(s: System, acts: seq<Act>)
    requires Runs(s, acts)
    decreases |acts|
  {
    acts == [] || (Prompt(s, acts[0]) && PromptRun(Do(s, acts[0]), acts[1..]))
  }

  /** A doorbell-free run that takes interrupts promptly. */
  ghost predicate Orderly(s: System, acts: seq<Act>) {
    Runs(s, acts) && AllSilent(acts) && PromptRun(s, acts)
  }

  lemma OrderlyTail(s: System, acts: seq<Act>)
    requires Orderly(s, acts) && acts != []
    ensures Can(s, acts[0]) && Silent(acts[0]) && Prompt(s, acts[0]) && Orderly(Do(s, acts[0]), acts[1..])
  {
    hide Do, Can, Silent, Prompt;
  }

  /** The boot core is past the quiesce and has not entered the next image yet. */
  predicate Reloading(p: BootPc) {
    p.Flush? || p.Loading? || p.Publish? || p.ZeroSlot? || p.Word?
  }

  predicate Quiescing(p: BootPc) {
    p.Scan? || p.RingAt? || p.Wait?
  }

  /** What the quiesce has established so far. */
  predicate Progress(s: System) {
    && (s.boot.Wait? ==> forall c: secondary :: c < s.boot.k ==> Down(s.cores[c]))
    && (Reloading(s.boot) ==> AllDown(s))
  }

  // ------------------------------------------------------------------- one action

  lemma OwnStays(core: Core, word: bool, handoff: seq<nat>)
    requires |handoff| == HANDOFF
    ensures Unstarted(core) ==> Unstarted(Own(core, word, handoff))
    ensures Down(core) ==> Down(Own(core, word, handoff))
  {}

  lemma CoreStays(s: System, a: Act, c: secondary)
    requires Can(s, a) && Silent(a)
    ensures Unstarted(s.cores[c]) ==> Unstarted(Do(s, a).cores[c])
    ensures Down(s.cores[c]) ==> Down(Do(s, a).cores[c])
  {
    hide Do, Own;
    DoTouches(s, a, c);
    OwnStays(s.cores[c], s.words[c], s.handoff);
  }

  lemma SilentKeeps(s: System, a: Act)
    requires Can(s, a) && Silent(a)
    ensures NoStart(s) ==> NoStart(Do(s, a))
    ensures AllDown(s) ==> AllDown(Do(s, a))
  {
    hide Do, Unstarted, Down;
    forall c: secondary
      ensures Unstarted(s.cores[c]) ==> Unstarted(Do(s, a).cores[c])
      ensures Down(s.cores[c]) ==> Down(Do(s, a).cores[c])
    {
      CoreStays(s, a, c);
    }
  }

  /** A cleared flag with no start in flight means the core is out. */
  lemma ClearedIsDown(core: Core)
    requires FlagOk(core) && Unstarted(core) && !core.active
    ensures Down(core)
  {}

  lemma FoundDown(s: System, k: nat)
    requires Flags(s) && NoStart(s) && 1 <= k <= 3 && !s.cores[k].active
    ensures Down(s.cores[k])
  {
    hide Down, Unstarted, FlagOk;
    var c: secondary := k;
    assert FlagOk(s.cores[c]) && Unstarted(s.cores[c]);
    ClearedIsDown(s.cores[c]);
  }

  /** The boot core leaves its own states only by its own steps. */
  lemma BootMoves(s: System, a: Act)
    requires Can(s, a)
    ensures Quiescing(s.boot) && a != Step(0) ==> Do(s, a).boot == s.boot
    ensures Reloading(Do(s, a).boot) ==> Reloading(s.boot) || (a == Step(0) && s.boot == Wait(3) && !s.cores[3].active)
    ensures Do(s, a).boot.Wait? ==>
      || (s.boot == Do(s, a).boot)
      || (a == Step(0) && Do(s, a).boot.k == 1)
      || (a == Step(0) && s.boot == Wait(Do(s, a).boot.k - 1) && !s.cores[s.boot.k].active)
  {
    hide Own;
  }

  lemma ProgressStays(s: System, a: Act)
    requires Flags(s) && NoStart(s) && Progress(s) && Can(s, a) && Silent(a)
    ensures Progress(Do(s, a))
  {
    hide Do, Own, Down, Flags, Unstarted, Can;
    var t := Do(s, a);
    BootMoves(s, a);
    SilentKeeps(s, a);
    forall c: secondary ensures Down(s.cores[c]) ==> Down(t.cores[c]) {
      CoreStays(s, a, c);
    }
    if s.boot.Wait? && !s.cores[s.boot.k].active {
      FoundDown(s, s.boot.k);
    }
    if Reloading(t.boot) && !Reloading(s.boot) {
      forall c: secondary ensures Down(t.cores[c]) {
        assert c < 3 || c == 3;
      }
    }
  }

  // ------------------------------------------------------------------- whole runs

  lemma {:induction false} QuietRun(s: System, acts: seq<Act>)
    requires Flags(s) && NoStart(s) && Progress(s) && Runs(s, acts) && AllSilent(acts)
    ensures var t := Exec(s, acts); Flags(t) && NoStart(t) && Progress(t)
    decreases |acts|
  {
    hide Do, Can, Progress, NoStart, Flags;
    if acts != [] {
      assert Silent(acts[0]);
      StepKeepsFlags(s, acts[0]);
      SilentKeeps(s, acts[0]);
      ProgressStays(s, acts[0]);
      QuietRun(Do(s, acts[0]), acts[1..]);
    }
  }

  /** Quiesce safety: with no start in flight and no doorbell meanwhile, once the wait
      loop is over no secondary is inside the payload. */
  lemma QuiesceIsSafe(s: System, acts: seq<Act>)
    requires Flags(s) && NoStart(s) && s.boot == Scan(1) && Runs(s, acts) && AllSilent(acts)
    requires Reloading(Exec(s, acts).boot)
    ensures AllDown(Exec(s, acts))
    ensures forall c: secondary :: !Inside(Exec(s, acts).cores[c])
  {
    hide Exec, Flags, NoStart, Runs;
    QuietRun(s, acts);
    assert forall c: secondary :: Down(Exec(s, acts).cores[c]) ==> !Inside(Exec(s, acts).cores[c]);
  }

  /** And none will be until somebody writes a doorbell. */
  lemma {:induction false} DownUntilDoorbell(s: System, acts: seq<Act>)
    requires AllDown(s) && Runs(s, acts) && AllSilent(acts)
    ensures AllDown(Exec(s, acts))
    decreases |acts|
  {
    hide Do, Can, Down;
    if acts != [] {
      assert Silent(acts[0]);
      SilentKeeps(s, acts[0]);
      DownUntilDoorbell(Do(s, acts[0]), acts[1..]);
    }
  }

  // ------------------------------------------------------- every reload of a session

  /** The contract of a payload: no doorbell while the loader is quiescing or loading,
      and no reload while a start is in flight. */
  predicate Disciplined(s: System, a: Act) {
    && (Quiescing(s.boot) || Reloading(s.boot) ==> Silent(a))
    && (a == Step(0) && (s.boot == BootHvc(0) || (s.boot.BootFiqGot? && s.boot.bits != {})) ==> NoStart(s))
  }

  /** What a secondary has loaded, or was entered with, is what is published. */
  predicate RegsOk(core: Core, handoff: seq<nat>)
    requires |handoff| == HANDOFF
  {
    match core.pc
    case Rebuild(_, got) => |got| <= HANDOFF && got == handoff[..|got|]
    case Payload(ctx) => ctx.regs == handoff
    case Hvc(ctx, _) => ctx.regs == handoff
    case FiqRead(ctx) => ctx.regs == handoff
    case FiqGot(ctx, _) => ctx.regs == handoff
    case _ => true
  }

  predicate Published(s: System) {
    match s.boot
    case Loading => true
    case Publish(i) => s.handoff[..i] == s.args[..i]
    case _ => s.handoff == s.args
  }

  ghost predicate Sound(s: System) {
    && Flags(s)
    && Progress(s)
    && Published(s)
    && (Quiescing(s.boot) || Reloading(s.boot) ==> NoStart(s))
    && forall c: secondary :: RegsOk(s.cores[c], s.handoff)
  }

  lemma OwnKeepsRegs(core: Core, word: bool, handoff: seq<nat>)
    requires |handoff| == HANDOFF && RegsOk(core, handoff)
    ensures RegsOk(Own(core, word, handoff), handoff)
  {
    if core.pc.Rebuild? {
      var got := core.pc.got;
      if |got| < HANDOFF {
        assert got + [handoff[|got|]] == handoff[..|got| + 1];
      } else {
        assert handoff[..|got|] == handoff;
      }
    }
  }

  lemma RegsStay(s: System, a: Act, c: secondary)
    requires Can(s, a) && RegsOk(s.cores[c], s.handoff)
    requires Reloading(s.boot) ==> Down(s.cores[c]) && Silent(a)
    ensures RegsOk(Do(s, a).cores[c], Do(s, a).handoff)
  {
    hide Own;
    if Reloading(s.boot) {
      CoreStays(s, a, c);
    } else {
      hide Do;
      HandoffStays(s, a);
      DoTouches(s, a, c);
      OwnKeepsRegs(s.cores[c], s.words[c], s.handoff);
    }
  }

  lemma HandoffStays(s: System, a: Act)
    requires Can(s, a) && !Reloading(s.boot)
    ensures Do(s, a).handoff == s.handoff && Do(s, a).args == s.args
  {
    hide Own;
  }

  lemma PublishedStays(s: System, a: Act)
    requires Can(s, a) && Published(s)
    ensures Published(Do(s, a))
  {
    hide Own;
    if a == Step(0) && s.boot.Publish? {
      var i := s.boot.i;
      assert s.handoff[i := s.args[i]][..i + 1] == s.args[..i + 1];
    }
  }

  lemma NoStartOnEntry(s: System, a: Act)
    requires Can(s, a) && Disciplined(s, a) && Sound(s)
    ensures Quiescing(Do(s, a).boot) || Reloading(Do(s, a).boot) ==> NoStart(s) && Silent(a)
  {
    hide Own, Flags, NoStart, RegsOk, Progress, Published;
  }

  lemma SoundStep(s: System, a: Act)
    requires Sound(s) && Can(s, a) && Disciplined(s, a)
    ensures Sound(Do(s, a))
  {
    hide Do, Own, Can, Flags, NoStart, RegsOk, Down, Published, Silent;
    var t := Do(s, a);
    StepKeepsFlags(s, a);
    PublishedStays(s, a);
    NoStartOnEntry(s, a);
    if Quiescing(t.boot) || Reloading(t.boot) {
      SilentKeeps(s, a);
      ProgressStays(s, a);
    }
    forall c: secondary ensures RegsOk(t.cores[c], t.handoff) {
      RegsStay(s, a, c);
    }
  }

  ghost predicate DisciplinedRun(s: System, acts: seq<Act>)
    requires Runs(s, acts)
    decreases |acts|
  {
    acts == [] || (Disciplined(s, acts[0]) && DisciplinedRun(Do(s, acts[0]), acts[1..]))
  }

  lemma PowerOnSound()
    ensures Sound(PowerOn())
  {}

  lemma {:induction false} SoundRun(s: System, acts: seq<Act>)
    requires Sound(s) && Runs(s, acts) && DisciplinedRun(s, acts)
    ensures Sound(Exec(s, acts))
    decreases |acts|
  {
    hide Do, Can, Disciplined, Sound;
    if acts != [] {
      SoundStep(s, acts[0]);
      SoundRun(Do(s, acts[0]), acts[1..]);
    }
  }

  /** Across any number of launches and reloads from power-on: no secondary is inside
      the payload while the boot core receives an image or publishes its handoff, and
      every secondary executing the payload was entered with the registers published for
      the image that is running. */
  lemma ReloadsAreSafe(acts: seq<Act>, c: secondary)
    requires Runs(PowerOn(), acts) && DisciplinedRun(PowerOn(), acts)
    ensures var t := Exec(PowerOn(), acts);
      && (Reloading(t.boot) ==> !Inside(t.cores[c]))
      && (t.cores[c].pc.Payload? ==> t.cores[c].active && t.cores[c].pc.ctx.regs == t.handoff == t.args)
  {
    hide Sound, Exec, Runs, DisciplinedRun;
    PowerOnSound();
    SoundRun(PowerOn(), acts);
    SoundMeans(Exec(PowerOn(), acts), c);
  }

  lemma SoundMeans(s: System, c: secondary)
    requires Sound(s)
    ensures Reloading(s.boot) ==> !Inside(s.cores[c])
    ensures s.cores[c].pc.Payload? ==> s.cores[c].active && s.cores[c].pc.ctx.regs == s.handoff == s.args
  {
    assert FlagOk(s.cores[c]) && RegsOk(s.cores[c], s.handoff);
    if Reloading(s.boot) {
      assert Down(s.cores[c]);
    }
  }

  // --------------------------------------------------------------- leftover interrupts

  /** Nobody rings core `c` in this action. */
  predicate Deaf(s: System, a: Act, c: secondary) {
    !(a.Ring? && a.c == c) && !(a == Step(0) && s.boot == RingAt(c))
  }

  ghost predicate DeafRun(s: System, acts: seq<Act>, c: secondary)
    requires Runs(s, acts)
    decreases |acts|
  {
    acts == [] || (Deaf(s, acts[0], c) && DeafRun(Do(s, acts[0]), acts[1..], c))
  }

  /** Out of the payload and not yet past the drain. */
  predicate BeforeDrain(core: Core) {
    var p := core.pc;
    p.Spin? || p.Enter? || p.Park? || p.Consume? || p.MarkActive? || p.DrainRead? || p.HvcClear? || p.HvcPing?
  }

  predicate Drained(core: Core) {
    match core.pc
    case DrainClear(_, bits) => core.pending <= bits
    case Rebuild(_, _) => core.pending == {}
    case Payload(_) => core.pending == {}
    case Hvc(_, _) => core.pending == {}
    case FiqRead(_) => core.pending == {}
    case FiqGot(_, bits) => core.pending == {} && bits == {}
    case FiqClean => false
    case _ => true
  }

  lemma OwnKeepsDrained(core: Core, word: bool, handoff: seq<nat>)
    requires |handoff| == HANDOFF && Drained(core)
    ensures Drained(Own(core, word, handoff))
  {}

  lemma DrainedStays(s: System, a: Act, c: secondary)
    requires Can(s, a) && Deaf(s, a, c) && Drained(s.cores[c])
    ensures Drained(Do(s, a).cores[c])
  {
    hide Do, Own;
    DoTouches(s, a, c);
    OwnKeepsDrained(s.cores[c], s.words[c], s.handoff);
  }

  lemma {:induction false} DrainedRun(s: System, acts: seq<Act>, c: secondary)
    requires Drained(s.cores[c]) && Runs(s, acts) && DeafRun(s, acts, c)
    ensures Drained(Exec(s, acts).cores[c])
    decreases |acts|
  {
    hide Do, Can, Deaf, Drained;
    if acts != [] {
      DrainedStays(s, acts[0], c);
      DrainedRun(Do(s, acts[0]), acts[1..], c);
    }
  }

  /** An interrupt left over from a re-park never reaches the next launch: whatever is
      pending on a core that is out, if it enters the payload again without being rung
      it has nothing pending there and is not trapped back. */
  lemma LeftoverIsDrained(s: System, acts: seq<Act>, c: secondary)
    requires BeforeDrain(s.cores[c]) && Runs(s, acts) && DeafRun(s, acts, c)
    ensures var core := Exec(s, acts).cores[c]; Inside(core) ==> core.pending == {}
    ensures !Exec(s, acts).cores[c].pc.FiqClean?
  {
    hide Exec, Runs, DeafRun;
    DrainedRun(s, acts, c);
  }
}
