/** Nothing happens to a core without a cause: what takes a secondary out of the payload,
    what rings a mailbox, what begins a reload; and what a doorbell, a trap and a launch
    lead to, step for step. */
module Causes {
  import opened Smp
  import opened Quiesce
  import opened Requests
  import opened SmpCode
  import Trips

  // --------------------------------------------------------- leaving the payload

  /** In the payload with this context, or trapped and bound to return to it. */
  predicate Staying(core: Core, ctx: Context) {
    match core.pc
    case Payload(x) => x == ctx
    case Hvc(x, imm) => x == ctx && imm != 0
    case FiqRead(x) => x == ctx
    case FiqGot(x, bits) => x == ctx && bits == {}
    case _ => false
  }

  /** Core `c` asks for a reload, or finds an interrupt pending in its mailbox. */
  predicate Summons(s: System, a: Act, c: secondary) {
    a == CallHvc(c, 0) || (a == Step(c) && s.cores[c].pc.FiqRead? && s.cores[c].pending != {})
  }

  ghost predicate Summoned(s: System, acts: seq<Act>, c: secondary)
    requires Runs(s, acts)
    decreases |acts|
  {
    acts != [] && (Summons(s, acts[0], c) || Summoned(Do(s, acts[0]), acts[1..], c))
  }

  lemma OwnStaysIn(core: Core, word: bool, handoff: seq<nat>, ctx: Context)
    requires |handoff| == HANDOFF && Staying(core, ctx) && (core.pc.FiqRead? ==> core.pending == {})
    ensures Staying(Own(core, word, handoff), ctx)
  {}

  lemma StaysIn(s: System, a: Act, c: secondary, ctx: Context)
    requires Can(s, a) && Staying(s.cores[c], ctx) && !Summons(s, a, c)
    ensures Staying(Do(s, a).cores[c], ctx)
  {
    hide Do, Own;
    DoTouches(s, a, c);
    if a == Step(c) {
      StepIsOwn(s, c);
      OwnStaysIn(s.cores[c], s.words[c], s.handoff, ctx);
    }
  }

  /** A secondary in the payload stays in it, with its context, over every run in which it
      neither executes HVC #0 nor takes an FIQ with a bit pending in its mailbox. */
  lemma {:induction false} LeavesOnlySummoned(s: System, acts: seq<Act>, c: secondary, ctx: Context)
    requires Runs(s, acts) && Staying(s.cores[c], ctx)
    ensures Summoned(s, acts, c) || Staying(Exec(s, acts).cores[c], ctx)
    decreases |acts|
  {
    hide Do, Can, Staying, Summons;
    if acts != [] && !Summons(s, acts[0], c) {
      StaysIn(s, acts[0], c, ctx);
      LeavesOnlySummoned(Do(s, acts[0]), acts[1..], c, ctx);
    }
  }

  // -------------------------------------------------------------------- mailboxes

  /** Who can set a bit: the payload by ringing; a secondary on its HVC #0 path, core 0's
      bit 0; the boot core's quiesce, bit 0 of the core it has just found active. */
  predicate SetsBit(s: System, a: Act, c: cpu, bit: nat) {
    || (a.Ring? && a.c == c && a.bit == bit)
    || (c == 0 && bit == 0 && a.Step? && a.c != 0 && s.cores[a.c].pc.HvcPing?)
    || (c != 0 && bit == 0 && a == Step(0) && s.boot == RingAt(c))
  }

  lemma BitHasCause(s: System, a: Act, c: cpu, bit: nat)
    requires Can(s, a) && bit in Do(s, a).cores[c].pending && bit !in s.cores[c].pending
    ensures SetsBit(s, a, c, bit)
  {
    if c == 0 {
      hide Own;
    } else {
      hide Do, Own;
      DoTouches(s, a, c);
      if a == Step(c) { OwnAddsNothing(s.cores[c], s.words[c], s.handoff); }
    }
  }

  lemma OwnAddsNothing(core: Core, word: bool, handoff: seq<nat>)
    requires |handoff| == HANDOFF
    ensures Own(core, word, handoff).pending <= core.pending
  {}

  /** The quiesce rings a core only after it has read its flag as set. */
  lemma RingsOnlyActive(s: System, a: Act, k: nat)
    requires Can(s, a) && Do(s, a).boot == RingAt(k)
    ensures s.boot == RingAt(k) || (a == Step(0) && s.boot == Scan(k) && s.cores[k].active)
  {
    hide Own;
  }

  predicate NoneAsks(s: System) {
    forall c: secondary :: !Asking(s.cores[c])
  }

  /** Nobody executes HVC #0 or rings core 0. */
  predicate Undemanding(a: Act) {
    !(a.CallHvc? && a.imm == 0) && !(a.Ring? && a.c == 0)
  }

  predicate BootIdle(p: BootPc) {
    p == Running || (p.BootHvc? && p.imm != 0) || p.BootFiqRead? || (p.BootFiqGot? && p.bits == {})
  }

  ghost predicate Content(s: System) {
    NoneAsks(s) && s.cores[0].pending == {} && BootIdle(s.boot)
  }

  lemma OwnAsks(core: Core, word: bool, handoff: seq<nat>)
    requires |handoff| == HANDOFF && !Asking(core)
    ensures !Asking(Own(core, word, handoff))
  {}

  lemma StaysContent(s: System, a: Act)
    requires Can(s, a) && Content(s) && Undemanding(a)
    ensures Content(Do(s, a))
  {
    var t := Do(s, a);
    forall c: secondary ensures !Asking(t.cores[c]) {
      hide Do, Own;
      DoTouches(s, a, c);
      assert !Asking(s.cores[c]);
      if a == Step(c) { OwnAsks(s.cores[c], s.words[c], s.handoff); }
    }
    if t.cores[0].pending != {} {
      var bit :| bit in t.cores[0].pending;
      BitHasCause(s, a, 0, bit);
    }
    BootStaysIdle(s, a);
  }

  lemma BootStaysIdle(s: System, a: Act)
    requires Can(s, a) && BootIdle(s.boot) && s.cores[0].pending == {} && Undemanding(a)
    ensures BootIdle(Do(s, a).boot)
  {
    hide Own;
  }

  /** No reload without a request: with the boot core in the payload, nothing pending for
      it and nobody asking, every run without HVC #0 and without a ring of core 0's mailbox
      leaves it there. */
  lemma {:induction false} ReloadHasCause(s: System, acts: seq<Act>)
    requires Runs(s, acts) && Content(s) && forall i :: 0 <= i < |acts| ==> Undemanding(acts[i])
    ensures Content(Exec(s, acts)) && !Quiescing(Exec(s, acts).boot) && !Reloading(Exec(s, acts).boot)
    decreases |acts|
  {
    hide Do, Can, NoneAsks, Undemanding;
    if acts != [] {
      StaysContent(s, acts[0]);
      ReloadHasCause(Do(s, acts[0]), acts[1..]);
    }
  }

  // ----------------------------------------------------------- what a doorbell does

  /** Own steps of core `c`. */
  function StepsOf(acts: seq<Act>, c: cpu): nat
    decreases |acts|
  {
    if acts == [] then 0 else (if Actor(acts[0]) == c then 1 else 0) + StepsOf(acts[1..], c)
  }

  /** A core that has taken `k` own steps since it was parked with `e` in its slot. */
  predicate Started(core: Core, e: nat, handoff: seq<nat>, k: nat)
    requires |handoff| == HANDOFF
  {
    if k == 0 then core.pc == Park && core.slot == e
    else if k == 1 then core.pc == Consume(e)
    else if k == 2 then core.pc == MarkActive(e)
    else if k == 3 then core.pc == DrainRead(e)
    else if k == 4 then core.pc.DrainClear? && core.pc.entry == e
    else if k < 15 then core.pc == Rebuild(e, handoff[..k - 5])
    else core.pc == Payload(Context(e, handoff))
  }

  /** What is published stays, and the slot is left alone until the core has read it. */
  ghost predicate Undisturbed(s: System, acts: seq<Act>, c: secondary, k: nat)
    requires Runs(s, acts)
    decreases |acts|
  {
    acts != [] ==>
      var t := Do(s, acts[0]);
      && t.handoff == s.handoff
      && (k == 0 && Actor(acts[0]) != c ==> t.cores[c].slot == s.cores[c].slot)
      && Undisturbed(t, acts[1..], c, if Actor(acts[0]) == c then k + 1 else k)
  }

  lemma OwnStarts(core: Core, word: bool, e: nat, handoff: seq<nat>, k: nat)
    requires |handoff| == HANDOFF && e != 0 && k < 15 && Started(core, e, handoff, k)
    ensures Started(Own(core, word, handoff), e, handoff, k + 1)
  {
    if 5 <= k < 14 {
      assert handoff[..k - 5] + [handoff[k - 5]] == handoff[..k - 4];
    } else if k == 14 {
      assert handoff[..9] == handoff;
    }
  }

  lemma StartGoesOn(s: System, a: Act, c: secondary, e: nat, k: nat)
    requires Can(s, a) && e != 0 && k <= 15 && Started(s.cores[c], e, s.handoff, k) && (Actor(a) == c ==> k < 15)
    requires Do(s, a).handoff == s.handoff
    requires k == 0 && Actor(a) != c ==> Do(s, a).cores[c].slot == s.cores[c].slot
    ensures Started(Do(s, a).cores[c], e, s.handoff, if Actor(a) == c then k + 1 else k)
  {
    hide Do, Own;
    DoTouches(s, a, c);
    if Actor(a) == c {
      NotYetIn(s, a, c);
      StepIsOwn(s, c);
      OwnStarts(s.cores[c], s.words[c], e, s.handoff, k);
    }
  }

  /** Outside the payload a core does nothing but step. */
  lemma NotYetIn(s: System, a: Act, c: secondary)
    requires Can(s, a) && Actor(a) == c && !s.cores[c].pc.Payload?
    ensures a == Step(c)
  {}

  /** A parked secondary with an address in its slot is in the payload, at that address and
      with the registers published, by its own fifteenth step, and at each step before
      that stands where the trampoline has it, whatever the other cores do. */
  lemma {:induction false} DoorbellStarts(s: System, acts: seq<Act>, c: secondary, e: nat, k: nat)
    requires Runs(s, acts) && e != 0 && Started(s.cores[c], e, s.handoff, k) && Undisturbed(s, acts, c, k)
    requires k + StepsOf(acts, c) <= 15
    ensures Exec(s, acts).handoff == s.handoff
    ensures Started(Exec(s, acts).cores[c], e, s.handoff, k + StepsOf(acts, c))
    decreases |acts|
  {
    hide Do, Can, Started;
    if acts != [] {
      StartGoesOn(s, acts[0], c, e, k);
      DoorbellStarts(Do(s, acts[0]), acts[1..], c, e, if Actor(acts[0]) == c then k + 1 else k);
    }
  }

  // ------------------------------------------------------------ the way to the park

  /** Own steps from here to the park loop, for a core that has no other way to go. */
  function ToPark(pc: Pc): nat {
    match pc
    case Hvc(_, _) => 4
    case HvcClear => 3
    case HvcPing => 2
    case FiqGot(_, _) => 3
    case FiqClean => 2
    case Spin => 2
    case Enter => 1
    case _ => 0
  }

  predicate Bound(core: Core, word: bool) {
    || (core.pc.Hvc? && core.pc.imm == 0) || core.pc.HvcClear? || core.pc.HvcPing?
    || (core.pc.FiqGot? && core.pc.bits != {}) || core.pc.FiqClean?
    || (core.pc.Spin? && word) || core.pc.Enter? || (core.pc.Park? && !core.active)
  }

  lemma OwnToPark(core: Core, word: bool, handoff: seq<nat>)
    requires |handoff| == HANDOFF && Bound(core, word) && ToPark(core.pc) > 0
    ensures var now := Own(core, word, handoff); Bound(now, word) && ToPark(now.pc) == ToPark(core.pc) - 1
  {}

  lemma WordsStay(s: System, a: Act, c: secondary)
    requires Can(s, a)
    ensures s.words[c] ==> Do(s, a).words[c]
  {
    hide Own;
  }

  lemma BoundGoesOn(s: System, a: Act, c: secondary)
    requires Can(s, a) && Bound(s.cores[c], s.words[c]) && (Actor(a) == c ==> ToPark(s.cores[c].pc) > 0)
    ensures Bound(Do(s, a).cores[c], Do(s, a).words[c])
    ensures ToPark(Do(s, a).cores[c].pc) == ToPark(s.cores[c].pc) - if Actor(a) == c then 1 else 0
  {
    hide Do, Own;
    WordsStay(s, a, c);
    DoTouches(s, a, c);
    if Actor(a) == c {
      NotYetIn(s, a, c);
      StepIsOwn(s, c);
      OwnToPark(s.cores[c], s.words[c], s.handoff);
    }
  }

  /** After HVC #0, after an interrupt that found a bit pending, and after its spin-table
      word has been written, a secondary is in the park loop with its flag clear by its own
      fourth, third and second step, whatever the other cores do. */
  lemma {:induction false} GoesToPark(s: System, acts: seq<Act>, c: secondary)
    requires Runs(s, acts) && Bound(s.cores[c], s.words[c]) && StepsOf(acts, c) == ToPark(s.cores[c].pc)
    ensures Exec(s, acts).cores[c].pc == Park && !Exec(s, acts).cores[c].active
    decreases |acts|
  {
    hide Do, Can, Bound, ToPark;
    if acts == [] {
      AtPark(s.cores[c], s.words[c]);
    } else {
      BoundGoesOn(s, acts[0], c);
      GoesToPark(Do(s, acts[0]), acts[1..], c);
    }
  }

  lemma AtPark(core: Core, word: bool)
    requires Bound(core, word) && ToPark(core.pc) == 0
    ensures core.pc == Park && !core.active
  {}

  /** The interrupt that is served is the one that was read: its bits are cleared, and no
      others. */
  lemma ServedIsCleared(s: System, c: secondary)
    ensures s.cores[c].pc.FiqGot? && s.cores[c].pc.bits != {} ==>
      var t := Do(s, Step(c));
      t.cores[c].pc.FiqClean? && t.cores[c].pending == s.cores[c].pending - s.cores[c].pc.bits
    ensures s.cores[c].pc.DrainClear? ==>
      Do(s, Step(c)).cores[c].pending == s.cores[c].pending - s.cores[c].pc.bits
    ensures s.cores[c].pc.FiqRead? || s.cores[c].pc.DrainRead? ==>
      Do(s, Step(c)).cores[c].pending == s.cores[c].pending == Do(s, Step(c)).cores[c].pc.bits
  {}

  // ---------------------------------------------------------------------- a launch

  /** What the boot core has prepared so far for the image it is about to enter. */
  predicate Prepared(s: System, args: seq<nat>) {
    && s.args == args
    && match s.boot
       case Publish(i) => i <= |args| && s.handoff[..i] == args[..i]
       case ZeroSlot(k) => s.handoff == args && forall c: secondary :: c < k ==> s.cores[c].slot == 0
       case Word(k) => s.handoff == args && SlotsClear(s) && forall c: secondary :: c < k ==> s.words[c]
       case Running => s.handoff == args && SlotsClear(s) && forall c: secondary :: s.words[c]
       case _ => false
  }

  predicate SlotsClear(s: System) {
    forall c: secondary :: s.cores[c].slot == 0
  }

  lemma SlotStays(s: System, a: Act, c: secondary)
    requires Can(s, a) && Silent(a) && s.cores[c].slot == 0
    ensures Do(s, a).cores[c].slot == 0
  {
    hide Do, Own;
    DoTouches(s, a, c);
    OwnKeepsEmpty(s.cores[c], s.words[c], s.handoff);
  }

  lemma OwnKeepsEmpty(core: Core, word: bool, handoff: seq<nat>)
    requires |handoff| == HANDOFF && core.slot == 0
    ensures Own(core, word, handoff).slot == 0
  {}

  lemma OthersPrepare(s: System, a: Act, args: seq<nat>)
    requires Can(s, a) && Silent(a) && Prepared(s, args) && a != Step(0) && s.boot != Running
    ensures Prepared(Do(s, a), args)
  {
    hide Own;
    OthersLeave(s, a);
    forall c: secondary ensures s.cores[c].slot == 0 ==> Do(s, a).cores[c].slot == 0 {
      if s.cores[c].slot == 0 { SlotStays(s, a, c); }
    }
  }

  lemma BootPrepares(s: System, args: seq<nat>)
    requires Prepared(s, args) && s.boot != Running
    ensures Prepared(BootStep(s), args)
  {
    match s.boot
    case Publish(i) =>
      assert s.handoff[i := args[i]][..i + 1] == args[..i + 1];
      if i + 1 == HANDOFF {
        assert s.handoff[i := args[i]] == s.handoff[i := args[i]][..HANDOFF] && args == args[..HANDOFF];
      }
    case ZeroSlot(k) =>
      forall c: secondary | c < k + 1 ensures BootStep(s).cores[c].slot == 0 {}
    case Word(k) =>
    case _ =>
  }

  /** The boot core has not entered the payload before the last state. */
  ghost predicate NotYetRunning(s: System, acts: seq<Act>)
    requires Runs(s, acts)
    decreases |acts|
  {
    acts != [] ==> s.boot != Running && NotYetRunning(Do(s, acts[0]), acts[1..])
  }

  lemma {:induction false} StaysPrepared(s: System, acts: seq<Act>, args: seq<nat>)
    requires Runs(s, acts) && AllSilent(acts) && Prepared(s, args) && NotYetRunning(s, acts)
    ensures Prepared(Exec(s, acts), args)
    decreases |acts|
  {
    hide Do, Can, Prepared, Silent;
    if acts != [] {
      assert Silent(acts[0]);
      if acts[0] == Step(0) {
        BootPrepares(s, args);
        StepIsBoot(s);
      } else {
        OthersPrepare(s, acts[0], args);
      }
      StaysPrepared(Do(s, acts[0]), acts[1..], args);
    }
  }

  lemma StepIsBoot(s: System)
    ensures Do(s, Step(0)) == BootStep(s)
  {}

  /** A launch leaves what the next image is promised: over every run from it that rings no
      secondary's doorbell, when the boot core enters the payload the handoff is the
      launch's, every secondary's slot is empty and every spin-table word is written. */
  lemma LaunchPrepares(s: System, args: seq<nat>, acts: seq<Act>)
    requires s.boot == Loading && |args| == HANDOFF && AllSilent(acts)
    requires Runs(Do(s, Launch(args)), acts) && NotYetRunning(Do(s, Launch(args)), acts)
    requires Exec(Do(s, Launch(args)), acts).boot == Running
    ensures var t := Exec(Do(s, Launch(args)), acts);
      t.handoff == args && forall c: secondary :: t.cores[c].slot == 0 && t.words[c]
  {
    hide Exec, Runs, NotYetRunning;
    var u := Do(s, Launch(args));
    assert Prepared(u, args);
    StaysPrepared(u, acts, args);
    assert SlotsClear(Exec(u, acts));
  }

  // ---------------------------------------------------------------- after the flush

  /** The flush done, the boot core receives the next image at its next step, and nothing
      else has changed by it. */
  lemma FlushLoads(s: System, q: seq<Act>)
    requires s.boot == Flush && Trips.Without(q, 0) && Runs(s, q + [Step(0)])
    ensures Runs(s, q) && Exec(s, q).boot == Flush
    ensures Exec(s, q + [Step(0)]) == Exec(s, q).(boot := Loading)
  {
    hide Do, Can, Runs, Exec;
    Trips.RunJoin(s, q, [Step(0)]);
    Trips.BootIgnoredRun(s, q, Flush);
    Trips.RunOne(Exec(s, q), Step(0));
    StepIsBoot(Exec(s, q));
  }

  /** It goes on receiving until it launches what it has received. */
  lemma {:induction false} LoadsUntilLaunch(s: System, acts: seq<Act>)
    requires s.boot == Loading && Runs(s, acts) && forall i :: 0 <= i < |acts| ==> !acts[i].Launch?
    ensures Exec(s, acts).boot == Loading
    decreases |acts|
  {
    hide Do, Can;
    if acts != [] {
      StillLoading(s, acts[0]);
      LoadsUntilLaunch(Do(s, acts[0]), acts[1..]);
    }
  }

  lemma StillLoading(s: System, a: Act)
    requires Can(s, a) && s.boot == Loading && !a.Launch?
    ensures Do(s, a).boot == Loading
  {
    hide Own;
  }
}
