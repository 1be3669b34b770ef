/** What becomes of a request: a doorbell starts its core at most once, and a reload asked
    for by a secondary is not lost, and is served. */
module Requests {
  import opened Smp
  import opened Quiesce
  import opened QuiesceProgress

  // -------------------------------------------------------------------- doorbells

  /** Starts a core still owes: one for a written slot, one for a slot just consumed. */
  function Owed(core: Core): nat {
    match core.pc
    case Consume(_) => 1
    case MarkActive(_) => 1 + if core.slot != 0 then 1 else 0
    case _ => if core.slot != 0 then 1 else 0
  }

  /** Core `c` is marked active for the payload in this step. */
  predicate Starts(s: System, a: Act, c: secondary) { a == Step(c) && s.cores[c].pc.MarkActive? }

  predicate Rings(a: Act, c: secondary) { a.Doorbell? && a.c == c && a.entry != 0 }

  lemma OwnPays(core: Core, word: bool, handoff: seq<nat>)
    requires |handoff| == HANDOFF
    ensures Owed(Own(core, word, handoff)) + (if core.pc.MarkActive? then 1 else 0) <= Owed(core)
  {}

  lemma StepPays(s: System, a: Act, c: secondary)
    requires Can(s, a)
    ensures (if Starts(s, a, c) then 1 else 0) + Owed(Do(s, a).cores[c])
         <= Owed(s.cores[c]) + (if Rings(a, c) then 1 else 0)
  {
    hide Do, Own;
    DoTouches(s, a, c);
    OwnPays(s.cores[c], s.words[c], s.handoff);
    if a == Step(c) {
      StepIsOwn(s, c);
    }
  }

  lemma StepIsOwn(s: System, c: secondary)
    ensures Do(s, Step(c)).cores[c] == Own(s.cores[c], s.words[c], s.handoff)
  {
    hide Own;
  }

  ghost function StartsIn(s: System, acts: seq<Act>, c: secondary): nat
    requires Runs(s, acts)
    decreases |acts|
  {
    if acts == [] then 0
    else (if Starts(s, acts[0], c) then 1 else 0) + StartsIn(Do(s, acts[0]), acts[1..], c)
  }

  function RingsIn(acts: seq<Act>, c: secondary): nat
    decreases |acts|
  {
    if acts == [] then 0 else (if Rings(acts[0], c) then 1 else 0) + RingsIn(acts[1..], c)
  }

  /** Over every run, a core starts at most as often as its doorbell was rung, not counting
      what it owed before and what it still owes: a consumed slot never starts it again. */
  lemma {:induction false} DoorbellsPayForStarts(s: System, acts: seq<Act>, c: secondary)
    requires Runs(s, acts)
    ensures StartsIn(s, acts, c) + Owed(Exec(s, acts).cores[c]) <= Owed(s.cores[c]) + RingsIn(acts, c)
    decreases |acts|
  {
    hide Do, Can, Owed, Starts, Rings;
    if acts != [] {
      StepPays(s, acts[0], c);
      DoorbellsPayForStarts(Do(s, acts[0]), acts[1..], c);
    }
  }

  /** The entry a core is bound for, or was entered at, is one of `entries`, and so is
      what its slot holds. */
  ghost predicate EntersAt(core: Core, entries: set<nat>) {
    && (core.slot == 0 || core.slot in entries)
    && match core.pc
       case Consume(e) => e in entries
       case MarkActive(e) => e in entries
       case DrainRead(e) => e in entries
       case DrainClear(e, _) => e in entries
       case Rebuild(e, _) => e in entries
       case Payload(ctx) => ctx.entry in entries
       case Hvc(ctx, _) => ctx.entry in entries
       case FiqRead(ctx) => ctx.entry in entries
       case FiqGot(ctx, _) => ctx.entry in entries
       case _ => true
  }

  lemma OwnKeepsEntry(core: Core, word: bool, handoff: seq<nat>, entries: set<nat>)
    requires |handoff| == HANDOFF && EntersAt(core, entries)
    ensures EntersAt(Own(core, word, handoff), entries)
  {}

  /** A secondary only ever enters the payload at an address rung on its own slot. */
  lemma {:induction false} EntersWhereRung(s: System, acts: seq<Act>, c: secondary, entries: set<nat>)
    requires Runs(s, acts) && EntersAt(s.cores[c], entries)
    requires forall i :: 0 <= i < |acts| && Rings(acts[i], c) ==> acts[i].entry in entries
    ensures EntersAt(Exec(s, acts).cores[c], entries)
    decreases |acts|
  {
    hide Do, Can, Own;
    if acts != [] {
      DoTouches(s, acts[0], c);
      OwnKeepsEntry(s.cores[c], s.words[c], s.handoff, entries);
      assert Rings(acts[0], c) ==> acts[0].entry in entries;
      EntersWhereRung(Do(s, acts[0]), acts[1..], c, entries);
    }
  }

  // ---------------------------------------------------------------- reload requests

  /** A secondary has executed HVC #0 and has not rung core 0 yet. */
  predicate Asking(core: Core) {
    (core.pc.Hvc? && core.pc.imm == 0) || core.pc.HvcClear? || core.pc.HvcPing?
  }

  /** The request of core `c` is on its way or at core 0. */
  predicate Pending(s: System, c: secondary) {
    Asking(s.cores[c]) || 0 in s.cores[0].pending
  }

  /** Core 0's bits are cleared by its own FIQ handler alone, on its way into a reload. */
  lemma BitStays(s: System, a: Act)
    requires Can(s, a) && 0 in s.cores[0].pending
    ensures 0 in Do(s, a).cores[0].pending || Do(s, a).boot == Scan(1)
  {
    hide Own;
  }

  lemma AskingGoesOn(s: System, a: Act, c: secondary)
    requires Can(s, a) && Asking(s.cores[c])
    ensures Pending(Do(s, a), c)
  {
    if a == Step(c) {
      hide Own;
      AskingSteps(s.cores[c], s.words[c], s.handoff);
    } else {
      hide Do, Own;
      DoTouches(s, a, c);
    }
  }

  lemma AskingSteps(core: Core, word: bool, handoff: seq<nat>)
    requires |handoff| == HANDOFF && Asking(core)
    ensures core.pc.HvcPing? || Asking(Own(core, word, handoff))
  {}

  /** The boot core begins a quiesce somewhere after the start of the run. */
  ghost predicate Reloads(s: System, acts: seq<Act>)
    requires Runs(s, acts)
    decreases |acts|
  {
    acts != [] && (Do(s, acts[0]).boot == Scan(1) || Reloads(Do(s, acts[0]), acts[1..]))
  }

  /** A secondary's HVC #0 is not lost: over every run from it, either the request is still
      on its way or pending at core 0, or core 0 has begun a reload. */
  lemma {:induction false} RequestStands(s: System, acts: seq<Act>, c: secondary)
    requires Pending(s, c) && Runs(s, acts)
    ensures Pending(Exec(s, acts), c) || Reloads(s, acts)
    decreases |acts|
  {
    hide Do, Can, Asking;
    if acts != [] {
      if Asking(s.cores[c]) {
        AskingGoesOn(s, acts[0], c);
      } else {
        BitStays(s, acts[0]);
      }
      if Do(s, acts[0]).boot != Scan(1) {
        RequestStands(Do(s, acts[0]), acts[1..], c);
      }
    }
  }

  // ------------------------------------------------------------------ being served

  /** Core 0 runs the payload, or is trapped out of it and may return. */
  predicate AtPayload(p: BootPc) {
    p.Running? || p.BootHvc? || p.BootFiqRead? || p.BootFiqGot?
  }

  /** Core 0 takes a pending FIQ before its payload's next instruction. */
  predicate BootPrompt(s: System, a: Act) {
    Actor(a) == 0 && s.boot.Running? && s.cores[0].pending != {} ==> a == TakeFiq(0)
  }

  function AskRank(core: Core): nat {
    if core.pc.Hvc? then 3 else if core.pc.HvcClear? then 2 else 1
  }

  function BootRank(p: BootPc): nat {
    match p
    case Running => 3
    case BootFiqRead => 2
    case BootFiqGot(bits) => if bits == {} then 4 else 1
    case _ => 4
  }

  /** Steps to the reload at most, once they are taken by the core they wait for. */
  function StepsLeft(s: System, c: secondary): nat {
    if 0 in s.cores[0].pending then BootRank(s.boot) else 4 + AskRank(s.cores[c])
  }

  function WaitsFor(s: System, c: secondary): cpu {
    if 0 in s.cores[0].pending then 0 else c
  }

  ghost predicate Served(s: System, c: secondary, left: int) {
    Pending(s, c) && AtPayload(s.boot) && StepsLeft(s, c) <= left
  }

  lemma PendingStep(s: System, c: secondary, a: Act)
    requires 0 in s.cores[0].pending && AtPayload(s.boot) && Can(s, a) && BootPrompt(s, a)
    ensures var t := Do(s, a);
      || t.boot == Scan(1)
      || (&& 0 in t.cores[0].pending && AtPayload(t.boot) && BootRank(t.boot) <= BootRank(s.boot)
          && (Actor(a) == 0 ==> BootRank(t.boot) < BootRank(s.boot)))
  {
    hide Own;
    BitStays(s, a);
  }

  lemma BootStays(s: System, a: Act)
    requires Can(s, a) && AtPayload(s.boot)
    ensures AtPayload(Do(s, a).boot) || Do(s, a).boot == Scan(1)
  {
    hide Own;
  }

  lemma AskingFalls(s: System, c: secondary, a: Act)
    requires Asking(s.cores[c]) && Can(s, a)
    ensures var t := Do(s, a);
      || 0 in t.cores[0].pending
      || (&& Asking(t.cores[c]) && AskRank(t.cores[c]) <= AskRank(s.cores[c])
          && (Actor(a) == c ==> AskRank(t.cores[c]) < AskRank(s.cores[c])))
  {
    if a == Step(c) {
      hide Own;
      AskingSteps(s.cores[c], s.words[c], s.handoff);
      AskingRanks(s.cores[c], s.words[c], s.handoff);
    } else {
      hide Do, Own;
      DoTouches(s, a, c);
      AskingActs(s, c, a);
    }
  }

  lemma AskingRanks(core: Core, word: bool, handoff: seq<nat>)
    requires |handoff| == HANDOFF && Asking(core)
    ensures core.pc.HvcPing? || AskRank(Own(core, word, handoff)) < AskRank(core)
  {}

  /** A core on its way to ask does nothing else. */
  lemma AskingActs(s: System, c: secondary, a: Act)
    requires Asking(s.cores[c]) && Can(s, a)
    ensures Actor(a) == c ==> a == Step(c)
  {}

  lemma ServedStep(s: System, c: secondary, a: Act)
    requires Pending(s, c) && AtPayload(s.boot) && Can(s, a) && BootPrompt(s, a)
    ensures var t := Do(s, a);
      || t.boot == Scan(1)
      || Served(t, c, StepsLeft(s, c) - 1)
      || (Served(t, c, StepsLeft(s, c)) && Actor(a) != WaitsFor(s, c) && WaitsFor(t, c) == WaitsFor(s, c))
  {
    hide Do, Can, BootPrompt, Asking, AtPayload, AskRank;
    BootStays(s, a);
    RankBound4(Do(s, a).boot);
    RankBound1(s.cores[c]);
    if 0 in s.cores[0].pending {
      PendingStep(s, c, a);
    } else {
      AskingFalls(s, c, a);
    }
  }

  lemma RankBound4(p: BootPc)
    ensures 1 <= BootRank(p) <= 4
  {}

  lemma RankBound1(core: Core)
    ensures 1 <= AskRank(core) <= 3
  {}

  ghost predicate BootPromptRun(s: System, acts: seq<Act>)
    requires Runs(s, acts)
    decreases |acts|
  {
    acts == [] || (BootPrompt(s, acts[0]) && BootPromptRun(Do(s, acts[0]), acts[1..]))
  }

  ghost predicate PromptlyRun(s: System, acts: seq<Act>) {
    Runs(s, acts) && BootPromptRun(s, acts)
  }

  lemma {:induction false} StretchServes(s: System, c: secondary, acts: seq<Act>)
    requires Pending(s, c) && AtPayload(s.boot) && PromptlyRun(s, acts)
    ensures Reloads(s, acts) || Served(Exec(s, acts), c, StepsLeft(s, c))
    ensures ActsIn(acts, WaitsFor(s, c)) ==> Reloads(s, acts) || Served(Exec(s, acts), c, StepsLeft(s, c) - 1)
    decreases |acts|
  {
    hide Do, Can, BootPrompt, Pending, AtPayload, StepsLeft, WaitsFor;
    if acts != [] {
      var a := acts[0];
      ServedStep(s, c, a);
      var t := Do(s, a);
      if t.boot != Scan(1) {
        StretchServes(t, c, acts[1..]);
        if ActsIn(acts, WaitsFor(s, c)) {
          var i :| 0 <= i < |acts| && Actor(acts[i]) == WaitsFor(s, c);
          assert i > 0 ==> acts[1..][i - 1] == acts[i];
        }
      }
    }
  }

  lemma {:induction false} SplitRun(s: System, p: seq<Act>, q: seq<Act>)
    requires PromptlyRun(s, p + q)
    ensures PromptlyRun(s, p) && PromptlyRun(Exec(s, p), q)
    ensures Reloads(s, p) || Reloads(Exec(s, p), q) ==> Reloads(s, p + q)
    decreases |p|
  {
    hide Do, Can, BootPrompt;
    if p == [] {
      assert p + q == q;
    } else {
      assert (p + q)[1..] == p[1..] + q;
      SplitRun(Do(s, p[0]), p[1..], q);
    }
  }

  lemma {:induction false} RoundsServe(s: System, c: secondary, rounds: seq<seq<Act>>)
    requires Pending(s, c) && AtPayload(s.boot)
    requires PromptlyRun(s, Joined(rounds)) && forall i :: 0 <= i < |rounds| ==> Covers(rounds[i])
    requires |rounds| >= StepsLeft(s, c)
    ensures Reloads(s, Joined(rounds))
    decreases |rounds|
  {
    hide Do, Can, Pending, AtPayload, StepsLeft, WaitsFor, Runs, Exec, Reloads, BootPromptRun;
    StepsBound(s, c);
    var p, rest := rounds[0], rounds[1..];
    SplitRun(s, p, Joined(rest));
    assert Covers(p) && ActsIn(p, WaitsFor(s, c));
    StretchServes(s, c, p);
    if !Reloads(s, p) {
      RoundsServe(Exec(s, p), c, rest);
    }
  }

  lemma StepsBound(s: System, c: secondary)
    ensures 1 <= StepsLeft(s, c) <= 7
  {}

  /** A request is served: with core 0 in the payload and a secondary that has executed
      HVC #0, any seven rounds in each of which every core acts, and in which core 0 takes
      interrupts promptly, begin the reload. */
  lemma RequestIsServed(s: System, c: secondary, rounds: seq<seq<Act>>)
    requires Pending(s, c) && AtPayload(s.boot)
    requires PromptlyRun(s, Joined(rounds)) && forall i :: 0 <= i < |rounds| ==> Covers(rounds[i])
    requires |rounds| >= 7
    ensures Reloads(s, Joined(rounds))
  {
    hide Pending, AtPayload, StepsLeft, PromptlyRun, Reloads, Covers;
    StepsBound(s, c);
    RoundsServe(s, c, rounds);
  }
}
