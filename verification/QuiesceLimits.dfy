/** How far the quiesce can be trusted: the exact condition under which it is safe, and
    what a start in flight does to it. */
module QuiesceLimits {
  import opened Smp
  import opened Quiesce

  /** An orderly run that ends in `t`. */
  ghost predicate Leads(s: System, acts: seq<Act>, t: System) {
    Orderly(s, acts) && Exec(s, acts) == t
  }

  lemma LeadsNowhere(s: System)
    ensures Leads(s, [], s)
  {}

  lemma LeadsFirst(s: System, a: Act, acts: seq<Act>, t: System)
    requires Can(s, a) && Silent(a) && Prompt(s, a) && Leads(Do(s, a), acts, t)
    ensures Leads(s, [a] + acts, t)
  {
    hide Do, Can, Silent, Prompt;
    assert ([a] + acts)[1..] == acts;
  }

  lemma {:induction false} LeadsThen(s: System, p: seq<Act>, u: System, q: seq<Act>, t: System)
    requires Leads(s, p, u) && Leads(u, q, t)
    ensures Leads(s, p + q, t)
    decreases |p|
  {
    hide Do, Can, Silent, Prompt;
    if p == [] {
      assert p + q == q;
    } else {
      OrderlyTail(s, p);
      assert p + q == [p[0]] + (p[1..] + q);
      LeadsThen(Do(s, p[0]), p[1..], u, q, t);
      LeadsFirst(s, p[0], p[1..] + q, t);
    }
  }

  // ------------------------------------------------- driving a core out of the payload

  /** Own actions an active core takes at most before its flag is clear, if its payload
      gives up at once. */
  function LeaveRank(core: Core): nat {
    match core.pc
    case DrainRead(_) => 28
    case DrainClear(_, _) => 27
    case Rebuild(_, got) => if |got| < HANDOFF then 26 - |got| else 17
    case Hvc(_, imm) => if imm == 0 then 6 else 15
    case FiqRead(_) => if core.pending == {} then 14 else 11
    case FiqGot(_, bits) => if bits == {} then 13 else 10
    case Payload(_) => if core.pending != {} then 12 else 7
    case HvcClear => 5
    case FiqClean => 4
    case Enter => 3
    case _ => 0
  }

  lemma LeaveStep(core: Core, word: bool, handoff: seq<nat>)
    requires FlagOk(core) && core.active && !core.pc.Payload? && |handoff| == HANDOFF
    ensures var next := Own(core, word, handoff); LeaveRank(next) < LeaveRank(core) && next.slot == core.slot
  {}

  /** The step that takes an active core towards the trampoline. */
  function Leaving(s: System, c: secondary): Act {
    if !s.cores[c].pc.Payload? then Step(c)
    else if s.cores[c].pending != {} then TakeFiq(c)
    else CallHvc(c, 0)
  }

  lemma LeavingStep(s: System, c: secondary)
    requires Flags(s) && s.cores[c].active
    ensures Can(s, Leaving(s, c)) && Silent(Leaving(s, c)) && Prompt(s, Leaving(s, c))
    ensures var t := Do(s, Leaving(s, c));
      && t == s.(cores := s.cores[c := t.cores[c]])
      && LeaveRank(t.cores[c]) < LeaveRank(s.cores[c])
      && t.cores[c].slot == s.cores[c].slot
  {
    assert FlagOk(s.cores[c]);
    if !s.cores[c].pc.Payload? {
      hide Own;
      LeaveStep(s.cores[c], s.words[c], s.handoff);
    }
  }

  /** Any core can be out, its slot as it was, with nobody else disturbed. */
  lemma {:induction false} DriveOut(s: System, c: secondary) returns (acts: seq<Act>, t: System)
    requires Flags(s)
    ensures Leads(s, acts, t) && Flags(t)
    ensures t == s.(cores := s.cores[c := t.cores[c]])
    ensures !t.cores[c].active && t.cores[c].slot == s.cores[c].slot
    ensures !s.cores[c].active ==> t == s
    decreases LeaveRank(s.cores[c])
  {
    hide Do, Can, Leads;
    if !s.cores[c].active {
      acts, t := [], s;
      LeadsNowhere(s);
      assert s.cores[c := s.cores[c]] == s.cores;
    } else {
      var a := Leaving(s, c);
      LeavingStep(s, c);
      StepKeepsFlags(s, a);
      var u := Do(s, a);
      var rest: seq<Act>;
      rest, t := DriveOut(u, c);
      acts := [a] + rest;
      LeadsFirst(s, a, rest, t);
      assert u.cores[c := t.cores[c]] == s.cores[c := t.cores[c]];
    }
  }

  lemma DriveAllOut(s: System) returns (acts: seq<Act>, t: System)
    requires Flags(s)
    ensures Leads(s, acts, t) && Flags(t)
    ensures t == s.(cores := t.cores)
    ensures forall c: secondary :: !t.cores[c].active && (Unstarted(t.cores[c]) ==> Unstarted(s.cores[c]))
  {
    hide Leads, FlagOk;
    var p, u := DriveOut(s, 1);
    var q, v := DriveOut(u, 2);
    var r, w := DriveOut(v, 3);
    t := w;
    LeadsThen(s, p, u, q, v);
    LeadsThen(s, p + q, v, r, w);
    acts := p + q + r;
    forall c: secondary ensures !t.cores[c].active && (Unstarted(t.cores[c]) ==> Unstarted(s.cores[c])) {
      assert FlagOk(s.cores[c]) && FlagOk(t.cores[c]);
      StartedStays(s.cores[c], t.cores[c]);
    }
  }

  lemma StartedStays(was: Core, now: Core)
    requires FlagOk(was) && FlagOk(now) && now.slot == was.slot && !now.active && (!was.active ==> now == was)
    ensures Unstarted(now) ==> Unstarted(was)
  {}

  // ------------------------------------------------------ running the quiesce through

  predicate NoneActive(s: System) {
    forall c: secondary :: !s.cores[c].active
  }

  /** The scan or poll of a core whose flag is clear moves on. */
  function PassedOver(p: BootPc): BootPc
    requires p.Scan? || p.Wait?
  {
    if p.Scan? then AfterScan(p.k) else if p.k < 3 then Wait(p.k + 1) else Flush
  }

  lemma PassOver(s: System)
    requires NoneActive(s) && (s.boot.Scan? || s.boot.Wait?)
    ensures BootStep(s) == s.(boot := PassedOver(s.boot))
  {
    var c: secondary := s.boot.k;
    assert !s.cores[c].active;
  }

  function PassesLeft(p: BootPc): nat {
    match p
    case Scan(k) => if k <= 3 then 7 - k else 0
    case Wait(k) => if k <= 3 then 4 - k else 0
    case _ => 0
  }

  lemma {:induction false} PassThrough(s: System) returns (acts: seq<Act>)
    requires NoneActive(s) && (s.boot.Scan? || s.boot.Wait? || s.boot.Flush?)
    ensures Leads(s, acts, s.(boot := Flush))
    decreases PassesLeft(s.boot)
  {
    hide Leads, BootStep;
    if s.boot.Flush? {
      acts := [];
      LeadsNowhere(s);
    } else {
      PassOver(s);
      var rest := PassThrough(Do(s, Step(0)));
      acts := [Step(0)] + rest;
      LeadsFirst(s, Step(0), rest, s.(boot := Flush));
    }
  }

  // --------------------------------------------------------------- completing a start

  /** Own steps from a start in flight to the payload. */
  function StartRank(core: Core): nat {
    match core.pc
    case HvcPing => 27
    case Spin => 27
    case Enter => 26
    case Park => 25
    case Consume(_) => 24
    case MarkActive(_) => 23
    case DrainRead(_) => 22
    case DrainClear(_, _) => 21
    case Rebuild(_, got) => if |got| < HANDOFF then 20 - |got| else 11
    case _ => 0
  }

  predicate Starting(core: Core) {
    match core.pc
    case HvcPing => core.slot != 0
    case Spin => core.slot != 0
    case Enter => core.slot != 0
    case Park => core.slot != 0
    case Consume(_) => true
    case MarkActive(_) => true
    case DrainRead(_) => true
    case DrainClear(_, _) => true
    case Rebuild(_, _) => true
    case _ => false
  }

  lemma StartStep(core: Core, handoff: seq<nat>)
    requires Starting(core) && |handoff| == HANDOFF
    ensures var next := Own(core, true, handoff);
      next.pc.Payload? || (Starting(next) && StartRank(next) < StartRank(core))
    ensures !core.pc.Payload?
  {}

  lemma AdvanceOnly(s: System, c: secondary)
    ensures var t := Advance(s, c);
      && t.boot == s.boot && t.words == s.words && t.cores[c] == Own(s.cores[c], s.words[c], s.handoff)
      && forall d: secondary :: d != c ==> t.cores[d] == s.cores[d]
  {
    hide Own;
  }

  lemma {:induction false} FinishStart(s: System, c: secondary) returns (acts: seq<Act>, t: System)
    requires s.words[c] && Starting(s.cores[c])
    ensures Leads(s, acts, t) && t.boot == s.boot && t.cores[c].pc.Payload?
    ensures Drained(s.cores[c]) ==> Drained(t.cores[c])
    ensures forall d: secondary :: d != c ==> t.cores[d] == s.cores[d]
    decreases StartRank(s.cores[c])
  {
    hide Own, Leads, Advance, Starting, Drained;
    StartStep(s.cores[c], s.handoff);
    AdvanceOnly(s, c);
    if Drained(s.cores[c]) {
      OwnKeepsDrained(s.cores[c], s.words[c], s.handoff);
    }
    var u := Do(s, Step(c));
    if u.cores[c].pc.Payload? {
      t := u;
      LeadsNowhere(t);
      LeadsFirst(s, Step(c), [], t);
      acts := [Step(c)] + [];
    } else {
      var rest: seq<Act>;
      rest, t := FinishStart(u, c);
      acts := [Step(c)] + rest;
      LeadsFirst(s, Step(c), rest, t);
    }
  }

  lemma StartedIsStarting(core: Core)
    requires FlagOk(core) && !core.active && !Unstarted(core)
    ensures Starting(core)
  {}

  // ------------------------------------------------------------- every quiesce there is

  /** The firmware's spin-table words are written before the first payload runs. */
  predicate Freed(s: System) {
    match s.boot
    case Loading => true
    case Publish(_) => true
    case ZeroSlot(_) => true
    case Word(k) => forall c: secondary :: c < k ==> s.words[c]
    case _ => forall c: secondary :: s.words[c]
  }

  lemma FreedStays(s: System, a: Act)
    requires Freed(s) && Can(s, a)
    ensures Freed(Do(s, a))
  {
    hide Own;
  }

  lemma {:induction false} FreedRun(s: System, acts: seq<Act>)
    requires Flags(s) && Freed(s) && Runs(s, acts)
    ensures Flags(Exec(s, acts)) && Freed(Exec(s, acts))
    decreases |acts|
  {
    hide Do, Can, Flags, Freed;
    if acts != [] {
      StepKeepsFlags(s, acts[0]);
      FreedStays(s, acts[0]);
      FreedRun(Do(s, acts[0]), acts[1..]);
    }
  }

  /** Whatever has happened since power-on, a quiesce begins with the flags right and
      every secondary released: what the theorems about it ask for always holds. */
  lemma EveryQuiesce(acts: seq<Act>)
    requires Runs(PowerOn(), acts) && Exec(PowerOn(), acts).boot == Scan(1)
    ensures Flags(Exec(PowerOn(), acts))
    ensures forall c: secondary :: Exec(PowerOn(), acts).words[c]
  {
    hide Exec, Runs, Flags;
    PowerOnFlags();
    FreedRun(PowerOn(), acts);
  }

  // ------------------------------------------------------------------ exact condition

  /** A doorbell-free run that gets the boot core past the quiesce with core `c` inside. */
  ghost predicate Breaks(s: System, acts: seq<Act>, c: secondary) {
    Runs(s, acts) && AllSilent(acts) && Reloading(Exec(s, acts).boot) && Inside(Exec(s, acts).cores[c])
  }

  ghost predicate SafeFrom(s: System) {
    forall acts: seq<Act>, c: secondary :: !Breaks(s, acts, c)
  }

  /** The quiesce is safe if and only if it begins with no start in flight: it looks at
      ACTIVE alone, so a written or just-consumed slot goes unnoticed. */
  lemma SafeIff(s: System)
    requires Flags(s) && s.boot == Scan(1) && forall c: secondary :: s.words[c]
    ensures SafeFrom(s) <==> NoStart(s)
  {
    hide Flags, Runs, Exec;
    if NoStart(s) {
      forall acts: seq<Act>, c: secondary ensures !Breaks(s, acts, c) {
        if Breaks(s, acts, c) {
          QuiesceIsSafe(s, acts);
        }
      }
    } else {
      var acts, c := BreakIt(s);
      assert Breaks(s, acts, c);
    }
  }

  lemma BreakIt(s: System) returns (acts: seq<Act>, c: secondary)
    requires Flags(s) && s.boot == Scan(1) && (forall c: secondary :: s.words[c]) && !NoStart(s)
    ensures Breaks(s, acts, c)
  {
    hide Leads, Flags, FlagOk, Unstarted, Starting;
    c :| !Unstarted(s.cores[c]);
    var p, u := DriveAllOut(s);
    var q := PassThrough(u);
    var v := u.(boot := Flush);
    FlagHere(u, c);
    StartedIsStarting(v.cores[c]);
    var r, t := FinishStart(v, c);
    LeadsThen(s, p, u, q, v);
    LeadsThen(s, p + q, v, r, t);
    acts := p + q + r;
    LeadsBreaks(s, acts, t, c);
  }

  lemma FlagHere(s: System, c: secondary)
    requires Flags(s)
    ensures FlagOk(s.cores[c])
  {}

  lemma LeadsBreaks(s: System, acts: seq<Act>, t: System, c: secondary)
    requires Leads(s, acts, t) && Reloading(t.boot) && Inside(t.cores[c])
    ensures Breaks(s, acts, c)
  {
    hide Runs, Exec, Inside;
  }

  // ------------------------------------------------------------------ it does happen

  /** Stores left to `release`, and then to the payload of the boot core. */
  function ReleaseLeft(p: BootPc): nat {
    match p
    case Publish(i) => if i < HANDOFF then HANDOFF - i + 7 else 0
    case ZeroSlot(k) => if k < 4 then 4 - k + 3 else 0
    case Word(k) => if k < 4 then 4 - k else 0
    case _ => 0
  }

  predicate Releasing(p: BootPc) { p.Publish? || p.ZeroSlot? || p.Word? }

  lemma {:induction false} ReleaseThrough(s: System) returns (acts: seq<Act>, t: System)
    requires Releasing(s.boot) || s.boot.Running?
    ensures Leads(s, acts, t) && t.boot == Running
    decreases ReleaseLeft(s.boot)
  {
    hide Leads, Own;
    if s.boot.Running? {
      acts, t := [], s;
      LeadsNowhere(s);
    } else {
      var rest: seq<Act>;
      rest, t := ReleaseThrough(Do(s, Step(0)));
      acts := [Step(0)] + rest;
      LeadsFirst(s, Step(0), rest, t);
    }
  }

  lemma {:induction false} OneMore(s: System, acts: seq<Act>, t: System, a: Act)
    requires Runs(s, acts) && Exec(s, acts) == t && Can(t, a)
    ensures Runs(s, acts + [a]) && Exec(s, acts + [a]) == Do(t, a)
    decreases |acts|
  {
    hide Do, Can;
    if acts == [] {
      assert acts + [a] == [a] && [a][1..] == [];
      assert Runs(Do(t, a), []) && Exec(Do(t, a), []) == Do(t, a);
    } else {
      assert (acts + [a])[1..] == acts[1..] + [a];
      OneMore(Do(s, acts[0]), acts[1..], t, a);
    }
  }

  /** Power on, load, and let the payload ring core 1 and at once ask for a reload: the
      quiesce begins with a start in flight. So neither safety nor termination holds of
      every quiesce a payload can bring about. */
  lemma StartInFlightHappens(entry: nat) returns (acts: seq<Act>)
    requires entry != 0
    ensures Runs(PowerOn(), acts) && Exec(PowerOn(), acts).boot == Scan(1)
    ensures !NoStart(Exec(PowerOn(), acts)) && !SafeFrom(Exec(PowerOn(), acts))
  {
    hide Leads, Runs, Exec, Own, Flags, SafeFrom, Orderly;
    var s0 := PowerOn();
    var launch := Launch(s0.args);
    var first := Do(s0, launch);
    var more, t := ReleaseThrough(first);
    LeadsNowhere(t);
    LeadsFirst(s0, launch, more, t);
    acts := [launch] + more;
    LeadsRuns(s0, acts, t);
    var u := Do(t, Doorbell(0, 1, entry));
    OneMore(s0, acts, t, Doorbell(0, 1, entry));
    acts := acts + [Doorbell(0, 1, entry)];
    var v := Do(u, CallHvc(0, 0));
    OneMore(s0, acts, u, CallHvc(0, 0));
    acts := acts + [CallHvc(0, 0)];
    var w := Do(v, Step(0));
    OneMore(s0, acts, v, Step(0));
    acts := acts + [Step(0)];
    var c: secondary := 1;
    assert !Unstarted(w.cores[c]);
    EveryQuiesce(acts);
    SafeIff(w);
  }

  lemma LeadsRuns(s: System, acts: seq<Act>, t: System)
    requires Leads(s, acts, t)
    ensures Runs(s, acts) && Exec(s, acts) == t
  {
    hide Runs, Exec;
  }
}
