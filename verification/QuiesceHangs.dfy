/** The other half of termination: from every state with a late start, some orderly run
    leaves the wait loop polling a core that will never be interrupted. */
module QuiesceHangs {
  import opened Smp
  import opened Quiesce
  import opened QuiesceLimits
  import opened QuiesceProgress

  /** Core 0 polls a core that runs the payload with nothing pending. */
  predicate Hung(s: System, c: secondary) {
    s.boot == Wait(c) && s.cores[c].pc.Payload? && s.cores[c].active && s.cores[c].pending == {}
  }

  /** Core `c` goes on computing and nobody rings it; everybody else does as they like. */
  predicate LeavesAlone(a: Act, c: secondary) {
    (Actor(a) == c ==> a == Step(c)) && !(a.Ring? && a.c == c)
  }

  lemma HungStays(s: System, a: Act, c: secondary)
    requires Hung(s, c) && Can(s, a) && LeavesAlone(a, c)
    ensures Hung(Do(s, a), c)
  {
    BootMoves(s, a);
    QuiesceMoves(s);
    hide Do;
    DoTouches(s, a, c);
    hide BootStep, Advance;
    PollStays(s, a);
  }

  lemma PollStays(s: System, a: Act)
    requires Can(s, a) && s.boot.Wait? && s.cores[s.boot.k].active
    ensures Do(s, a).boot == s.boot
  {
    hide Own;
  }

  /** A hung quiesce stays hung, however long and however fair the run. */
  lemma {:induction false} HungForever(s: System, acts: seq<Act>, c: secondary)
    requires Hung(s, c) && Runs(s, acts) && forall i :: 0 <= i < |acts| ==> LeavesAlone(acts[i], c)
    ensures Hung(Exec(s, acts), c)
    decreases |acts|
  {
    hide Do, Can, LeavesAlone, Hung;
    if acts != [] {
      HungStays(s, acts[0], c);
      HungForever(Do(s, acts[0]), acts[1..], c);
    }
  }

  ghost predicate CanHang(s: System) {
    exists acts: seq<Act>, c: secondary :: Orderly(s, acts) && Hung(Exec(s, acts), c)
  }

  // ----------------------------------------------------------------- not if none is late

  lemma {:induction false} AlertRun(s: System, acts: seq<Act>)
    requires Alert(s) && Orderly(s, acts)
    ensures Alert(Exec(s, acts))
    decreases |acts|
  {
    hide Do, Can, Silent, Prompt, Alert;
    if acts != [] {
      OrderlyTail(s, acts);
      StaysAlert(s, acts[0]);
      AlertRun(Do(s, acts[0]), acts[1..]);
    }
  }

  lemma AlertIsNotHung(s: System, c: secondary)
    requires Alert(s)
    ensures !Hung(s, c)
  {
    assert Handled(s, c);
  }

  // ------------------------------------------------------------------- but if one is

  /** Others are out; core `c` will start, and its drain will take the boot core's bit. */
  ghost predicate Poised(s: System, c: secondary) {
    && Flags(s)
    && s.words[c]
    && Starting(s.cores[c])
    && Drained(Rung(s.cores[c], 0))
    && Drained(s.cores[c])
    && forall d: secondary :: d != c ==> !s.cores[d].active
  }

  lemma LatePoised(core: Core)
    requires FlagOk(core) && Late(core)
    ensures !core.active || AtDrain(core) ==>
      Starting(core) && Drained(core) && Drained(Rung(core, 0))
  {}

  /** Whatever was late stays so while its core is driven towards the trampoline. */
  lemma DrivenStaysLate(was: Core, now: Core)
    requires FlagOk(was) && Late(was) && FlagOk(now)
    requires !AtDrain(was)
    requires now.slot == was.slot && !now.active && (!was.active ==> now == was)
    ensures Late(now)
  {}

  lemma Poise(s: System, c: secondary) returns (acts: seq<Act>, t: System)
    requires Flags(s) && s.words[c] && Late(s.cores[c])
    ensures Leads(s, acts, t) && t.boot == s.boot && Poised(t, c)
  {
    hide Leads, Flags, FlagOk, Late, AtDrain, Drained, Starting, Rung;
    var d: secondary := if c == 1 then 2 else 1;
    var e: secondary := if c == 3 then 2 else 3;
    var p, u := DriveOut(s, d);
    var q, v := DriveOut(u, e);
    LeadsThen(s, p, u, q, v);
    var r: seq<Act>;
    if AtDrain(s.cores[c]) {
      r, t := [], v;
      LeadsNowhere(v);
    } else {
      r, t := DriveOut(v, c);
      FlagHere(s, c);
      FlagHere(t, c);
      DrivenStaysLate(s.cores[c], t.cores[c]);
    }
    LeadsThen(s, p + q, v, r, t);
    acts := p + q + r;
    FlagHere(t, c);
    LatePoised(t.cores[c]);
  }

  /** The scan, with at most core `c` active, leads to the first poll. */
  lemma {:induction false} ScanThrough(s: System, c: secondary) returns (acts: seq<Act>, t: System)
    requires (s.boot.Scan? || s.boot.RingAt?) && Flags(s)
    requires forall d: secondary :: d != c ==> !s.cores[d].active
    requires s.boot.RingAt? ==> s.boot.k == c
    ensures Leads(s, acts, t) && t.boot == Wait(1) && t.words == s.words && Flags(t)
    ensures forall d: secondary :: d != c ==> t.cores[d] == s.cores[d]
    ensures t.cores[c] == s.cores[c] || t.cores[c] == Rung(s.cores[c], 0)
    decreases ScanLeft(s.boot)
  {
    hide Leads, Flags, Rung;
    var u := Do(s, Step(0));
    StepKeepsFlags(s, Step(0));
    var rest: seq<Act>;
    if u.boot.Wait? {
      rest, t := [], u;
      LeadsNowhere(u);
    } else {
      rest, t := ScanThrough(u, c);
      RungTwice(s.cores[c]);
    }
    acts := [Step(0)] + rest;
    LeadsFirst(s, Step(0), rest, t);
  }

  function ScanLeft(p: BootPc): nat {
    match p
    case Scan(k) => if k <= 3 then 8 - 2 * k else 0
    case RingAt(k) => if k <= 3 then 7 - 2 * k else 0
    case _ => 0
  }

  lemma RungTwice(core: Core)
    ensures Rung(Rung(core, 0), 0) == Rung(core, 0)
  {
    assert core.pending + {0} + {0} == core.pending + {0};
  }

  /** Polling passes over the cores before `c`. */
  lemma {:induction false} PollUpTo(s: System, c: secondary) returns (acts: seq<Act>)
    requires s.boot.Wait? && s.boot.k <= c && forall d: secondary :: d != c ==> !s.cores[d].active
    ensures Leads(s, acts, s.(boot := Wait(c)))
    decreases c - s.boot.k
  {
    hide Leads;
    if s.boot.k == c {
      acts := [];
      LeadsNowhere(s);
    } else {
      var d: secondary := s.boot.k;
      assert !s.cores[d].active;
      var u := Do(s, Step(0));
      assert u == s.(boot := Wait(d + 1));
      var rest := PollUpTo(u, c);
      acts := [Step(0)] + rest;
      LeadsFirst(s, Step(0), rest, s.(boot := Wait(c)));
    }
  }

  lemma HangIt(s: System, c: secondary) returns (acts: seq<Act>, t: System)
    requires s.boot == Scan(1) && Poised(s, c)
    ensures Leads(s, acts, t) && Hung(t, c)
  {
    hide Leads, Flags, FlagOk, Starting, Drained, Rung;
    var p, u := ScanThrough(s, c);
    StartingRung(s.cores[c]);
    var q, v := FinishStart(u, c);
    LeadsThen(s, p, u, q, v);
    var r := PollUpTo(v, c);
    t := v.(boot := Wait(c));
    LeadsThen(s, p + q, v, r, t);
    acts := p + q + r;
    LeadsFlags(u, q, v);
    FlagHere(v, c);
    RunningDrained(v.cores[c]);
  }

  lemma StartingRung(core: Core)
    requires Starting(core)
    ensures Starting(Rung(core, 0))
  {}

  lemma RunningDrained(core: Core)
    requires FlagOk(core) && Drained(core) && core.pc.Payload?
    ensures core.active && core.pending == {}
  {}

  lemma LeadsFlags(s: System, acts: seq<Act>, t: System)
    requires Leads(s, acts, t) && Flags(s)
    ensures Flags(t)
  {
    hide Flags, Exec, Runs;
    PayloadImpliesActive(s, acts, 1);
  }

  /** The exact condition for termination: starting from the first scan, an orderly run
      can get stuck if and only if some start is late. */
  lemma HangIff(s: System)
    requires Flags(s) && s.boot == Scan(1) && forall c: secondary :: s.words[c]
    ensures CanHang(s) <==> !NoneLate(s)
  {
    hide Flags, Exec, Runs, PromptRun, AllSilent, Late, Hung;
    if NoneLate(s) {
      forall acts: seq<Act>, c: secondary | Orderly(s, acts) ensures !Hung(Exec(s, acts), c) {
        AlertRun(s, acts);
        AlertIsNotHung(Exec(s, acts), c);
      }
    } else {
      var c: secondary :| Late(s.cores[c]);
      var p, u := Poise(s, c);
      var q, t := HangIt(u, c);
      LeadsThen(s, p, u, q, t);
      LeadsHangs(s, p + q, t, c);
    }
  }

  lemma LeadsHangs(s: System, acts: seq<Act>, t: System, c: secondary)
    requires Leads(s, acts, t) && Hung(t, c)
    ensures CanHang(s)
  {
    hide Runs, PromptRun, AllSilent, Exec, Hung;
  }

  /** A payload that rings a core and at once asks for a reload can bring that about. */
  lemma HangHappens(entry: nat) returns (acts: seq<Act>)
    requires entry != 0
    ensures Runs(PowerOn(), acts) && CanHang(Exec(PowerOn(), acts))
  {
    hide Exec, Runs, Flags, CanHang, SafeFrom;
    acts := StartInFlightHappens(entry);
    EveryQuiesce(acts);
    HangIff(Exec(PowerOn(), acts));
  }
}
