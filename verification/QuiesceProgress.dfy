/** When the quiesce's wait loop ends: the exact condition, and how soon. */
module QuiesceProgress {
  import opened Smp
  import opened Quiesce
  import opened QuiesceLimits

  /** A start in flight that can outlive the interrupt meant to stop it: not begun, or
      about to drain exactly the bit the boot core rings. A core past its drain, on
      which the interrupt stays pending, is not late. */
  predicate Late(core: Core) {
    !Unstarted(core) || AtDrain(core)
  }

  predicate AtDrain(core: Core) {
    || core.pc.DrainRead?
    || (core.pc.DrainClear? && 0 in core.pc.bits && core.pending <= core.pc.bits)
  }

  predicate NoneLate(s: System) {
    forall c: secondary :: !Late(s.cores[c])
  }

  /** Cleared, on the way to clearing its flag, or with an interrupt it cannot miss. */
  predicate Signalled(core: Core) {
    core.active ==>
      match core.pc
      case Enter => true
      case HvcClear => true
      case FiqClean => true
      case DrainClear(_, bits) => !(core.pending <= bits)
      case FiqGot(_, bits) => bits != {} || core.pending != {}
      case _ => core.pending != {}
  }

  /** Scanned and, if need be, rung. */
  predicate Handled(s: System, c: secondary) {
    match s.boot
    case Scan(k) => c < k ==> Signalled(s.cores[c])
    case RingAt(k) => c < k ==> Signalled(s.cores[c])
    case Wait(_) => Signalled(s.cores[c])
    case _ => true
  }

  ghost predicate Alert(s: System) {
    Flags(s) && NoneLate(s) && forall c: secondary :: Handled(s, c)
  }

  // ------------------------------------------------------------------- one action

  lemma OwnStaysAlert(core: Core, word: bool, handoff: seq<nat>)
    requires FlagOk(core) && !Late(core) && |handoff| == HANDOFF
    ensures !Late(Own(core, word, handoff))
    ensures Signalled(core) ==> Signalled(Own(core, word, handoff))
  {
    if core.pc.DrainClear? && !(core.pending <= core.pc.bits) {
      var bit :| bit in core.pending && bit !in core.pc.bits;
      assert bit in core.pending - core.pc.bits;
    }
  }

  lemma CoreStaysAlert(s: System, a: Act, c: secondary)
    requires Can(s, a) && Silent(a) && FlagOk(s.cores[c]) && !Late(s.cores[c])
    ensures !Late(Do(s, a).cores[c])
    ensures Signalled(s.cores[c]) ==> Signalled(Do(s, a).cores[c])
  {
    hide Do, Own, Can;
    DoTouches(s, a, c);
    OwnStaysAlert(s.cores[c], s.words[c], s.handoff);
  }

  /** Ringing a core that is not late reaches it. */
  lemma RingSignals(core: Core)
    requires FlagOk(core) && !Late(core)
    ensures Signalled(Rung(core, 0))
  {}

  lemma IdleIsSignalled(core: Core)
    requires !core.active
    ensures Signalled(core)
  {}

  /** What the boot core's own quiesce steps do. */
  lemma QuiesceMoves(s: System)
    requires Quiescing(s.boot)
    ensures var t := BootStep(s);
      match s.boot
      case Scan(k) => t.cores == s.cores && t.boot == if s.cores[k].active then RingAt(k) else AfterScan(k)
      case RingAt(k) => t.boot == AfterScan(k) && t.cores == s.cores[k := Rung(s.cores[k], 0)]
      case Wait(k) => t.cores == s.cores && t.boot == if s.cores[k].active then s.boot else PassedOver(s.boot)
      case _ => true
  {}

  /** Outside the quiesce nothing is claimed, and it is entered at its first step. */
  lemma QuiesceBegins(s: System, a: Act)
    requires Can(s, a) && !Quiescing(s.boot)
    ensures Quiescing(Do(s, a).boot) ==> Do(s, a).boot == Scan(1)
  {
    hide Own;
  }

  lemma HandledStays(s: System, a: Act, c: secondary)
    requires Flags(s) && NoneLate(s) && Handled(s, c) && Can(s, a) && Silent(a) && Quiescing(s.boot)
    ensures Handled(Do(s, a), c)
  {
    hide Own, Late, Signalled, FlagOk, Rung, BootStep, Advance, Silent;
    assert FlagOk(s.cores[c]) && !Late(s.cores[c]);
    CoreStaysAlert(s, a, c);
    QuiesceMoves(s);
    RingSignals(s.cores[c]);
    if !s.cores[c].active {
      IdleIsSignalled(s.cores[c]);
    }
    BootMoves(s, a);
  }

  lemma StaysAlert(s: System, a: Act)
    requires Alert(s) && Can(s, a) && Silent(a)
    ensures Alert(Do(s, a))
  {
    hide Do, Can, Flags, Late, Silent, FlagOk, Signalled;
    StepKeepsFlags(s, a);
    forall c: secondary ensures !Late(Do(s, a).cores[c]) && Handled(Do(s, a), c) {
      FlagHere(s, c);
      CoreStaysAlert(s, a, c);
      if Quiescing(s.boot) {
        HandledStays(s, a, c);
      } else {
        QuiesceBegins(s, a);
      }
    }
  }

  // ------------------------------------------------------------------ the measure

  /** Own steps a signalled core takes at most before its flag is clear. */
  function WaitRank(core: Core): nat {
    if !core.active then 0
    else
      match core.pc
      case DrainClear(_, _) => 30
      case Rebuild(_, got) => if |got| < HANDOFF then 29 - |got| else 20
      case Hvc(_, imm) => if imm == 0 then 9 else 10
      case FiqGot(_, bits) => if bits == {} then 8 else 5
      case Payload(_) => 7
      case FiqRead(_) => 6
      case FiqClean => 4
      case Enter => 3
      case HvcClear => 2
      case _ => 0
  }

  function Measure(s: System): nat {
    match s.boot
    case Scan(k) => if k <= 3 then 108 - 2 * k else 0
    case RingAt(k) => if k <= 3 then 107 - 2 * k else 0
    case Wait(k) => if k <= 3 then 4 - k + WaitRank(s.cores[1]) + WaitRank(s.cores[2]) + WaitRank(s.cores[3]) else 0
    case _ => 0
  }

  /** The core everything waits for: the polled one while its flag is set, else core 0. */
  function Critical(s: System): cpu {
    if s.boot.Wait? && s.cores[s.boot.k].active then s.boot.k else 0
  }

  lemma OwnFalls(core: Core, word: bool, handoff: seq<nat>)
    requires FlagOk(core) && !Late(core) && Signalled(core) && |handoff| == HANDOFF
    ensures WaitRank(Own(core, word, handoff)) <= WaitRank(core)
    ensures core.active && !core.pc.Payload? ==> WaitRank(Own(core, word, handoff)) < WaitRank(core)
    ensures !core.active ==> !Own(core, word, handoff).active
  {}

  lemma CoreFalls(s: System, a: Act, c: secondary)
    requires Can(s, a) && Silent(a) && Prompt(s, a)
    requires FlagOk(s.cores[c]) && !Late(s.cores[c]) && Signalled(s.cores[c])
    ensures WaitRank(Do(s, a).cores[c]) <= WaitRank(s.cores[c])
    ensures s.cores[c].active && Actor(a) == c ==> WaitRank(Do(s, a).cores[c]) < WaitRank(s.cores[c])
    ensures !s.cores[c].active ==> !Do(s, a).cores[c].active
  {
    hide Own, Late;
    DoTouches(s, a, c);
    OwnFalls(s.cores[c], s.words[c], s.handoff);
  }

  /** While core 0 waits: no action raises the measure, and the critical core's lowers it. */
  lemma WaitFalls(s: System, a: Act)
    requires Alert(s) && Can(s, a) && Silent(a) && Prompt(s, a) && s.boot.Wait?
    ensures Measure(Do(s, a)) <= Measure(s)
    ensures Actor(a) == Critical(s) ==> Measure(Do(s, a)) < Measure(s)
    ensures Actor(a) != Critical(s) ==> Critical(Do(s, a)) == Critical(s) && Do(s, a).boot == s.boot
  {
    hide Own, Late, Signalled, WaitRank, FlagOk, Flags, BootStep, Advance, Silent, Prompt;
    forall c: secondary
      ensures WaitRank(Do(s, a).cores[c]) <= WaitRank(s.cores[c])
      ensures s.cores[c].active && Actor(a) == c ==> WaitRank(Do(s, a).cores[c]) < WaitRank(s.cores[c])
      ensures !s.cores[c].active ==> !Do(s, a).cores[c].active
    {
      FlagHere(s, c);
      assert Handled(s, c);
      CoreFalls(s, a, c);
    }
    QuiesceMoves(s);
    BootMoves(s, a);
    OthersKeepFlag(s, a);
  }

  /** Only a core itself writes its flag. */
  lemma OthersKeepFlag(s: System, a: Act)
    requires Can(s, a)
    ensures forall c: secondary :: Actor(a) != c ==> Do(s, a).cores[c].active == s.cores[c].active
  {
    forall c: secondary | Actor(a) != c ensures Do(s, a).cores[c].active == s.cores[c].active {
      DoTouches(s, a, c);
    }
  }

  lemma {:induction false} RankBound(core: Core)
    ensures WaitRank(core) <= 30
  {}

  lemma ScanFalls(s: System, a: Act)
    requires Can(s, a) && (s.boot.Scan? || s.boot.RingAt?)
    ensures Measure(Do(s, a)) <= Measure(s)
    ensures Actor(a) == Critical(s) ==> Measure(Do(s, a)) < Measure(s)
    ensures Actor(a) != Critical(s) ==> Critical(Do(s, a)) == Critical(s) && Do(s, a).boot == s.boot
  {
    hide Own, WaitRank, Rung;
    var t := Do(s, a);
    RankBound(t.cores[1]);
    RankBound(t.cores[2]);
    RankBound(t.cores[3]);
    QuiesceMoves(s);
  }

  lemma QuiesceFalls(s: System, a: Act)
    requires Alert(s) && Can(s, a) && Silent(a) && Prompt(s, a) && Quiescing(s.boot)
    ensures Measure(Do(s, a)) <= Measure(s)
    ensures Actor(a) == Critical(s) ==> Measure(Do(s, a)) < Measure(s)
    ensures Actor(a) != Critical(s) ==> Critical(Do(s, a)) == Critical(s) && Do(s, a).boot == s.boot
  {
    hide Measure, Do, Can, Silent, Prompt, Alert, Critical;
    if s.boot.Wait? {
      WaitFalls(s, a);
    } else {
      ScanFalls(s, a);
    }
  }

  /** The quiesce is left only for the flush. */
  lemma QuiesceEndsInFlush(s: System, a: Act)
    requires Can(s, a) && Quiescing(s.boot)
    ensures Quiescing(Do(s, a).boot) || Do(s, a).boot == Flush
  {
    hide Own;
  }

  // --------------------------------------------------------------- fair schedules

  /** The boot core reaches its flush somewhere along the run. */
  ghost predicate Reaches(s: System, acts: seq<Act>)
    requires Runs(s, acts)
    decreases |acts|
  {
    s.boot == Flush || (acts != [] && Reaches(Do(s, acts[0]), acts[1..]))
  }

  predicate ActsIn(round: seq<Act>, c: cpu) {
    exists i :: 0 <= i < |round| && Actor(round[i]) == c
  }

  /** Every core acts at least once. */
  predicate Covers(round: seq<Act>) {
    forall c: cpu :: ActsIn(round, c)
  }

  ghost predicate StillQuiescing(s: System, bound: int) {
    Alert(s) && Quiescing(s.boot) && Measure(s) <= bound
  }

  /** A stretch of a run ends in the flush, or keeps the measure, and lowers it if the
      critical core acts. */
  lemma {:induction false} StretchFalls(s: System, acts: seq<Act>)
    requires Alert(s) && Quiescing(s.boot) && Orderly(s, acts)
    ensures Reaches(s, acts) || StillQuiescing(Exec(s, acts), Measure(s))
    ensures ActsIn(acts, Critical(s)) ==>
      Reaches(s, acts) || StillQuiescing(Exec(s, acts), Measure(s) - 1)
    decreases |acts|
  {
    hide Do, Can, Alert, Measure, Critical, Silent, Prompt, PromptRun;
    if acts != [] {
      var a := acts[0];
      OrderlyTail(s, acts);
      QuiesceFalls(s, a);
      QuiesceEndsInFlush(s, a);
      StaysAlert(s, a);
      var t := Do(s, a);
      if t.boot != Flush {
        StretchFalls(t, acts[1..]);
        if ActsIn(acts, Critical(s)) {
          var i :| 0 <= i < |acts| && Actor(acts[i]) == Critical(s);
          assert i > 0 ==> acts[1..][i - 1] == acts[i];
        }
      } else {
        assert Reaches(t, acts[1..]);
      }
    }
  }

  function Joined(rounds: seq<seq<Act>>): seq<Act> {
    if rounds == [] then [] else rounds[0] + Joined(rounds[1..])
  }

  lemma {:induction false} Split(s: System, p: seq<Act>, q: seq<Act>)
    requires Orderly(s, p + q)
    ensures Orderly(s, p) && Orderly(Exec(s, p), q)
    ensures Reaches(s, p) || Reaches(Exec(s, p), q) ==> Reaches(s, p + q)
    decreases |p|
  {
    hide Do, Can, Silent, Prompt;
    if p == [] {
      assert p + q == q;
    } else {
      assert (p + q)[1..] == p[1..] + q;
      OrderlyTail(s, p + q);
      Split(Do(s, p[0]), p[1..], q);
    }
  }

  lemma {:induction false} RoundsFall(s: System, rounds: seq<seq<Act>>)
    requires Alert(s) && Quiescing(s.boot) && Orderly(s, Joined(rounds))
    requires forall i :: 0 <= i < |rounds| ==> Covers(rounds[i])
    requires |rounds| > Measure(s)
    ensures Reaches(s, Joined(rounds))
    decreases |rounds|
  {
    hide Do, Can, Alert, Measure, Critical, PromptRun, Reaches, Exec, Runs;
    var p, rest := rounds[0], rounds[1..];
    Split(s, p, Joined(rest));
    assert Covers(p);
    var c := Critical(s);
    assert ActsIn(p, c);
    StretchFalls(s, p);
    if !Reaches(s, p) {
      RoundsFall(Exec(s, p), rest);
    }
  }

  /** Termination: with no late start and no doorbell, every schedule in which
      interrupts are taken promptly ends the wait loop, within 107 rounds in each of
      which every core acts. */
  lemma QuiesceTerminates(s: System, rounds: seq<seq<Act>>)
    requires Flags(s) && NoneLate(s) && s.boot == Scan(1)
    requires Orderly(s, Joined(rounds)) && forall i :: 0 <= i < |rounds| ==> Covers(rounds[i])
    requires |rounds| >= 107
    ensures Reaches(s, Joined(rounds))
  {
    hide Flags, NoneLate, Orderly, Reaches, Covers;
    RoundsFall(s, rounds);
  }

  /** No core is ever without a move. */
  lemma AMove(s: System, c: cpu) returns (a: Act)
    ensures Can(s, a) && Silent(a) && Prompt(s, a) && Actor(a) == c
  {
    a := if c != 0 && s.cores[c].pc.Payload? then TakeFiq(c) else Step(c);
  }

  lemma MoveThen(s: System, c: cpu, acts: seq<Act>, a: Act, t: System)
    requires Can(s, a) && Silent(a) && Prompt(s, a) && Actor(a) == c && Leads(Do(s, a), acts, t)
    ensures Leads(s, [a] + acts, t) && ActsIn([a] + acts, c)
    ensures forall d: cpu :: ActsIn(acts, d) ==> ActsIn([a] + acts, d)
  {
    hide Leads, Do;
    LeadsFirst(s, a, acts, t);
    assert ([a] + acts)[0] == a;
    forall d: cpu | ActsIn(acts, d) ensures ActsIn([a] + acts, d) {
      var i :| 0 <= i < |acts| && Actor(acts[i]) == d;
      assert ([a] + acts)[i + 1] == acts[i];
    }
  }

  /** The cores from `c` up act in turn. */
  lemma {:induction false} RoundFrom(s: System, c: nat) returns (round: seq<Act>, t: System)
    requires c <= 4
    ensures Leads(s, round, t)
    ensures forall d: cpu :: d >= c ==> ActsIn(round, d)
    decreases 4 - c
  {
    hide Leads, Do, Can, Silent, Prompt, ActsIn;
    if c == 4 {
      round, t := [], s;
      LeadsNowhere(s);
    } else {
      var a := AMove(s, c);
      var rest: seq<Act>;
      rest, t := RoundFrom(Do(s, a), c + 1);
      MoveThen(s, c, rest, a, t);
      round := [a] + rest;
    }
  }

  /** From every state there are orderly schedules of any number of covering rounds, so
      what terminates in them really does. */
  lemma {:induction false} ScheduleExists(s: System, n: nat) returns (rounds: seq<seq<Act>>, t: System)
    ensures |rounds| == n && Leads(s, Joined(rounds), t)
    ensures forall i :: 0 <= i < |rounds| ==> Covers(rounds[i])
    decreases n
  {
    hide Leads, ActsIn;
    if n == 0 {
      rounds, t := [], s;
      LeadsNowhere(s);
    } else {
      var round, u := RoundFrom(s, 0);
      var more: seq<seq<Act>>;
      more, t := ScheduleExists(u, n - 1);
      rounds := [round] + more;
      LeadsThen(s, round, u, Joined(more), t);
      assert rounds[1..] == more;
    }
  }

  /** A quiesce without a late start can be carried to its flush. */
  lemma QuiesceDoesEnd(s: System) returns (acts: seq<Act>)
    requires Flags(s) && NoneLate(s) && s.boot == Scan(1)
    ensures Orderly(s, acts) && Reaches(s, acts)
  {
    hide Flags, NoneLate, Reaches, Covers, Exec;
    var rounds, t := ScheduleExists(s, 107);
    acts := Joined(rounds);
    QuiesceTerminates(s, rounds);
  }
}
