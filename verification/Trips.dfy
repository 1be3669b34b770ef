/** Where traps and doorbells take a core, whatever the other cores do meanwhile: a trap
    that is none of the loader's business leaves no trace, and nothing moves a core out of
    the payload, into it, or into a reload without a cause. */
module Trips {
  import opened Smp
  import opened Quiesce

  // -------------------------------------------------------------- runs in pieces

  /** No action of core `c`. */
  predicate Without(acts: seq<Act>, c: cpu) {
    forall i :: 0 <= i < |acts| ==> Actor(acts[i]) != c
  }

  lemma {:induction false} RunJoin(s: System, p: seq<Act>, q: seq<Act>)
    ensures Runs(s, p + q) <==> Runs(s, p) && Runs(Exec(s, p), q)
    ensures Runs(s, p + q) ==> Exec(s, p + q) == Exec(Exec(s, p), q)
    decreases |p|
  {
    hide Do, Can;
    if p == [] {
      assert p + q == q;
    } else {
      assert (p + q)[1..] == p[1..] + q && (p + q)[0] == p[0];
      if Can(s, p[0]) {
        RunJoin(Do(s, p[0]), p[1..], q);
      }
    }
  }

  lemma RunOne(s: System, a: Act)
    ensures Runs(s, [a]) <==> Can(s, a)
    ensures Can(s, a) ==> Exec(s, [a]) == Do(s, a)
  {
    hide Do, Can;
    assert [a][1..] == [];
  }

  // ------------------------------------------------------- others do not look

  /** `s` with core `c` elsewhere. */
  function Moved(s: System, c: secondary, p: Pc): System {
    s.(cores := s.cores[c := s.cores[c].(pc := p)])
  }

  function BootMoved(s: System, p: BootPc): System
    requires s.(boot := p).Shape()
  {
    s.(boot := p)
  }

  lemma SameCores(s: System, t: System, c: secondary, p: Pc)
    requires s.(cores := t.cores) == t && |t.cores| == 4
    requires forall k :: 0 <= k < 4 && k != c ==> t.cores[k] == s.cores[k]
    requires t.cores[c] == s.cores[c].(pc := p)
    ensures t == Moved(s, c, p)
  {
    assert t.cores == s.cores[c := s.cores[c].(pc := p)];
  }

  /** Most steps of the boot core write no core's words. */
  lemma BootStepPlain(s: System, c: secondary, p: Pc)
    requires !s.boot.ZeroSlot? && !s.boot.RingAt? && !s.boot.BootFiqGot?
    ensures BootStep(Moved(s, c, p)) == Moved(BootStep(s), c, p) && BootStep(s).cores == s.cores
  {}

  lemma BootStepWrites(s: System, c: secondary, p: Pc)
    requires s.boot.ZeroSlot? || s.boot.RingAt? || s.boot.BootFiqGot?
    ensures BootStep(Moved(s, c, p)) == Moved(BootStep(s), c, p) && BootStep(s).cores[c].pc == s.cores[c].pc
  {
    hide Moved;
    PcOfMoved(s, c, p);
    SameCores(BootStep(s), BootStep(Moved(s, c, p)), c, p);
  }

  lemma BootStepIgnores(s: System, c: secondary, p: Pc)
    ensures BootStep(Moved(s, c, p)) == Moved(BootStep(s), c, p) && BootStep(s).cores[c].pc == s.cores[c].pc
  {
    hide BootStep, Moved;
    if s.boot.ZeroSlot? || s.boot.RingAt? || s.boot.BootFiqGot? {
      BootStepWrites(s, c, p);
    } else {
      BootStepPlain(s, c, p);
    }
  }

  lemma AdvanceIgnores(s: System, d: secondary, c: secondary, p: Pc)
    requires d != c
    ensures Advance(Moved(s, c, p), d) == Moved(Advance(s, d), c, p) && Advance(s, d).cores[c] == s.cores[c]
  {
    hide Own;
    SameCores(Advance(s, d), Advance(Moved(s, c, p), d), c, p);
  }

  lemma Ignored(s: System, a: Act, c: secondary, p: Pc)
    requires Actor(a) != c && Can(s, a)
    ensures Can(Moved(s, c, p), a) && Do(Moved(s, c, p), a) == Moved(Do(s, a), c, p)
    ensures Do(s, a).cores[c].pc == s.cores[c].pc
  {
    hide Own, BootStep, Advance;
    if a.Step? {
      if a.c == 0 { BootStepIgnores(s, c, p); } else { AdvanceIgnores(s, a.c, c, p); }
    } else {
      SameCores(Do(s, a), Do(Moved(s, c, p), a), c, p);
    }
  }

  lemma BootIgnored(s: System, a: Act, p: BootPc)
    requires Actor(a) != 0 && Can(s, a) && s.(boot := p).Shape()
    ensures Do(s, a).boot == s.boot && Do(s, a).(boot := p).Shape()
    ensures Can(BootMoved(s, p), a) && Do(BootMoved(s, p), a) == BootMoved(Do(s, a), p)
  {
    hide Own;
  }

  lemma {:induction false} IgnoredRun(s: System, q: seq<Act>, c: secondary, p: Pc)
    requires Without(q, c) && Runs(s, q)
    ensures Runs(Moved(s, c, p), q) && Exec(Moved(s, c, p), q) == Moved(Exec(s, q), c, p)
    ensures Exec(s, q).cores[c].pc == s.cores[c].pc
    decreases |q|
  {
    hide Do, Can;
    if q != [] {
      Ignored(s, q[0], c, p);
      IgnoredRun(Do(s, q[0]), q[1..], c, p);
    }
  }

  lemma {:induction false} BootIgnoredRun(s: System, q: seq<Act>, p: BootPc)
    requires Without(q, 0) && Runs(s, q) && s.(boot := p).Shape()
    ensures Exec(s, q).boot == s.boot && Exec(s, q).(boot := p).Shape()
    ensures Runs(BootMoved(s, p), q) && Exec(BootMoved(s, p), q) == BootMoved(Exec(s, q), p)
    decreases |q|
  {
    hide Do, Can;
    if q != [] {
      BootIgnored(s, q[0], p);
      BootIgnoredRun(Do(s, q[0]), q[1..], p);
    }
  }

  // ------------------------------------------------------------ invisible traps

  lemma MovedBack(s: System, c: secondary, p: Pc)
    ensures Moved(Moved(s, c, p), c, s.cores[c].pc) == s
  {
    assert s.cores[c := s.cores[c].(pc := p)][c := s.cores[c]] == s.cores;
    assert s.cores[c := s.cores[c]] == s.cores;
  }

  /** Going into a trap and coming back are moves of the program counter alone. */
  lemma TrapMoves(s: System, c: secondary, n: nat)
    requires s.cores[c].pc.Payload?
    ensures Do(s, CallHvc(c, n)) == Moved(s, c, Hvc(s.cores[c].pc.ctx, n))
    ensures Do(s, TakeFiq(c)) == Moved(s, c, FiqRead(s.cores[c].pc.ctx))
  {}

  lemma NopMoves(s: System, c: secondary)
    ensures s.cores[c].pc.Hvc? && s.cores[c].pc.imm != 0 ==>
      Do(s, Step(c)) == Moved(s, c, Payload(s.cores[c].pc.ctx))
    ensures s.cores[c].pc.FiqRead? ==>
      Do(s, Step(c)) == Moved(s, c, FiqGot(s.cores[c].pc.ctx, s.cores[c].pending))
    ensures s.cores[c].pc.FiqGot? && s.cores[c].pc.bits == {} ==>
      Do(s, Step(c)) == Moved(s, c, Payload(s.cores[c].pc.ctx))
  {}

  /** HVC #n of a secondary, for n other than 0: by the core's next step, whatever the
      others have done in between, everything is as if it had not been executed. */
  lemma HvcNopIsInvisible(s: System, c: secondary, n: nat, q: seq<Act>)
    requires s.cores[c].pc.Payload? && n != 0 && Without(q, c)
    requires Runs(s, [CallHvc(c, n)] + q + [Step(c)])
    ensures Runs(s, q) && Exec(s, [CallHvc(c, n)] + q + [Step(c)]) == Exec(s, q)
    ensures Exec(s, q).cores[c].pc == s.cores[c].pc
  {
    hide Do, Can, Runs, Exec, Moved;
    var ctx := s.cores[c].pc.ctx;
    RunJoin(s, [CallHvc(c, n)] + q, [Step(c)]);
    RunJoin(s, [CallHvc(c, n)], q);
    RunOne(s, CallHvc(c, n));
    TrapMoves(s, c, n);
    var t := Moved(s, c, Hvc(ctx, n));
    MovedBack(s, c, Hvc(ctx, n));
    PcOfMoved(s, c, Hvc(ctx, n));
    IgnoredRun(t, q, c, Payload(ctx));
    RunOne(Exec(t, q), Step(c));
    NopMoves(Exec(t, q), c);
    IgnoredRun(s, q, c, Payload(ctx));
  }

  lemma PcOfMoved(s: System, c: secondary, p: Pc)
    ensures Moved(s, c, p).cores[c] == s.cores[c].(pc := p)
    ensures Moved(s, c, p).(cores := s.cores) == s
    ensures forall k :: 0 <= k < 4 && k != c ==> Moved(s, c, p).cores[k] == s.cores[k]
  {}

  /** So is an FIQ that finds nothing pending in the core's own mailbox. */
  lemma FiqNopIsInvisible(s: System, c: secondary, q: seq<Act>, r: seq<Act>)
    requires s.cores[c].pc.Payload? && Without(q, c) && Without(r, c)
    requires Runs(s, [TakeFiq(c)] + q + [Step(c)] + r + [Step(c)])
    requires Runs(s, q) ==> Exec(s, q).cores[c].pending == {}
    ensures Runs(s, q + r) && Exec(s, [TakeFiq(c)] + q + [Step(c)] + r + [Step(c)]) == Exec(s, q + r)
  {
    hide Do, Can, Runs, Exec, Moved;
    var ctx := s.cores[c].pc.ctx;
    var front := [TakeFiq(c)] + q + [Step(c)];
    RunJoin(s, front + r, [Step(c)]);
    RunJoin(s, front, r);
    RunJoin(s, [TakeFiq(c)] + q, [Step(c)]);
    RunJoin(s, [TakeFiq(c)], q);
    RunOne(s, TakeFiq(c));
    TrapMoves(s, c, 0);
    var t := Moved(s, c, FiqRead(ctx));
    MovedBack(s, c, FiqRead(ctx));
    PcOfMoved(s, c, FiqRead(ctx));
    IgnoredRun(t, q, c, Payload(ctx));
    IgnoredRun(s, q, c, FiqRead(ctx));
    var u := Exec(s, q);
    PcOfMoved(u, c, FiqRead(ctx));
    RunOne(Moved(u, c, FiqRead(ctx)), Step(c));
    NopMoves(Moved(u, c, FiqRead(ctx)), c);
    MovedTwice(u, c, FiqRead(ctx), FiqGot(ctx, {}));
    var v := Moved(u, c, FiqGot(ctx, {}));
    PcOfMoved(u, c, FiqGot(ctx, {}));
    MovedBack(u, c, FiqGot(ctx, {}));
    IgnoredRun(v, r, c, Payload(ctx));
    RunOne(Exec(v, r), Step(c));
    NopMoves(Exec(v, r), c);
    RunJoin(s, q, r);
  }

  lemma MovedTwice(s: System, c: secondary, p: Pc, p': Pc)
    ensures Moved(Moved(s, c, p), c, p') == Moved(s, c, p')
  {
    assert s.cores[c := s.cores[c].(pc := p)][c := s.cores[c].(pc := p')] == s.cores[c := s.cores[c].(pc := p')];
  }

  lemma BootTrapMoves(s: System, n: nat)
    requires s.boot == Running
    ensures Do(s, CallHvc(0, n)) == BootMoved(s, BootHvc(n))
    ensures Do(s, TakeFiq(0)) == BootMoved(s, BootFiqRead)
  {}

  lemma BootNopMoves(s: System)
    ensures s.boot.BootHvc? ==> Do(s, Step(0)) == BootMoved(s, if s.boot.imm == 0 then Scan(1) else Running)
    ensures s.boot.BootFiqRead? ==> Do(s, Step(0)) == BootMoved(s, BootFiqGot(s.cores[0].pending))
    ensures s.boot.BootFiqGot? && s.boot.bits == {} ==> Do(s, Step(0)) == BootMoved(s, Running)
  {}

  /** HVC of the boot core: #0 begins the reload at the core's next step; any other leaves
      no trace. */
  lemma BootHvcTrip(s: System, n: nat, q: seq<Act>)
    requires s.boot == Running && Without(q, 0) && Runs(s, [CallHvc(0, n)] + q + [Step(0)])
    ensures Runs(s, q)
    ensures Exec(s, [CallHvc(0, n)] + q + [Step(0)]) == Exec(s, q).(boot := if n == 0 then Scan(1) else Running)
    ensures Exec(s, q).boot == Running
  {
    hide Do, Can, Runs, Exec;
    RunJoin(s, [CallHvc(0, n)] + q, [Step(0)]);
    RunJoin(s, [CallHvc(0, n)], q);
    RunOne(s, CallHvc(0, n));
    BootTrapMoves(s, n);
    var t := BootMoved(s, BootHvc(n));
    BootIgnoredRun(t, q, Running);
    RunOne(Exec(t, q), Step(0));
    BootNopMoves(Exec(t, q));
    BootIgnoredRun(s, q, Running);
    assert BootMoved(t, Running) == s;
  }

  /** FIQ of the boot core: with nothing pending it leaves no trace; otherwise the reload
      begins, and what was pending when the mailbox was read is cleared. */
  lemma BootFiqTrip(s: System, q: seq<Act>, r: seq<Act>)
    requires s.boot == Running && Without(q, 0) && Without(r, 0)
    requires Runs(s, [TakeFiq(0)] + q + [Step(0)] + r + [Step(0)])
    ensures Runs(s, q + r) && Runs(s, q)
    ensures var t := Exec(s, [TakeFiq(0)] + q + [Step(0)] + r + [Step(0)]);
      var u := Exec(s, q + r);
      var bits := Exec(s, q).cores[0].pending;
      if bits == {} then t == u
      else t == u.(boot := Scan(1), cores := u.cores[0 := u.cores[0].(pending := u.cores[0].pending - bits)])
  {
    hide Do, Can, Runs, Exec;
    var front := [TakeFiq(0)] + q + [Step(0)];
    RunJoin(s, front + r, [Step(0)]);
    RunJoin(s, front, r);
    RunJoin(s, [TakeFiq(0)] + q, [Step(0)]);
    RunJoin(s, [TakeFiq(0)], q);
    RunOne(s, TakeFiq(0));
    BootTrapMoves(s, 0);
    var t := BootMoved(s, BootFiqRead);
    BootIgnoredRun(t, q, Running);
    assert BootMoved(t, Running) == s;
    BootIgnoredRun(s, q, BootFiqRead);
    var u := Exec(s, q);
    RunOne(BootMoved(u, BootFiqRead), Step(0));
    BootNopMoves(BootMoved(u, BootFiqRead));
    var v := BootMoved(u, BootFiqGot(u.cores[0].pending));
    BootIgnoredRun(v, r, Running);
    assert BootMoved(v, Running) == u;
    BootIgnoredRun(u, r, BootFiqGot(u.cores[0].pending));
    RunOne(Exec(v, r), Step(0));
    BootNopMoves(Exec(v, r));
    if u.cores[0].pending != {} { BootGotMoves(Exec(v, r)); }
    RunJoin(s, q, r);
  }

  lemma BootGotMoves(s: System)
    requires s.boot.BootFiqGot? && s.boot.bits != {}
    ensures Do(s, Step(0))
      == s.(boot := Scan(1), cores := s.cores[0 := s.cores[0].(pending := s.cores[0].pending - s.boot.bits)])
  {}
}
