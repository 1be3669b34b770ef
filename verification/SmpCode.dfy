/** The boot core's own code for releasing and quiescing the secondaries, as loops over
    the shared words, with the other cores running in between. Each method is shown to be
    a run of the transition system, so what is proved of every run holds of the code. */
module SmpCode {
  import opened Smp
  import opened Quiesce

  /** `acts` leads from `s` to `t`. */
  ghost predicate Path(s: System, acts: seq<Act>, t: System) {
    Runs(s, acts) && Exec(s, acts) == t
  }

  lemma PathNowhere(s: System)
    ensures Path(s, [], s)
  {}

  lemma {:induction false} PathThen(s: System, p: seq<Act>, t: System, a: Act)
    requires Path(s, p, t) && Can(t, a)
    ensures Path(s, p + [a], Do(t, a))
    decreases |p|
  {
    hide Do, Can;
    if p == [] {
      assert p + [a] == [a] && [a][1..] == [];
      PathNowhere(Do(t, a));
    } else {
      assert (p + [a])[1..] == p[1..] + [a];
      PathThen(Do(s, p[0]), p[1..], t, a);
    }
  }

  lemma SilentGrows(p: seq<Act>, a: Act)
    requires AllSilent(p) && Silent(a)
    ensures AllSilent(p + [a])
  {}

  /** What the other cores do in one pause of the boot core. */
  predicate OthersOnly(acts: seq<Act>) {
    forall i :: 0 <= i < |acts| ==> Actor(acts[i]) != 0
  }

  /** Other cores touch neither the boot core's program counter nor what it publishes. */
  lemma OthersLeave(s: System, a: Act)
    requires Can(s, a) && Actor(a) != 0
    ensures var t := Do(s, a); t.boot == s.boot && t.args == s.args && t.handoff == s.handoff && t.words == s.words
  {
    hide Own;
  }

  class Shared {
    /** Release slots, ACTIVE flags and mailboxes, core by core. */
    const cores: array<Core>
    const handoff: array<nat>
    /** The firmware's spin-table words. */
    const words: array<bool>
    /** Where the boot core stands, and what it was last told to publish. */
    var boot: BootPc
    var args: seq<nat>

    predicate Valid()
      reads this, cores, handoff, words
    {
      System(boot, args, handoff[..], words[..], cores[..]).Shape()
    }

    function View(): System
      requires Valid()
      reads this, cores, handoff, words
    {
      System(boot, args, handoff[..], words[..], cores[..])
    }

    constructor ()
      ensures Valid() && View() == PowerOn() && fresh(cores) && fresh(handoff) && fresh(words)
    {
      cores := new Core[4](_ => Off());
      handoff := new nat[HANDOFF](_ => 0);
      words := new bool[4](_ => false);
      boot := Loading;
      args := seq(HANDOFF, _ => 0);
      new;
      assert cores[..] == PowerOn().cores && words[..] == PowerOn().words && handoff[..] == PowerOn().handoff;
    }

    /** The other cores take their turns; what is not possible does not happen. */
    method Pause(acts: seq<Act>) returns (ghost run: seq<Act>)
      requires Valid() && OthersOnly(acts)
      modifies cores
      ensures Valid() && Path(old(View()), run, View())
      ensures View() == old(View()).(cores := cores[..])
      ensures AllSilent(acts) ==> AllSilent(run)
    {
      hide Do, Can, Path, Silent;
      run := [];
      PathNowhere(View());
      for i := 0 to |acts|
        invariant Valid() && Path(old(View()), run, View())
        invariant View() == old(View()).(cores := cores[..])
        invariant AllSilent(acts) ==> AllSilent(run)
      {
        var s := View();
        if Can(s, acts[i]) {
          OthersLeave(s, acts[i]);
          PathThen(old(View()), run, s, acts[i]);
          if AllSilent(acts) { SilentGrows(run, acts[i]); }
          var t := Do(s, acts[i]);
          forall c | 0 <= c < cores.Length { cores[c] := t.cores[c]; }
          assert cores[..] == t.cores;
          assert View() == t;
          run := run + [acts[i]];
        }
      }
    }

    /** A pause, on top of a run so far. */
    method Rest(acts: seq<Act>, ghost from: System, ghost run: seq<Act>) returns (ghost longer: seq<Act>)
      requires Valid() && OthersOnly(acts) && Path(from, run, View())
      modifies cores
      ensures Valid() && Path(from, longer, View())
      ensures View() == old(View()).(cores := cores[..])
      ensures AllSilent(acts) && AllSilent(run) ==> AllSilent(longer)
    {
      hide Path;
      ghost var s := View();
      ghost var more := Pause(acts);
      PathJoin(from, run, s, more, View());
      longer := run + more;
    }

    method PublishAll(env: seq<seq<Act>>, ghost from: System, ghost was: seq<Act>) returns (ghost run: seq<Act>)
      requires Valid() && boot == Publish(0) && AllOthers(env) && Path(from, was, View())
      modifies this`boot, cores, handoff
      ensures Valid() && Path(from, run, View()) && boot == ZeroSlot(0) && handoff[..] == args
    {
      hide Path, Own, Advance;
      run := was;
      for i := 0 to HANDOFF
        invariant Valid() && Path(from, run, View())
        invariant boot == if i < HANDOFF then Publish(i) else ZeroSlot(0)
        invariant handoff[..i] == args[..i]
      {
        run := Rest(Turn(env, i), from, run);
        ghost var s := View();
        handoff[i] := args[i];
        boot := if i + 1 < HANDOFF then Publish(i + 1) else ZeroSlot(0);
        assert View() == Do(s, Step(0));
        assert handoff[..i + 1] == args[..i + 1];
        PathThen(from, run, s, Step(0));
        run := run + [Step(0)];
      }
      assert handoff[..] == handoff[..HANDOFF] && args[..HANDOFF] == args;
    }

    method ClearSlots(env: seq<seq<Act>>, ghost from: System, ghost was: seq<Act>) returns (ghost run: seq<Act>)
      requires Valid() && boot == ZeroSlot(0) && AllOthers(env) && Path(from, was, View())
      modifies this`boot, cores
      ensures Valid() && Path(from, run, View()) && boot == Word(1)
    {
      hide Path, Own, Advance;
      run := was;
      for k := 0 to 4
        invariant Valid() && Path(from, run, View())
        invariant boot == if k < 4 then ZeroSlot(k) else Word(1)
      {
        run := Rest(Turn(env, HANDOFF + k), from, run);
        ghost var s := View();
        cores[k] := cores[k].(slot := 0);
        boot := if k < 3 then ZeroSlot(k + 1) else Word(1);
        assert View() == Do(s, Step(0));
        PathThen(from, run, s, Step(0));
        run := run + [Step(0)];
      }
    }

    method WriteWords(env: seq<seq<Act>>, ghost from: System, ghost was: seq<Act>) returns (ghost run: seq<Act>)
      requires Valid() && boot == Word(1) && AllOthers(env) && Path(from, was, View())
      modifies this`boot, cores, words
      ensures Valid() && Path(from, run, View()) && boot == Running
    {
      hide Path, Own, Advance;
      run := was;
      for k := 1 to 4
        invariant Valid() && Path(from, run, View())
        invariant boot == if k < 4 then Word(k) else Running
      {
        run := Rest(Turn(env, HANDOFF + 3 + k), from, run);
        ghost var s := View();
        words[k] := true;
        boot := if k < 3 then Word(k + 1) else Running;
        assert View() == Do(s, Step(0));
        PathThen(from, run, s, Step(0));
        run := run + [Step(0)];
      }
    }

    /** `release`: publish the handoff, clear the slots, write the spin-table words, with
        the other cores running before every store. */
    method Release(a: seq<nat>, env: seq<seq<Act>>) returns (ghost run: seq<Act>)
      requires Valid() && boot == Loading && |a| == HANDOFF && AllOthers(env)
      modifies this, cores, handoff, words
      ensures Valid() && Path(old(View()), run, View())
      ensures boot == Running && args == a && handoff[..] == a
    {
      hide Path, Own, Advance;
      ghost var from := View();
      PathNowhere(from);
      PathThen(from, [], from, Launch(a));
      args := a;
      boot := Publish(0);
      run := PublishAll(env, from, [] + [Launch(a)]);
      run := ClearSlots(env, from, run);
      run := WriteWords(env, from, run);
    }

    /** The first loop: ring every core found active. */
    method Scanning(env: seq<seq<Act>>) returns (ghost run: seq<Act>)
      requires Valid() && boot == Scan(1) && AllOthers(env)
      modifies this`boot, cores
      ensures Valid() && Path(old(View()), run, View()) && boot == BootPc.Wait(1)
      ensures AllQuiet(env) ==> AllSilent(run)
    {
      hide Path, Own, Advance;
      ghost var from := View();
      PathNowhere(from);
      run := [];
      for k := 1 to 4
        invariant Valid() && Path(from, run, View()) && (AllQuiet(env) ==> AllSilent(run))
        invariant boot == if k < 4 then Scan(k) else BootPc.Wait(1)
      {
        run := Rest(Turn(env, 2 * k - 2), from, run);
        ghost var s := View();
        var active := cores[k].active;
        boot := if active then RingAt(k) else AfterScan(k);
        assert View() == Do(s, Step(0));
        PathThen(from, run, s, Step(0));
        run := run + [Step(0)];
        if active {
          run := Rest(Turn(env, 2 * k - 1), from, run);
          s := View();
          cores[k] := Rung(cores[k], 0);
          boot := AfterScan(k);
          assert View() == Do(s, Step(0));
          PathThen(from, run, s, Step(0));
          run := run + [Step(0)];
        }
      }
    }

    /** The second loop's body: poll one core until its flag is clear. */
    method Polling(k: nat, env: seq<seq<Act>>, t: nat, ghost from: System, ghost was: seq<Act>)
      returns (done: bool, ghost run: seq<Act>, now: nat)
      requires Valid() && 1 <= k <= 3 && boot == BootPc.Wait(k) && AllOthers(env) && Path(from, was, View())
      modifies this`boot, cores
      ensures Valid() && Path(from, run, View())
      ensures boot == if done then (if k < 3 then BootPc.Wait(k + 1) else Flush) else BootPc.Wait(k)
      ensures AllQuiet(env) && AllSilent(was) ==> AllSilent(run)
    {
      hide Path, Own, Advance;
      run, now := was, t;
      while now < |env|
        invariant Valid() && boot == BootPc.Wait(k) && Path(from, run, View())
        invariant AllQuiet(env) && AllSilent(was) ==> AllSilent(run)
      {
        run := Rest(Turn(env, now), from, run);
        now := now + 1;
        ghost var s := View();
        PathThen(from, run, s, Step(0));
        run := run + [Step(0)];
        if !cores[k].active {
          boot := if k < 3 then BootPc.Wait(k + 1) else Flush;
          assert View() == Do(s, Step(0));
          return true, run, now;
        }
        assert View() == Do(s, Step(0));
      }
      done := false;
    }

    /** `quiesce_secondaries`: ring every core found active, then poll each in turn. The
        other cores run before every access; when `env` gives no more turns the poll has
        not ended. */
    method Quiesce(env: seq<seq<Act>>) returns (done: bool, ghost run: seq<Act>)
      requires Valid() && boot == Scan(1) && AllOthers(env)
      modifies this`boot, cores
      ensures Valid() && Path(old(View()), run, View())
      ensures if done then boot == Flush else boot.Wait?
      ensures done && Flags(old(View())) && NoStart(old(View())) && AllQuiet(env) ==> AllDown(View())
    {
      ghost var from := View();
      run := Scanning(env);
      var t := 6;
      done := true;
      ghost var quiet := AllQuiet(env);
      for k := 1 to 4
        invariant Valid() && Path(from, run, View()) && (quiet ==> AllSilent(run))
        invariant if done then boot == (if k < 4 then BootPc.Wait(k) else Flush) else boot.Wait?
      {
        if done {
          done, run, t := Polling(k, env, t, from, run);
        }
      }
      if done && Flags(from) && NoStart(from) && quiet {
        hide Flags, NoStart, Runs, Exec;
        QuiesceIsSafe(from, run);
      }
    }
  }

  predicate AllOthers(env: seq<seq<Act>>) {
    forall i :: 0 <= i < |env| ==> OthersOnly(env[i])
  }

  predicate AllQuiet(env: seq<seq<Act>>) {
    forall i :: 0 <= i < |env| ==> AllSilent(env[i])
  }

  /** The other cores' turns at pause `i`. */
  function Turn(env: seq<seq<Act>>, i: nat): (acts: seq<Act>)
    ensures AllOthers(env) ==> OthersOnly(acts)
    ensures AllQuiet(env) ==> AllSilent(acts)
  {
    if i < |env| then env[i] else []
  }

  lemma {:induction false} PathJoin(s: System, p: seq<Act>, t: System, q: seq<Act>, u: System)
    requires Path(s, p, t) && Path(t, q, u)
    ensures Path(s, p + q, u)
    decreases |p|
  {
    hide Do, Can;
    if p == [] {
      assert p + q == q;
    } else {
      assert (p + q)[1..] == p[1..] + q;
      PathJoin(Do(s, p[0]), p[1..], t, q, u);
    }
  }
}
