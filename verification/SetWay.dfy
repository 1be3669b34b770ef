/** Cache maintenance by set and way: the loop that steps fields down by precomputed
    increments, against the plain nested counters.

    Registers are 64-bit numbers; `Or` is the bitwise OR, `Ge` the signed condition
    that `b.ge` tests after `subs`. */
module SetWay {

  const R64: nat := 0x1_0000_0000_0000_0000

  type reg = n: nat | n < 0x1_0000_0000_0000_0000

  function Pow2(k: nat): (p: nat)
    ensures p >= 1
  {
    if k == 0 then 1 else 2 * Pow2(k - 1)
  }

  /** Bit by bit. */
  function Or(a: nat, b: nat): nat
    decreases a + b
  {
    if a == 0 then b
    else if b == 0 then a
    else (if a % 2 == 1 || b % 2 == 1 then 1 else 0) + 2 * Or(a / 2, b / 2)
  }

  function Signed(x: reg): int { if x < R64 / 2 then x else x - R64 }

  function Ge(a: reg, b: reg): bool { Signed(a) >= Signed(b) }

  function Sub(a: reg, b: reg): reg { (a - b) % R64 }

  function BitLen(w: nat): nat { if w == 0 then 0 else 1 + BitLen(w / 2) }

  /** Leading zeros of a 32-bit register. */
  function Clz32(w: nat): nat
    requires w < 0x1_0000_0000
  {
    BitLenBound(w, 32);
    32 - BitLen(w)
  }

  // ------------------------------------------------------------------- geometry

  /** The fields of CCSIDR_EL1 and what both loops compute from them. */
  datatype Geometry = Geometry(line: nat, maxWay: nat, maxSet: nat)
  {
    ghost predicate Valid() { line < 8 && maxWay < 0x400 && maxSet < 0x8000 }

    function SetShift(): nat { line + 4 }

    function WayShift(): nat
      requires maxWay < 0x400
    {
      Clz32(maxWay)
    }
  }

  function Geo(ccsidr: reg): (g: Geometry)
    ensures g.Valid()
  {
    Geometry(ccsidr % 8, ccsidr / 8 % 0x400, ccsidr / 0x2000 % 0x8000)
  }

  function Lsl(a: nat, k: nat): nat { a * Pow2(k) }

  /** The operand for one (set, way) pair of a level. */
  function Operand(g: Geometry, level: nat, set_: nat, way: nat): nat
    requires g.Valid()
  {
    Or(Or(2 * level, Lsl(way, g.WayShift())), Lsl(set_, g.SetShift()))
  }

  /** Ways `n - 1` down to 0 of one set. */
  function Row(g: Geometry, level: nat, set_: nat, n: nat): seq<nat>
    requires g.Valid()
  {
    if n == 0 then [] else [Operand(g, level, set_, n - 1)] + Row(g, level, set_, n - 1)
  }

  /** Sets `m - 1` down to 0, each with all its ways. */
  function Grid(g: Geometry, level: nat, m: nat): seq<nat>
    requires g.Valid()
  {
    if m == 0 then [] else Row(g, level, m - 1, g.maxWay + 1) + Grid(g, level, m - 1)
  }

  // ------------------------------------------------------------------- bit facts

  lemma {:induction false} BitLenBound(w: nat, k: nat)
    requires w < Pow2(k) || (k == 32 && w < 0x1_0000_0000)
    ensures BitLen(w) <= k
    decreases k
  {
    Pow32();
    if w > 0 { BitLenBound(w / 2, k - 1); }
  }

  lemma Pow32()
    ensures Pow2(32) == 0x1_0000_0000
  {
    assert Pow2(8) == 256;
    assert Pow2(16) == 256 * Pow2(8) by { PowSum(8, 8); }
    PowSum(16, 16);
  }

  lemma {:induction false} PowSum(a: nat, b: nat)
    ensures Pow2(a + b) == Pow2(a) * Pow2(b)
  {
    if a > 0 {
      PowSum(a - 1, b);
    }
  }

  lemma {:induction false} BitLenExact(w: nat)
    ensures w < Pow2(BitLen(w))
    ensures w > 0 ==> Pow2(BitLen(w) - 1) <= w
  {
    if w > 1 { BitLenExact(w / 2); }
  }

  lemma OrZero(a: nat)
    ensures Or(a, 0) == a && Or(0, a) == a
  {}

  lemma {:induction false} OrCommutes(a: nat, b: nat)
    ensures Or(a, b) == Or(b, a)
    decreases a + b
  {
    if a != 0 && b != 0 { OrCommutes(a / 2, b / 2); }
  }

  /** Fields that do not overlap are added. */
  lemma {:induction false} OrAdds(hi: nat, lo: nat, k: nat)
    requires lo < Pow2(k)
    ensures Or(Lsl(hi, k), lo) == Lsl(hi, k) + lo
    decreases k
  {
    if k > 0 && hi != 0 && lo != 0 {
      var h := Lsl(hi, k - 1);
      assert Lsl(hi, k) == 2 * h;
      OrAdds(hi, lo / 2, k - 1);
      assert 2 * h / 2 == h;
    }
  }

  lemma {:induction false} OrSame(a: nat)
    ensures Or(a, a) == a
    decreases a
  {
    if a != 0 { OrSame(a / 2); }
  }

  // -------------------------------------------------------------- field arithmetic

  lemma {:induction false} PowMonotone(a: nat, b: nat)
    requires a <= b
    ensures Pow2(a) <= Pow2(b)
    decreases b
  {
    if a < b { PowMonotone(a, b - 1); }
  }

  lemma MulMonotone(a: nat, b: nat, p: nat)
    requires a <= b
    ensures a * p <= b * p
  {}

  /** The top of each field, and one step of it, stay far below the sign bit. */
  lemma FieldsFit(g: Geometry)
    requires g.Valid()
    ensures 22 <= g.WayShift() <= 32
    ensures Lsl(g.maxWay, g.WayShift()) <= 0x1_0000_0000 && Lsl(1, g.WayShift()) <= 0x1_0000_0000
    ensures Lsl(g.maxSet, g.SetShift()) < 0x400_0000 && Lsl(1, g.SetShift()) <= 0x800
  {
    TenBits(g.maxWay);
    Pow32();
    var n, k := BitLen(g.maxWay), g.WayShift();
    BitLenExact(g.maxWay);
    PowSum(n, k);
    MulMonotone(g.maxWay, Pow2(n), Pow2(k));
    PowMonotone(k, 32);
    PowMonotone(g.SetShift(), 11);
    PowEleven();
    SetFieldFits(g.maxSet, Pow2(g.SetShift()));
  }

  lemma SetFieldFits(n: nat, p: nat)
    requires n < 0x8000 && p <= 0x800
    ensures n * p < 0x400_0000
  {
    MulMonotone(n, 0x7fff, p);
  }

  lemma PowEleven()
    ensures Pow2(11) == 0x800
  {
    assert Pow2(6) == 64;
  }

  lemma TenBits(w: nat)
    requires w < 0x400
    ensures BitLen(w) <= 10
  {
    assert Pow2(5) == 32;
    assert Pow2(10) == 0x400;
    BitLenBound(w, 10);
  }

  /** One decrement of a field, with the flag it leaves. */
  lemma StepDown(w: nat, k: nat)
    requires Lsl(w, k) < R64 / 2 && Lsl(1, k) < R64 / 2
    ensures Ge(Lsl(w, k), Lsl(1, k)) <==> w >= 1
    ensures w >= 1 ==> Sub(Lsl(w, k), Lsl(1, k)) == Lsl(w - 1, k)
  {
    var p := Pow2(k);
    if w >= 1 {
      assert (w - 1) * p == w * p - p;
      MulMonotone(1, w, p);
    } else {
      assert Lsl(w, k) == 0;
    }
  }

  lemma LslMonotone(a: nat, b: nat, k: nat)
    requires a <= b
    ensures Lsl(a, k) <= Lsl(b, k)
  {
    MulMonotone(a, b, Pow2(k));
  }

  // ------------------------------------------------------------------ the FIQ's loop

  lemma LevelOneOperand(g: Geometry, set_: nat, way: nat)
    requires g.Valid()
    ensures Or(Lsl(set_, g.SetShift()), Lsl(way, g.WayShift())) == Operand(g, 0, set_, way)
  {
    hide Lsl, Or;
    OrZero(Lsl(way, g.WayShift()));
    OrCommutes(Lsl(set_, g.SetShift()), Lsl(way, g.WayShift()));
  }

  /** The inner loop: one set, all ways, by subtracting the way step. */
  method StepWays(g: Geometry, ghost set_: nat, x7: reg, x4: reg, x6: reg) returns (issued: seq<nat>)
    requires g.Valid() && x7 == Lsl(set_, g.SetShift())
    requires x4 == Lsl(g.maxWay, g.WayShift()) && x6 == Lsl(1, g.WayShift())
    ensures issued == Row(g, 0, set_, g.maxWay + 1)
  {
    hide Lsl, Or, Operand, Ge, Sub;
    FieldsFit(g);
    issued := [];
    var x9 := x4;
    ghost var way: nat := g.maxWay;
    var more := true;
    while more
      invariant way <= g.maxWay
      invariant more ==>
        x9 == Lsl(way, g.WayShift()) && issued + Row(g, 0, set_, way + 1) == Row(g, 0, set_, g.maxWay + 1)
      invariant !more ==> issued == Row(g, 0, set_, g.maxWay + 1)
      decreases more, way
    {
      LevelOneOperand(g, set_, way);
      LslMonotone(way, g.maxWay, g.WayShift());
      StepDown(way, g.WayShift());
      ghost var before := issued;
      issued := issued + [Or(x7, x9)];
      assert issued + Row(g, 0, set_, way) == before + Row(g, 0, set_, way + 1);
      more := Ge(x9, x6);
      x9 := Sub(x9, x6);
      if more {
        way := way - 1;
      } else {
        assert issued + [] == issued;
      }
    }
  }

  /** The level-1 sweep of the FIQ path. It terminates, and issues the grid. */
  method StepSweep(ccsidr: reg) returns (issued: seq<nat>)
    ensures issued == Grid(Geo(ccsidr), 0, Geo(ccsidr).maxSet + 1)
  {
    hide Lsl, Row, Ge, Sub;
    var g := Geo(ccsidr);
    FieldsFit(g);
    var x2 := g.SetShift();
    var x5 := g.WayShift();
    var x6: reg := Lsl(1, x5);
    var x4: reg := Lsl(g.maxWay, x5);
    var x3: reg := Lsl(1, x2);
    var x7: reg := Lsl(g.maxSet, x2);
    ghost var all := Grid(g, 0, g.maxSet + 1);
    ghost var set_: nat := g.maxSet;
    issued := [];
    var more := true;
    while more
      invariant set_ <= g.maxSet
      invariant more ==> x7 == Lsl(set_, x2) && issued + Grid(g, 0, set_ + 1) == all
      invariant !more ==> issued == all
      decreases more, set_
    {
      LslMonotone(set_, g.maxSet, x2);
      StepDown(set_, x2);
      var row := StepWays(g, set_, x7, x4, x6);
      ghost var before := issued;
      issued := issued + row;
      assert issued + Grid(g, 0, set_) == before + Grid(g, 0, set_ + 1);
      more := Ge(x7, x3);
      x7 := Sub(x7, x3);
      if more {
        set_ := set_ - 1;
      } else {
        assert issued + [] == issued;
      }
    }
  }

  // ------------------------------------------------------------- the full flush

  /** Whether CLIDR_EL1 gives level `l` a data cache. */
  predicate HasData(clidr: reg, l: nat) { clidr / Pow2(3 * l) % 8 >= 2 }

  function Coherence(clidr: reg): nat { clidr / 0x100_0000 % 8 }

  /** The inner counter loop: one set, all ways. */
  method CountWays(g: Geometry, x10: nat, level: nat, set_: nat) returns (issued: seq<nat>)
    requires g.Valid() && x10 == 2 * level
    ensures issued == Row(g, level, set_, g.maxWay + 1)
  {
    hide Or, Lsl;
    issued := [];
    var x9: int := g.maxWay;
    while x9 >= 0
      invariant -1 <= x9 <= g.maxWay
      invariant issued + Row(g, level, set_, x9 + 1) == Row(g, level, set_, g.maxWay + 1)
    {
      ghost var was := issued;
      issued := issued + [Or(Or(x10, Lsl(x9, g.WayShift())), Lsl(set_, g.SetShift()))];
      assert issued + Row(g, level, set_, x9) == was + Row(g, level, set_, x9 + 1);
      x9 := x9 - 1;
    }
    assert issued + [] == issued;
  }

  /** One level by nested counters. */
  method CounterSweep(g: Geometry, x10: nat, level: nat) returns (issued: seq<nat>)
    requires g.Valid() && x10 == 2 * level
    ensures issued == Grid(g, level, g.maxSet + 1)
  {
    hide Row;
    issued := [];
    var x7: int := g.maxSet;
    while x7 >= 0
      invariant -1 <= x7 <= g.maxSet
      invariant issued + Grid(g, level, x7 + 1) == Grid(g, level, g.maxSet + 1)
    {
      var row := CountWays(g, x10, level, x7);
      ghost var before := issued;
      issued := issued + row;
      assert issued + Grid(g, level, x7) == before + Grid(g, level, x7 + 1);
      x7 := x7 - 1;
    }
    assert issued + [] == issued;
  }

  /** What one level contributes to the flush. */
  function LevelOps(clidr: reg, ccsidrOf: nat -> reg, l: nat): seq<nat> {
    if HasData(clidr, l) then Grid(Geo(ccsidrOf(l)), l, Geo(ccsidrOf(l)).maxSet + 1) else []
  }

  /** Every operand of the levels from `l` up to the point of coherence. */
  function LevelsFrom(clidr: reg, ccsidrOf: nat -> reg, l: nat): seq<nat>
    decreases Coherence(clidr) - l
  {
    if l >= Coherence(clidr) then [] else LevelOps(clidr, ccsidrOf, l) + LevelsFrom(clidr, ccsidrOf, l + 1)
  }

  method FlushLevel(clidr: reg, ccsidrOf: nat -> reg, x10: nat, l: nat) returns (issued: seq<nat>)
    requires x10 == 2 * l
    ensures issued == LevelOps(clidr, ccsidrOf, l)
  {
    hide Geo, HasData, Grid;
    if !HasData(clidr, l) {
      return [];
    }
    issued := CounterSweep(Geo(ccsidrOf(l)), x10, l);
  }

  /** `flush_dcache_all`: every level with a data cache below the point of coherence. */
  method FlushAll(clidr: reg, ccsidrOf: nat -> reg) returns (issued: seq<nat>)
    ensures issued == LevelsFrom(clidr, ccsidrOf, 0)
  {
    hide LevelOps, Coherence;
    issued := [];
    var x3 := Coherence(clidr) * 2;
    if x3 == 0 {
      return;
    }
    var x10 := 0;
    ghost var l: nat := 0;
    ghost var all := LevelsFrom(clidr, ccsidrOf, 0);
    while x3 > x10
      invariant x10 == 2 * l && l <= Coherence(clidr)
      invariant issued + LevelsFrom(clidr, ccsidrOf, l) == all
    {
      var ops := FlushLevel(clidr, ccsidrOf, x10, x10 / 2);
      ghost var before := issued;
      issued := issued + ops;
      assert issued + LevelsFrom(clidr, ccsidrOf, l + 1) == before + LevelsFrom(clidr, ccsidrOf, l);
      x10 := x10 + 2;
      l := l + 1;
    }
    assert issued + [] == issued;
  }

  // --------------------------------------------------------------- what is issued

  lemma {:induction false} RowAt(g: Geometry, level: nat, set_: nat, n: nat, way: nat)
    requires g.Valid() && way < n
    ensures |Row(g, level, set_, n)| == n && Row(g, level, set_, n)[n - 1 - way] == Operand(g, level, set_, way)
    decreases n
  {
    hide Operand;
    if way < n - 1 {
      RowAt(g, level, set_, n - 1, way);
    } else if n > 1 {
      RowAt(g, level, set_, n - 1, 0);
    }
  }

  /** The place of a pair in the grid. */
  function Place(g: Geometry, m: nat, set_: nat, way: nat): int {
    (m - 1 - set_) * (g.maxWay + 1) + (g.maxWay - way)
  }

  lemma PlaceShifts(g: Geometry, m: nat, set_: nat, way: nat)
    requires m >= 1 && set_ < m - 1
    ensures Place(g, m, set_, way) == g.maxWay + 1 + Place(g, m - 1, set_, way)
    ensures m * (g.maxWay + 1) == g.maxWay + 1 + (m - 1) * (g.maxWay + 1)
  {
    var w := g.maxWay + 1;
    assert (m - 1 - set_) * w == w + (m - 2 - set_) * w;
    assert m * w == w + (m - 1) * w;
  }

  /** The sweep issues one operand for every pair: `(maxSet + 1) * (maxWay + 1)` of them,
      each pair's at its own place. */
  lemma {:induction false} GridAt(g: Geometry, level: nat, m: nat, set_: nat, way: nat)
    requires g.Valid() && set_ < m && way <= g.maxWay
    ensures |Grid(g, level, m)| == m * (g.maxWay + 1)
    ensures 0 <= Place(g, m, set_, way) < |Grid(g, level, m)|
    ensures Grid(g, level, m)[Place(g, m, set_, way)] == Operand(g, level, set_, way)
    decreases m
  {
    hide Operand, Place;
    var w := g.maxWay + 1;
    RowAt(g, level, m - 1, w, way);
    if set_ < m - 1 {
      GridAt(g, level, m - 1, set_, way);
      PlaceShifts(g, m, set_, way);
    } else {
      TopPlace(g, m, way);
      if m > 1 {
        GridAt(g, level, m - 1, 0, way);
        PlaceShifts(g, m, 0, way);
      }
    }
  }

  lemma TopPlace(g: Geometry, m: nat, way: nat)
    requires m >= 1 && way <= g.maxWay
    ensures Place(g, m, m - 1, way) == g.maxWay - way
    ensures m * (g.maxWay + 1) >= g.maxWay + 1 && 1 * (g.maxWay + 1) == g.maxWay + 1
  {
    MulMonotone(1, m, g.maxWay + 1);
  }

  // -------------------------------------------------------------- one pair, one operand

  /** The set field ends below the way field. */
  predicate Apart(g: Geometry)
    requires g.Valid()
  {
    Lsl(g.maxSet, g.SetShift()) < Pow2(g.WayShift())
  }

  ghost predicate Distinct(g: Geometry)
    requires g.Valid()
  {
    forall s: nat, w: nat, s': nat, w': nat ::
      (s <= g.maxSet && s' <= g.maxSet && w <= g.maxWay && w' <= g.maxWay
       && Operand(g, 0, s, w) == Operand(g, 0, s', w')) ==> s == s' && w == w'
  }

  lemma ApartOperand(g: Geometry, s: nat, w: nat)
    requires g.Valid() && Apart(g) && s <= g.maxSet
    ensures Operand(g, 0, s, w) == Lsl(w, g.WayShift()) + Lsl(s, g.SetShift())
    ensures Lsl(s, g.SetShift()) < Pow2(g.WayShift())
  {
    OrZero(Lsl(w, g.WayShift()));
    LslMonotone(s, g.maxSet, g.SetShift());
    OrAdds(w, Lsl(s, g.SetShift()), g.WayShift());
  }

  lemma FieldsOrder(w: nat, w': nat, lo: nat, p: nat)
    requires lo < p
    ensures w < w' ==> w * p + lo < w' * p
  {
    if w < w' {
      MulMonotone(w + 1, w', p);
      assert (w + 1) * p == w * p + p;
    }
  }

  lemma FieldsUnique(w: nat, w': nat, lo: nat, lo': nat, p: nat)
    requires lo < p && lo' < p && w * p + lo == w' * p + lo'
    ensures w == w' && lo == lo'
  {
    FieldsOrder(w, w', lo, p);
    FieldsOrder(w', w, lo', p);
  }

  lemma MulLess(a: nat, b: nat, p: nat)
    requires p >= 1
    ensures a < b ==> a * p < b * p
  {
    FieldsOrder(a, b, 0, p);
  }

  lemma Cancel(a: nat, b: nat, p: nat)
    requires a * p == b * p && p >= 1
    ensures a == b
  {
    MulLess(a, b, p);
    MulLess(b, a, p);
  }

  lemma SamePair(g: Geometry, s: nat, w: nat, s': nat, w': nat)
    requires g.Valid() && Apart(g) && s <= g.maxSet && s' <= g.maxSet
    requires Operand(g, 0, s, w) == Operand(g, 0, s', w')
    ensures s == s' && w == w'
  {
    hide Operand, Pow2;
    ApartOperand(g, s, w);
    ApartOperand(g, s', w');
    FieldsUnique(w, w', Lsl(s, g.SetShift()), Lsl(s', g.SetShift()), Pow2(g.WayShift()));
    Cancel(s, s', Pow2(g.SetShift()));
  }

  /** With one way the shift is 32, beyond any set field. */
  lemma OneWayIsApart(g: Geometry)
    requires g.Valid()
    ensures g.maxWay == 0 ==> Apart(g)
  {
    FieldsFit(g);
    Pow32();
  }

  /** Overlapping fields make two sets share an operand. */
  lemma Collide(g: Geometry) returns (s: nat)
    requires g.Valid() && !Apart(g)
    ensures 0 < s <= g.maxSet && g.maxWay >= 1 && Operand(g, 0, s, 1) == Operand(g, 0, 0, 1)
  {
    FieldsFit(g);
    Pow32();
    var k, j := g.WayShift(), g.SetShift();
    s := Pow2(k - j);
    PowSum(k - j, j);
    assert Lsl(s, j) == Pow2(k) == Lsl(1, k);
    MulLess(g.maxSet, s, Pow2(j));
    OneWayIsApart(g);
    LevelOneOperand(g, s, 1);
    LevelOneOperand(g, 0, 1);
    OrSame(Lsl(1, k));
    OrZero(Lsl(1, k));
    assert Lsl(0, j) == 0;
  }

  /** No two pairs share an operand if and only if the fields do not overlap. */
  lemma DistinctIff(g: Geometry)
    requires g.Valid()
    ensures Distinct(g) <==> Apart(g)
  {
    hide Operand, Apart;
    if Apart(g) {
      forall s: nat, w: nat, s': nat, w': nat
        | s <= g.maxSet && s' <= g.maxSet && w <= g.maxWay && w' <= g.maxWay
          && Operand(g, 0, s, w) == Operand(g, 0, s', w')
        ensures s == s' && w == w'
      {
        SamePair(g, s, w, s', w');
      }
    } else {
      var s := Collide(g);
    }
  }

  /** The two sweeps agree: when level 1 is the only data cache below the point of
      coherence, the full flush issues just what the FIQ's loop issues; in general it
      begins with that. */
  lemma StepIsCounter(clidr: reg, ccsidrOf: nat -> reg)
    requires Coherence(clidr) >= 1 && HasData(clidr, 0)
    ensures var grid := Grid(Geo(ccsidrOf(0)), 0, Geo(ccsidrOf(0)).maxSet + 1);
      && grid <= LevelsFrom(clidr, ccsidrOf, 0)
      && (Coherence(clidr) == 1 ==> LevelsFrom(clidr, ccsidrOf, 0) == grid)
  {
    hide Grid, Geo;
  }
}
