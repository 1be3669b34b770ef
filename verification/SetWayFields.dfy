/** What the operands of the sweeps mean to the hardware: the geometry from the fields of
    the ID registers, and level, set and way back from every operand, at every level. */
module SetWayFields {
  import opened SetWay

  // ------------------------------------------------------------------ ID registers

  /** CCSIDR_EL1 from its architectural fields: LineSize in bits 2 to 0, Associativity in
      bits 12 to 3, NumSets in bits 27 to 13, and whatever is above. */
  function Ccsidr(line: nat, ways: nat, sets: nat, above: nat): nat {
    line + 8 * ways + 0x2000 * sets + 0x1000_0000 * above
  }

  lemma Peel(lo: nat, d: nat, hi: nat)
    requires lo < d
    ensures (lo + d * hi) % d == lo && (lo + d * hi) / d == hi
  {
    var n := lo + d * hi;
    var q, r := n / d, n % d;
    assert n == d * q + r;
    if q < hi {
      Far(d, q, hi);
    } else if hi < q {
      Far(d, hi, q);
    }
  }

  lemma Far(d: nat, a: nat, b: nat)
    requires a < b
    ensures d * b >= d * a + d
  {
    var k := b - a;
    assert d * b == d * a + d * k;
    assert d * k == d + d * (k - 1);
  }

  /** The code reads exactly those fields. */
  lemma CcsidrFields(line: nat, ways: nat, sets: nat, above: nat)
    requires line < 8 && ways < 0x400 && sets < 0x8000 && Ccsidr(line, ways, sets, above) < R64
    ensures Geo(Ccsidr(line, ways, sets, above)) == Geometry(line, ways, sets)
  {
    var x := Ccsidr(line, ways, sets, above);
    Peel(line, 8, ways + 0x400 * (sets + 0x8000 * above));
    Peel(ways, 0x400, sets + 0x8000 * above);
    Peel(sets, 0x8000, above);
    Peel(line + 8 * ways, 0x2000, sets + 0x8000 * above);
    assert x == line + 8 * (ways + 0x400 * (sets + 0x8000 * above));
    assert x == line + 8 * ways + 0x2000 * (sets + 0x8000 * above);
  }

  /** CLIDR_EL1's cache type of level `l` is its bits 3l to 3l + 2; 2, 3 and above have a
      data cache. */
  lemma HasDataIff(clidr: reg, l: nat, below: nat, ctype: nat, above: nat)
    requires ctype < 8 && below < Pow2(3 * l) && clidr == below + Pow2(3 * l) * (ctype + 8 * above)
    ensures HasData(clidr, l) <==> ctype >= 2
  {
    hide Pow2;
    Peel(below, Pow2(3 * l), ctype + 8 * above);
    Peel(ctype, 8, above);
  }

  /** Its level of coherence is bits 24 to 26. */
  lemma CoherenceIs(clidr: reg, below: nat, loc: nat, above: nat)
    requires loc < 8 && below < 0x100_0000 && clidr == below + 0x100_0000 * (loc + 8 * above)
    ensures Coherence(clidr) == loc
  {
    Peel(below, 0x100_0000, loc + 8 * above);
    Peel(loc, 8, above);
  }

  // ------------------------------------------------------------------ place values

  /** Bytes in a line: LineSize is the log of its size in words, less 2. */
  function LineBytes(g: Geometry): nat { 16 * Pow2(g.line) }

  /** What one way is worth: ways are numbered in as few bits as will do, at the top of a
      32-bit word. */
  ghost predicate WayPlace(g: Geometry, p: nat) {
    exists k :: 0 <= k <= 10 && TopBits(g, p, k)
  }

  predicate TopBits(g: Geometry, p: nat, k: nat) {
    p * Pow2(k) == 0x1_0000_0000 && g.maxWay < Pow2(k) && (k > 0 ==> Pow2(k - 1) <= g.maxWay)
  }

  lemma LinePlace(g: Geometry)
    requires g.Valid()
    ensures Pow2(g.SetShift()) == LineBytes(g)
  {
    PowSum(g.line, 4);
    assert Pow2(4) == 16;
  }

  lemma PlaceOfWay(g: Geometry)
    requires g.Valid()
    ensures WayPlace(g, Pow2(g.WayShift()))
  {
    hide Pow2;
    var k := BitLen(g.maxWay);
    TenBits(g.maxWay);
    BitLenExact(g.maxWay);
    Pow32();
    PowSum(32 - k, k);
    assert TopBits(g, Pow2(32 - k), k) by { NoBits(g.maxWay); }
  }

  lemma NoBits(w: nat)
    ensures BitLen(w) == 0 <==> w == 0
  {}

  lemma OneWidth(g: Geometry, p: nat, j: nat, q: nat, k: nat)
    requires TopBits(g, p, j) && TopBits(g, q, k)
    ensures j == k && p == q
  {
    if j < k {
      PowMonotone(j, k - 1);
    } else if k < j {
      PowMonotone(k, j - 1);
    }
    Cancel(p, q, Pow2(k));
  }

  lemma OnePlace(g: Geometry, p: nat, q: nat)
    requires WayPlace(g, p) && WayPlace(g, q)
    ensures p == q
  {
    hide TopBits;
    var j :| 0 <= j <= 10 && TopBits(g, p, j);
    var k :| 0 <= k <= 10 && TopBits(g, q, k);
    OneWidth(g, p, j, q, k);
  }

  // ------------------------------------------------------------------- the operand

  /** ORing below a field leaves the field alone. */
  lemma {:induction false} OrBelow(hi: nat, lo: nat, x: nat, k: nat)
    requires lo < Pow2(k) && x < Pow2(k)
    ensures Or(Lsl(hi, k) + lo, x) == Lsl(hi, k) + Or(lo, x) && Or(lo, x) < Pow2(k)
    decreases k
  {
    if k > 0 {
      var h := Lsl(hi, k - 1);
      assert Lsl(hi, k) == 2 * h;
      OrBelow(hi, lo / 2, x / 2, k - 1);
      var n := 2 * h + lo;
      assert n / 2 == h + lo / 2 && n % 2 == lo % 2;
      OrHalves(n, x);
      OrHalves(lo, x);
    } else {
      OrZero(Lsl(hi, 0));
      OrZero(0);
    }
  }

  lemma OrHalves(a: nat, b: nat)
    ensures Or(a, b) == (if a % 2 == 1 || b % 2 == 1 then 1 else 0) + 2 * Or(a / 2, b / 2)
  {
    OrZero(a);
    OrZero(b);
    OrZero(a / 2);
    OrZero(b / 2);
  }

  /** A multiple of a line below the way field leaves room for the level. */
  lemma RoomForLevel(n: nat, q: nat, m: nat, d: nat)
    requires n * d < m * d && q < d
    ensures n * d + q < m * d
  {
    if n >= m {
      MulMonotone(m, n, d);
    } else {
      MulMonotone(n + 1, m, d);
      assert (n + 1) * d == n * d + d;
    }
  }

  lemma SetBelowWay(g: Geometry, set_: nat, q: nat)
    requires g.Valid() && SetWay.Apart(g) && set_ <= g.maxSet && q < 16
    ensures Lsl(set_, g.SetShift()) + q < Pow2(g.WayShift())
    ensures Pow2(g.SetShift()) >= 16 && Pow2(g.WayShift()) >= 16
  {
    var s, w := g.SetShift(), g.WayShift();
    WaysAboveSets(g);
    LslMonotone(set_, g.maxSet, s);
    Sixteen(s);
    Sixteen(w);
    RoomInWay(set_, q, s, w);
  }

  lemma WaysAboveSets(g: Geometry)
    requires g.Valid()
    ensures 4 <= g.SetShift() <= 11 && 22 <= g.WayShift()
  {
    FieldsFit(g);
  }

  lemma RoomInWay(n: nat, q: nat, s: nat, w: nat)
    requires s <= w && Lsl(n, s) < Pow2(w) && q < Pow2(s)
    ensures Lsl(n, s) + q < Pow2(w)
  {
    PowSum(w - s, s);
    RoomForLevel(n, q, Pow2(w - s), Pow2(s));
  }

  lemma Sixteen(k: nat)
    requires k >= 4
    ensures Pow2(k) >= 16
  {
    PowMonotone(4, k);
    assert Pow2(4) == 16;
  }

  /** The operand is the sum of its fields. */
  lemma OperandIsSum(g: Geometry, level: nat, set_: nat, way: nat)
    requires g.Valid() && SetWay.Apart(g) && level < 8 && set_ <= g.maxSet
    ensures Operand(g, level, set_, way) == Lsl(way, g.WayShift()) + Lsl(set_, g.SetShift()) + 2 * level
    ensures Lsl(set_, g.SetShift()) + 2 * level < Pow2(g.WayShift())
  {
    hide Or, Lsl, Pow2, SetWay.Apart;
    SetBelowWay(g, set_, 2 * level);
    SetBelowWay(g, set_, 0);
    var s, w := g.SetShift(), g.WayShift();
    var low, mid := 2 * level, Lsl(set_, s);
    OrCommutes(low, Lsl(way, w));
    OrAdds(way, low, w);
    OrBelow(way, low, mid, w);
    OrCommutes(low, mid);
    OrAdds(set_, low, s);
  }

  /** Level, set and way can be read back from the operand: the level is its bits 3 to 1,
      the set its lines below one way, the way what is above. Every geometry whose set
      field ends below its way field, every level. */
  lemma OperandDecodes(g: Geometry, p: nat, level: nat, set_: nat, way: nat)
    requires g.Valid() && SetWay.Apart(g) && WayPlace(g, p) && level < 8 && set_ <= g.maxSet
    ensures p > 0 && LineBytes(g) > 0
    ensures var x := Operand(g, level, set_, way);
      && x % 2 == 0 && x / 2 % 8 == level
      && x / p == way
      && x % p / LineBytes(g) == set_
  {
    hide Operand, Pow2, SetWay.Apart, WayPlace;
    PlaceOfWay(g);
    OnePlace(g, p, Pow2(g.WayShift()));
    LinePlace(g);
    OperandIsSum(g, level, set_, way);
    SetBelowWay(g, set_, 0);
    var x := Operand(g, level, set_, way);
    var d := LineBytes(g);
    var rest := set_ * d + 2 * level;
    Peel(rest, p, way);
    Peel(2 * level, d, set_);
    SumOfSixteens(g, p, way, set_, level, x);
  }

  lemma SumOfSixteens(g: Geometry, p: nat, way: nat, set_: nat, level: nat, x: nat)
    requires g.Valid() && WayPlace(g, p) && level < 8
    requires x == way * p + set_ * LineBytes(g) + 2 * level
    ensures x % 2 == 0 && x / 2 % 8 == level
  {
    hide Pow2, WayPlace;
    var k := MultipleOfSixteen(g, p);
    Regroup(way, k);
    Regroup(set_, Pow2(g.line));
    ReadLevel(level, way * k + set_ * Pow2(g.line));
  }

  lemma Regroup(a: nat, k: nat)
    ensures a * (16 * k) == 16 * (a * k)
  {}

  lemma ReadLevel(level: nat, n: nat)
    requires level < 8
    ensures (2 * level + 16 * n) % 2 == 0 && (2 * level + 16 * n) / 2 % 8 == level
  {
    Peel(0, 2, level + 8 * n);
    Peel(level, 8, n);
  }

  lemma MultipleOfSixteen(g: Geometry, p: nat) returns (k: nat)
    requires g.Valid() && WayPlace(g, p)
    ensures p == 16 * k
  {
    hide TopBits;
    PlaceOfWay(g);
    OnePlace(g, p, Pow2(g.WayShift()));
    FieldsFit(g);
    PowSum(4, g.WayShift() - 4);
    k := Pow2(g.WayShift() - 4);
    assert Pow2(4) == 16;
  }

  /** One cache line of one level. */
  datatype Line = Line(level: nat, set_: nat, way: nat)

  predicate Exists(clidr: reg, ccsidrOf: nat -> reg, x: Line) {
    && x.level < Coherence(clidr) && HasData(clidr, x.level)
    && x.set_ <= Geo(ccsidrOf(x.level)).maxSet && x.way <= Geo(ccsidrOf(x.level)).maxWay
  }

  function OperandOf(ccsidrOf: nat -> reg, x: Line): nat {
    Operand(Geo(ccsidrOf(x.level)), x.level, x.set_, x.way)
  }

  ghost predicate AllApart(clidr: reg, ccsidrOf: nat -> reg) {
    forall l: nat :: l < Coherence(clidr) && HasData(clidr, l) ==> SetWay.Apart(Geo(ccsidrOf(l)))
  }

  /** No two lines of the caches below the point of coherence share an operand, within a
      level or across levels. */
  lemma LinesDistinct(clidr: reg, ccsidrOf: nat -> reg, x: Line, y: Line)
    requires AllApart(clidr, ccsidrOf) && Exists(clidr, ccsidrOf, x) && Exists(clidr, ccsidrOf, y)
    requires OperandOf(ccsidrOf, x) == OperandOf(ccsidrOf, y)
    ensures x == y
  {
    hide Operand, Pow2, SetWay.Apart, WayPlace, HasData, Geo;
    var g, h := Geo(ccsidrOf(x.level)), Geo(ccsidrOf(y.level));
    PlaceOfWay(g);
    PlaceOfWay(h);
    OperandDecodes(g, Pow2(g.WayShift()), x.level, x.set_, x.way);
    OperandDecodes(h, Pow2(h.WayShift()), y.level, y.set_, y.way);
  }

  lemma {:induction false} OrAbsorbs(a: nat, b: nat)
    ensures Or(Or(a, b), b) == Or(a, b)
    decreases a + b
  {
    OrHalves(a, b);
    OrHalves(Or(a, b), b);
    if a != 0 || b != 0 {
      OrAbsorbs(a / 2, b / 2);
    }
  }

  /** Overlapping fields make two sets share an operand, at any level. */
  lemma CollideAt(g: Geometry, level: nat) returns (s: nat)
    requires g.Valid() && !SetWay.Apart(g)
    ensures 0 < s <= g.maxSet && g.maxWay >= 1 && Operand(g, level, s, 1) == Operand(g, level, 0, 1)
  {
    hide Or;
    FieldsFit(g);
    var k, j := g.WayShift(), g.SetShift();
    s := Pow2(k - j);
    PowSum(k - j, j);
    MulLess(g.maxSet, s, Pow2(j));
    OneWayIsApart(g);
    SameField(s, j, k);
    OrAbsorbs(2 * level, Lsl(1, k));
    OrZero(Or(2 * level, Lsl(1, k)));
  }

  lemma SameField(s: nat, j: nat, k: nat)
    requires s * Pow2(j) == Pow2(k)
    ensures Lsl(s, j) == Lsl(1, k) && Lsl(0, j) == 0
  {}

  ghost predicate AllDistinct(clidr: reg, ccsidrOf: nat -> reg) {
    forall x, y ::
      (Exists(clidr, ccsidrOf, x) && Exists(clidr, ccsidrOf, y)
       && OperandOf(ccsidrOf, x) == OperandOf(ccsidrOf, y)) ==> x == y
  }

  /** All lines of all levels have operands of their own if and only if at every level with
      a data cache the set field ends below the way field. */
  lemma DistinctEverywhereIff(clidr: reg, ccsidrOf: nat -> reg)
    ensures AllDistinct(clidr, ccsidrOf) <==> AllApart(clidr, ccsidrOf)
  {
    hide Operand, Pow2, SetWay.Apart, HasData, Geo;
    if AllApart(clidr, ccsidrOf) {
      forall x, y | Exists(clidr, ccsidrOf, x) && Exists(clidr, ccsidrOf, y)
        && OperandOf(ccsidrOf, x) == OperandOf(ccsidrOf, y)
        ensures x == y
      {
        LinesDistinct(clidr, ccsidrOf, x, y);
      }
    } else {
      var l: nat :| l < Coherence(clidr) && HasData(clidr, l) && !SetWay.Apart(Geo(ccsidrOf(l)));
      var s := CollideAt(Geo(ccsidrOf(l)), l);
      var x, y := Line(l, s, 1), Line(l, 0, 1);
      assert Exists(clidr, ccsidrOf, x) && Exists(clidr, ccsidrOf, y);
    }
  }

  // --------------------------------------------------------------- the whole flush

  /** Every line is issued. */
  lemma {:induction false} LineIssued(clidr: reg, ccsidrOf: nat -> reg, l: nat, x: Line)
    requires Exists(clidr, ccsidrOf, x) && l <= x.level
    ensures OperandOf(ccsidrOf, x) in LevelsFrom(clidr, ccsidrOf, l)
    decreases x.level - l
  {
    hide Operand, Geo, HasData, Grid;
    if l < x.level {
      LineIssued(clidr, ccsidrOf, l + 1, x);
    } else {
      var g := Geo(ccsidrOf(l));
      GridAt(g, l, g.maxSet + 1, x.set_, x.way);
      assert OperandOf(ccsidrOf, x) in LevelOps(clidr, ccsidrOf, l);
    }
  }

  lemma {:induction false} RowOnly(g: Geometry, level: nat, set_: nat, n: nat, v: nat) returns (way: nat)
    requires g.Valid() && v in Row(g, level, set_, n)
    ensures way < n && v == Operand(g, level, set_, way)
    decreases n
  {
    hide Operand;
    way := n - 1;
    if v != Operand(g, level, set_, n - 1) {
      way := RowOnly(g, level, set_, n - 1, v);
    }
  }

  lemma {:induction false} GridOnly(g: Geometry, level: nat, m: nat, v: nat) returns (set_: nat, way: nat)
    requires g.Valid() && v in Grid(g, level, m)
    ensures set_ < m && way <= g.maxWay && v == Operand(g, level, set_, way)
    decreases m
  {
    hide Operand, Row;
    if v in Row(g, level, m - 1, g.maxWay + 1) {
      set_ := m - 1;
      way := RowOnly(g, level, m - 1, g.maxWay + 1, v);
    } else {
      set_, way := GridOnly(g, level, m - 1, v);
    }
  }

  /** Nothing else is issued. */
  lemma {:induction false} OnlyLines(clidr: reg, ccsidrOf: nat -> reg, l: nat, v: nat) returns (x: Line)
    requires v in LevelsFrom(clidr, ccsidrOf, l)
    ensures Exists(clidr, ccsidrOf, x) && v == OperandOf(ccsidrOf, x)
    decreases Coherence(clidr) - l
  {
    hide Operand, Geo, HasData, Grid;
    if v in LevelOps(clidr, ccsidrOf, l) {
      var g := Geo(ccsidrOf(l));
      var s, w := GridOnly(g, l, g.maxSet + 1, v);
      x := Line(l, s, w);
    } else {
      x := OnlyLines(clidr, ccsidrOf, l + 1, v);
    }
  }

  /** The full flush issues the operands of exactly the lines there are. */
  lemma FlushIff(clidr: reg, ccsidrOf: nat -> reg, v: nat)
    ensures v in LevelsFrom(clidr, ccsidrOf, 0) <==>
      exists x :: Exists(clidr, ccsidrOf, x) && v == OperandOf(ccsidrOf, x)
  {
    hide LevelsFrom, Exists, OperandOf;
    if v in LevelsFrom(clidr, ccsidrOf, 0) {
      var x := OnlyLines(clidr, ccsidrOf, 0, v);
    }
    forall x | Exists(clidr, ccsidrOf, x) && v == OperandOf(ccsidrOf, x)
      ensures v in LevelsFrom(clidr, ccsidrOf, 0)
    {
      LineIssued(clidr, ccsidrOf, 0, x);
    }
  }

  /** The FIQ's sweep issues the operands of exactly the lines of the level 1 cache. */
  lemma SweepIff(ccsidr: reg, v: nat)
    ensures v in Grid(Geo(ccsidr), 0, Geo(ccsidr).maxSet + 1) <==>
      exists s: nat, w: nat :: s <= Geo(ccsidr).maxSet && w <= Geo(ccsidr).maxWay && v == Operand(Geo(ccsidr), 0, s, w)
  {
    hide Operand, Grid, Geo;
    var g := Geo(ccsidr);
    if v in Grid(g, 0, g.maxSet + 1) {
      var s, w := GridOnly(g, 0, g.maxSet + 1, v);
    }
    forall s: nat, w: nat | s <= g.maxSet && w <= g.maxWay && v == Operand(g, 0, s, w)
      ensures v in Grid(g, 0, g.maxSet + 1)
    {
      GridAt(g, 0, g.maxSet + 1, s, w);
    }
  }
}
