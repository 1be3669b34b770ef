/** CRC-32/ISO-HDLC: the table-driven, incremental computation of the code, its serial
    reference, and what the two guarantee.

    The register step is linear over XOR and invertible, which is all the theorems at
    the end rest on. The parameters are those of section 8 of RFC 1952: reflected
    polynomial 0xEDB88320, initial value and final XOR all ones. */
module Crc {
  import opened Bytes

  // ------------------------------------------------------------------ definitions

  /** One shift of the register. */
  function BitStep(c: bv32): bv32 {
    if c & 1 != 0 then (c >> 1) ^ 0xEDB8_8320 else c >> 1
  }

  function BitSteps(c: bv32, n: nat): bv32
    decreases n
  {
    if n == 0 then c else BitSteps(BitStep(c), n - 1)
  }

  /** A name for XOR, so that proofs can do without its bits. */
  function Xor(a: bv32, b: bv32): bv32 { a ^ b }

  /** The serial register: one data bit at a time, low bit first. */
  function Feed(s: bv32, w: bv32, n: nat): bv32
    decreases n
  {
    if n == 0 then s else Feed(BitStep(Xor(s, w & 1)), w >> 1, n - 1)
  }

  /** `w >> n`, one bit at a time. */
  function ShrN(w: bv32, n: nat): bv32
    decreases n
  {
    if n == 0 then w else ShrN(w >> 1, n - 1)
  }

  /** The low byte of a word. */
  function Low(w: bv32): byte { (w & 0xff) as byte }

  /** The table's entry for a byte: eight shifts of it. */
  function TableEntry(i: byte): bv32 {
    BitSteps(i as bv32, 8)
  }

  /** One byte through the table. */
  function ByteStep(s: bv32, b: byte): bv32 {
    Xor(s >> 8, TableEntry(Low(Xor(s, b as bv32))))
  }

  // ---------------------------------------------------------------- one bit

  lemma LowBit(a: bv32)
    ensures a & 1 == 0 || a & 1 == 1
  {}

  lemma LinearEE(a: bv32, b: bv32)
    requires a & 1 == 0 && b & 1 == 0
    ensures BitStep(a ^ b) == BitStep(a) ^ BitStep(b)
  {}

  lemma LinearOE(a: bv32, b: bv32)
    requires a & 1 == 1 && b & 1 == 0
    ensures BitStep(a ^ b) == BitStep(a) ^ BitStep(b)
  {}

  lemma LinearEO(a: bv32, b: bv32)
    requires a & 1 == 0 && b & 1 == 1
    ensures BitStep(a ^ b) == BitStep(a) ^ BitStep(b)
  {}

  lemma LinearOO(a: bv32, b: bv32)
    requires a & 1 == 1 && b & 1 == 1
    ensures BitStep(a ^ b) == BitStep(a) ^ BitStep(b)
  {}

  /** The shift is linear. */
  lemma BitStepLinear(a: bv32, b: bv32)
    ensures BitStep(Xor(a, b)) == Xor(BitStep(a), BitStep(b))
  {
    hide BitStep;
    LowBit(a);
    LowBit(b);
    if a & 1 == 0 {
      if b & 1 == 0 { LinearEE(a, b); } else { LinearEO(a, b); }
    } else {
      if b & 1 == 0 { LinearOE(a, b); } else { LinearOO(a, b); }
    }
  }

  lemma {:induction false} BitStepsLinear(a: bv32, b: bv32, n: nat)
    ensures BitSteps(Xor(a, b), n) == Xor(BitSteps(a, n), BitSteps(b, n))
    decreases n
  {
    hide BitStep, Xor;
    if n > 0 {
      BitStepLinear(a, b);
      BitStepsLinear(BitStep(a), BitStep(b), n - 1);
    }
  }

  /** The shift loses nothing: the polynomial's top bit tells which case it was. */
  lemma BitStepInjective(a: bv32, b: bv32)
    requires BitStep(a) == BitStep(b)
    ensures a == b
  {}

  lemma {:induction false} BitStepsInjective(a: bv32, b: bv32, n: nat)
    requires BitSteps(a, n) == BitSteps(b, n)
    ensures a == b
    decreases n
  {
    hide BitStep;
    if n > 0 {
      BitStepsInjective(BitStep(a), BitStep(b), n - 1);
      BitStepInjective(a, b);
    }
  }

  lemma StepDoubled(w: bv32)
    ensures BitStep((w >> 1) << 1) == w >> 1
  {}

  lemma SplitBit(s: bv32, w: bv32)
    ensures Xor(s, w) == Xor(Xor(s, w & 1), (w >> 1) << 1)
  {}

  /** Feeding bits one at a time, or XORing the word in at once and shifting, differ only
      by what is left of the word. */
  lemma {:induction false} SerialIsParallel(s: bv32, w: bv32, n: nat)
    ensures BitSteps(Xor(s, w), n) == Xor(Feed(s, w, n), ShrN(w, n))
    decreases n
  {
    hide BitStep, Xor;
    if n > 0 {
      SplitBit(s, w);
      BitStepLinear(Xor(s, w & 1), (w >> 1) << 1);
      StepDoubled(w);
      SerialIsParallel(BitStep(Xor(s, w & 1)), w >> 1, n - 1);
    }
  }

  lemma Shr8(w: bv32)
    ensures ShrN(w, 8) == w >> 8
  {
    assert ShrN(w >> 6, 2) == (w >> 6 >> 1) >> 1 == w >> 8;
    assert ShrN(w >> 4, 4) == w >> 8;
    assert ShrN(w >> 2, 6) == w >> 8;
  }

  lemma XorZero(a: bv32)
    ensures Xor(a, 0) == a && Xor(0, a) == a
  {}

  lemma XorCancel(a: bv32, b: bv32, c: bv32)
    requires Xor(a, b) == Xor(a, c)
    ensures b == c
  {}

  // --------------------------------------------------------------- one byte

  /** The low `n` bits agree. */
  predicate Agree(w: bv32, v: bv32, n: nat)
    decreases n
  {
    n > 0 ==> w & 1 == v & 1 && Agree(w >> 1, v >> 1, n - 1)
  }

  lemma {:induction false} FeedAgrees(s: bv32, w: bv32, v: bv32, n: nat)
    requires Agree(w, v, n)
    ensures Feed(s, w, n) == Feed(s, v, n)
    decreases n
  {
    hide BitStep, Xor;
    if n > 0 {
      FeedAgrees(BitStep(Xor(s, w & 1)), w >> 1, v >> 1, n - 1);
    }
  }

  lemma LowByteAgrees(w: bv32)
    ensures Agree(w, w & 0xff, 8)
  {
    var v := w & 0xff;
    assert Agree(w >> 6, v >> 6, 2) by { assert w >> 7 == w >> 6 >> 1; assert v >> 7 == v >> 6 >> 1; }
    assert Agree(w >> 4, v >> 4, 4) by { assert w >> 6 == w >> 4 >> 1 >> 1; assert v >> 6 == v >> 4 >> 1 >> 1; }
    assert Agree(w >> 2, v >> 2, 6) by { assert w >> 4 == w >> 2 >> 1 >> 1; assert v >> 4 == v >> 2 >> 1 >> 1; }
    assert w >> 2 == w >> 1 >> 1; assert v >> 2 == v >> 1 >> 1;
  }

  lemma TableSplit(x: bv32)
    ensures BitSteps(x, 8) == Xor(x >> 8, BitSteps(x & 0xff, 8))
  {
    hide BitStep, Xor;
    var v := x & 0xff;
    LowByteAgrees(x);
    FeedAgrees(0, x, v, 8);
    SerialIsParallel(0, x, 8);
    SerialIsParallel(0, v, 8);
    Shr8(x);
    Shr8(v);
    XorZero(x);
    XorZero(v);
    XorZero(Feed(0, v, 8));
    assert v >> 8 == 0;
    XorCommutes(Feed(0, x, 8), x >> 8);
  }

  lemma XorCommutes(a: bv32, b: bv32)
    ensures Xor(a, b) == Xor(b, a)
  {}

  lemma LowCast(w: bv32)
    ensures Low(w) as bv32 == w & 0xff
  {}

  lemma ByteShr(s: bv32, b: byte)
    ensures Xor(s, b as bv32) >> 8 == s >> 8 && (b as bv32) >> 8 == 0
  {}

  /** The table step is eight serial steps. */
  lemma ByteStepIsSerial(s: bv32, b: byte)
    ensures ByteStep(s, b) == BitSteps(Xor(s, b as bv32), 8) == Feed(s, b as bv32, 8)
  {
    hide BitStep, Xor, Low;
    var x := Xor(s, b as bv32);
    TableSplit(x);
    LowCast(x);
    ByteShr(s, b);
    SerialIsParallel(s, b as bv32, 8);
    Shr8(b as bv32);
    XorZero(Feed(s, b as bv32, 8));
  }

  lemma XorSelf(a: bv32, b: bv32)
    ensures Xor(Xor(a, b), b) == a
  {}

  /** The register step is injective for every byte. */
  lemma ByteStepInjective(s: bv32, t: bv32, b: byte)
    requires ByteStep(s, b) == ByteStep(t, b)
    ensures s == t
  {
    hide BitStep, Xor;
    ByteStepIsSerial(s, b);
    ByteStepIsSerial(t, b);
    BitStepsInjective(Xor(s, b as bv32), Xor(t, b as bv32), 8);
    XorSelf(s, b as bv32);
    XorSelf(t, b as bv32);
  }

  // --------------------------------------------------------------- messages

  /** The raw register after folding the message `m` into `s`. */
  function Raw(s: bv32, m: seq<byte>): bv32
    decreases |m|
  {
    if m == [] then s else Raw(ByteStep(s, m[0]), m[1..])
  }

  /** The CRC of a message. */
  function Checksum(m: seq<byte>): bv32 {
    Xor(Raw(0xffff_ffff, m), 0xffff_ffff)
  }

  /** Any split into updates gives the same register. */
  lemma {:induction false} RawSplit(s: bv32, a: seq<byte>, b: seq<byte>)
    ensures Raw(s, a + b) == Raw(Raw(s, a), b)
    decreases |a|
  {
    hide ByteStep;
    if a == [] {
      assert a + b == b;
    } else {
      assert (a + b)[1..] == a[1..] + b;
      RawSplit(ByteStep(s, a[0]), a[1..], b);
    }
  }

  /** For a fixed message, different registers stay different. */
  lemma {:induction false} RawInjective(s: bv32, t: bv32, m: seq<byte>)
    requires Raw(s, m) == Raw(t, m)
    ensures s == t
    decreases |m|
  {
    hide ByteStep;
    if m != [] {
      RawInjective(ByteStep(s, m[0]), ByteStep(t, m[0]), m[1..]);
      ByteStepInjective(s, t, m[0]);
    }
  }

  // ----------------------------------------------------------- four bytes

  /** `u32::to_le_bytes`. */
  function Le32(w: bv32): (t: seq<byte>)
    ensures |t| == 4
  {
    [Low(w), Low(w >> 8), Low(w >> 8 >> 8), Low(w >> 8 >> 8 >> 8)]
  }

  /** `u32::from_le_bytes`. */
  function Word(a: byte, b: byte, c: byte, d: byte): bv32 {
    (a as bv32) | ((b as bv32) << 8) | ((c as bv32) << 16) | ((d as bv32) << 24)
  }

  lemma WordLe32(w: bv32)
    ensures var t := Le32(w); Word(t[0], t[1], t[2], t[3]) == w
  {}

  lemma Le32Word(a: byte, b: byte, c: byte, d: byte)
    ensures Le32(Word(a, b, c, d)) == [a, b, c, d]
  {}

  lemma {:induction false} FeedSplit(s: bv32, w: bv32, m: nat, n: nat)
    ensures Feed(s, w, m + n) == Feed(Feed(s, w, m), ShrN(w, m), n)
    decreases m
  {
    hide BitStep, Xor;
    if m > 0 {
      FeedSplit(BitStep(Xor(s, w & 1)), w >> 1, m - 1, n);
    }
  }

  lemma FeedByte(s: bv32, w: bv32, n: nat)
    ensures Feed(s, w, 8 + n) == Feed(ByteStep(s, Low(w)), w >> 8, n)
  {
    hide BitStep, Xor, ByteStep;
    FeedSplit(s, w, 8, n);
    Shr8(w);
    LowByteAgrees(w);
    FeedAgrees(s, w, w & 0xff, 8);
    LowCast(w);
    ByteStepIsSerial(s, (w & 0xff) as byte);
  }

  lemma Shr32(w: bv32)
    ensures ShrN(w, 32) == 0
  {
    ShrSplit(w, 8, 24);
    Shr8(w);
    ShrSplit(w >> 8, 8, 16);
    Shr8(w >> 8);
    ShrSplit(w >> 8 >> 8, 8, 8);
    Shr8(w >> 8 >> 8);
    Shr8(w >> 8 >> 8 >> 8);
    assert w >> 8 >> 8 >> 8 >> 8 == 0;
  }

  lemma {:induction false} ShrSplit(w: bv32, m: nat, n: nat)
    ensures ShrN(w, m + n) == ShrN(ShrN(w, m), n)
    decreases m
  {
    if m > 0 { ShrSplit(w >> 1, m - 1, n); }
  }

  function LeBytes(w: bv32, n: nat): (t: seq<byte>)
    ensures |t| == n
    decreases n
  {
    if n == 0 then [] else [Low(w)] + LeBytes(w >> 8, n - 1)
  }

  lemma LeBytesFour(w: bv32)
    ensures LeBytes(w, 4) == Le32(w)
  {
    hide Low;
    assert LeBytes(w >> 8 >> 8, 2) == [Low(w >> 8 >> 8), Low(w >> 8 >> 8 >> 8)];
  }

  lemma {:induction false} FeedBytes(s: bv32, w: bv32, n: nat)
    ensures Feed(s, w, 8 * n) == Raw(s, LeBytes(w, n))
    decreases n
  {
    hide BitStep, Xor, ByteStep, Low;
    if n > 0 {
      FeedByte(s, w, 8 * (n - 1));
      FeedBytes(ByteStep(s, Low(w)), w >> 8, n - 1);
      assert LeBytes(w, n)[1..] == LeBytes(w >> 8, n - 1);
    }
  }

  /** Four bytes are one word XORed in and 32 shifts. */
  lemma RawFour(s: bv32, w: bv32)
    ensures Raw(s, Le32(w)) == BitSteps(Xor(s, w), 32)
  {
    hide BitStep, Xor, ByteStep, Low;
    FeedBytes(s, w, 4);
    LeBytesFour(w);
    SerialIsParallel(s, w, 32);
    Shr32(w);
    XorZero(Feed(s, w, 32));
  }

  /** The residue of a correct frame, by running the register. */
  lemma Residue()
    ensures BitSteps(0xffff_ffff, 32) == 0xdebb_20e3
  {
    assert BitStep(0xffffffff) == 0x92477cdf;
    assert BitStep(0x92477cdf) == 0xa49b3d4f;
    assert BitStep(0xa49b3d4f) == 0xbff51d87;
    assert BitStep(0xbff51d87) == 0xb2420de3;
    assert BitStep(0xb2420de3) == 0xb49985d1;
    assert BitStep(0xb49985d1) == 0xb7f441c8;
    assert BitStep(0xb7f441c8) == 0x5bfa20e4;
    assert BitStep(0x5bfa20e4) == 0x2dfd1072;
    assert BitStep(0x2dfd1072) == 0x16fe8839;
    assert BitStep(0x16fe8839) == 0xe6c7c73c;
    assert BitStep(0xe6c7c73c) == 0x7363e39e;
    assert BitStep(0x7363e39e) == 0x39b1f1cf;
    assert BitStep(0x39b1f1cf) == 0xf1607bc7;
    assert BitStep(0xf1607bc7) == 0x9508bec3;
    assert BitStep(0x9508bec3) == 0xa73cdc41;
    assert BitStep(0xa73cdc41) == 0xbe26ed00;
    assert BitStep(0xbe26ed00) == 0x5f137680;
    assert BitStep(0x5f137680) == 0x2f89bb40;
    assert BitStep(0x2f89bb40) == 0x17c4dda0;
    assert BitStep(0x17c4dda0) == 0x0be26ed0;
    assert BitStep(0x0be26ed0) == 0x05f13768;
    assert BitStep(0x05f13768) == 0x02f89bb4;
    assert BitStep(0x02f89bb4) == 0x017c4dda;
    assert BitStep(0x017c4dda) == 0x00be26ed;
    assert BitStep(0x00be26ed) == 0xede79056;
    assert BitStep(0xede79056) == 0x76f3c82b;
    assert BitStep(0x76f3c82b) == 0xd6c16735;
    assert BitStep(0xd6c16735) == 0x86d830ba;
    assert BitStep(0x86d830ba) == 0x436c185d;
    assert BitStep(0x436c185d) == 0xcc0e8f0e;
    assert BitStep(0xcc0e8f0e) == 0x66074787;
    assert BitStep(0x66074787) == 0xdebb20e3;
    assert BitSteps(0xcc0e8f0e, 2) == 0xdebb_20e3;
    assert BitSteps(0x86d830ba, 4) == 0xdebb_20e3;
    assert BitSteps(0x76f3c82b, 6) == 0xdebb_20e3;
    assert BitSteps(0x00be26ed, 8) == 0xdebb_20e3;
    assert BitSteps(0x02f89bb4, 10) == 0xdebb_20e3;
    assert BitSteps(0x0be26ed0, 12) == 0xdebb_20e3;
    assert BitSteps(0x2f89bb40, 14) == 0xdebb_20e3;
    assert BitSteps(0xbe26ed00, 16) == 0xdebb_20e3;
    assert BitSteps(0x9508bec3, 18) == 0xdebb_20e3;
    assert BitSteps(0x39b1f1cf, 20) == 0xdebb_20e3;
    assert BitSteps(0xe6c7c73c, 22) == 0xdebb_20e3;
    assert BitSteps(0x2dfd1072, 24) == 0xdebb_20e3;
    assert BitSteps(0xb7f441c8, 26) == 0xdebb_20e3;
    assert BitSteps(0xb2420de3, 28) == 0xdebb_20e3;
    assert BitSteps(0xa49b3d4f, 30) == 0xdebb_20e3;
    assert BitSteps(0xffffffff, 32) == 0xdebb_20e3;
  }

  // ------------------------------------------------------------- main results

  /** The reference: each byte shifted through the register one bit at a time. */
  function Serial(s: bv32, m: seq<byte>): bv32
    decreases |m|
  {
    if m == [] then s else Serial(Feed(s, m[0] as bv32, 8), m[1..])
  }

  /** For every message and register, the table computes the serial CRC. */
  lemma {:induction false} TableIsSerial(s: bv32, m: seq<byte>)
    ensures Raw(s, m) == Serial(s, m)
    decreases |m|
  {
    hide ByteStep, BitStep, Xor;
    if m != [] {
      ByteStepIsSerial(s, m[0]);
      TableIsSerial(ByteStep(s, m[0]), m[1..]);
    }
  }

  /** From any register exactly one four-byte trailer leads to the residue. */
  lemma TrailerIff(s: bv32, t: seq<byte>)
    requires |t| == 4
    ensures Raw(s, t) == 0xdebb_20e3 <==> t == Le32(Xor(s, 0xffff_ffff))
  {
    hide BitStep, Xor, ByteStep, Low, Word;
    var w := Word(t[0], t[1], t[2], t[3]);
    Le32Word(t[0], t[1], t[2], t[3]);
    assert t == Le32(w);
    RawFour(s, w);
    Residue();
    XorSolve(s, w);
    if Raw(s, t) == 0xdebb_20e3 {
      BitStepsInjective(Xor(s, w), 0xffff_ffff, 32);
    } else if t == Le32(Xor(s, 0xffff_ffff)) {
      var c := Xor(s, 0xffff_ffff);
      WordLe32(w);
      WordLe32(c);
      assert false;
    }
  }

  lemma XorTwice(s: bv32, w: bv32)
    ensures Xor(s, Xor(s, w)) == w
  {}

  lemma XorSolve(s: bv32, w: bv32)
    ensures Xor(s, w) == 0xffff_ffff <==> w == Xor(s, 0xffff_ffff)
  {
    hide Xor;
    XorTwice(s, w);
    XorTwice(s, 0xffff_ffff);
  }

  /** A body followed by its little-endian CRC always leaves the register at the
      residue of RFC 1662, appendix C.3, and no other trailer does. */
  lemma ResidueIff(m: seq<byte>, t: seq<byte>)
    requires |t| == 4
    ensures Raw(0xffff_ffff, m + t) == 0xdebb_20e3 <==> t == Le32(Checksum(m))
  {
    hide Xor, Le32;
    RawSplit(0xffff_ffff, m, t);
    TrailerIff(Raw(0xffff_ffff, m), t);
  }

  /** Four bytes are recovered from what they do to a register. */
  lemma FourInjective(s: bv32, x: seq<byte>, y: seq<byte>)
    requires |x| == 4 && |y| == 4 && Raw(s, x) == Raw(s, y)
    ensures x == y
  {
    hide BitStep, Xor, ByteStep, Low, Word;
    var v, w := Word(x[0], x[1], x[2], x[3]), Word(y[0], y[1], y[2], y[3]);
    Le32Word(x[0], x[1], x[2], x[3]);
    Le32Word(y[0], y[1], y[2], y[3]);
    assert x == Le32(v) && y == Le32(w);
    RawFour(s, v);
    RawFour(s, w);
    BitStepsInjective(Xor(s, v), Xor(s, w), 32);
    XorCancel(s, v, w);
  }

  /** Changing any four consecutive bytes of a message changes the register. */
  lemma WindowDetected(s: bv32, a: seq<byte>, x: seq<byte>, y: seq<byte>, z: seq<byte>)
    requires |x| == 4 && |y| == 4 && x != y
    ensures Raw(s, a + x + z) != Raw(s, a + y + z)
  {
    hide ByteStep;
    RawSplit(s, a + x, z);
    RawSplit(s, a, x);
    RawSplit(s, a + y, z);
    RawSplit(s, a, y);
    if Raw(s, a + x + z) == Raw(s, a + y + z) {
      RawInjective(Raw(s, a + x), Raw(s, a + y), z);
      FourInjective(Raw(s, a), x, y);
    }
  }

  // ------------------------------------------------- the code: table and class

  /** All 256 entries. */
  function Table(): (t: seq<bv32>)
    ensures |t| == 256
  {
    seq(256, i requires 0 <= i < 256 => TableEntry(i as byte))
  }

  /** One entry: the inner loop of the table construction. */
  method BuildEntry(i: byte) returns (crc: bv32)
    ensures crc == TableEntry(i)
  {
    crc := i as bv32;
    var bit := 0;
    while bit < 8
      invariant 0 <= bit <= 8
      invariant BitSteps(crc, 8 - bit) == TableEntry(i)
    {
      if crc & 1 != 0 {
        crc := (crc >> 1) ^ 0xEDB8_8320;
      } else {
        crc := crc >> 1;
      }
      bit := bit + 1;
    }
  }

  /** The table construction. */
  method BuildTable() returns (table: array<bv32>)
    ensures fresh(table) && table[..] == Table()
  {
    hide BitSteps;
    table := new bv32[256](_ => 0);
    var i := 0;
    while i < 256
      invariant 0 <= i <= 256
      invariant forall k :: 0 <= k < i ==> table[k] == Table()[k]
    {
      table[i] := BuildEntry(i as byte);
      i := i + 1;
    }
  }

  lemma LookUp(b: byte)
    ensures b as nat < 256 && Table()[b as nat] == TableEntry(b)
  {
    hide BitSteps;
    ByteBack(b);
  }

  /** `TABLE[idx]` for the index the update loop forms from a byte. */
  function Pick(b: byte): (entry: bv32)
    ensures entry == TableEntry(b)
  {
    LookUp(b);
    Table()[b as nat]
  }

  /** The running CRC. */
  class Crc32 {
    var state: bv32

    constructor ()
      ensures state == 0xffff_ffff
    {
      state := 0xffff_ffff;
    }

    method Update(bytes: seq<byte>)
      modifies this
      ensures state == Raw(old(state), bytes)
    {
      for i := 0 to |bytes|
        invariant Raw(state, bytes[i..]) == Raw(old(state), bytes)
      {
        hide TableEntry, Xor, Low, Pick;
        ghost var rest := bytes[i..];
        assert rest[0] == bytes[i] && rest[1..] == bytes[i + 1..];
        state := Xor(state >> 8, Pick(Low(Xor(state, bytes[i] as bv32))));
      }
    }

    /** The checksum of whatever message has been folded in since the start. */
    method Finalize() returns (c: bv32)
      ensures forall m: seq<byte> :: Raw(0xffff_ffff, m) == state ==> c == Checksum(m)
      ensures c == Xor(state, 0xffff_ffff)
    {
      c := state ^ 0xffff_ffff;
    }
  }

  /** The one-shot form, which every receiver compares with. */
  method Crc32Of(data: seq<byte>) returns (c: bv32)
    ensures c == Checksum(data)
  {
    var acc := new Crc32();
    acc.Update(data);
    c := acc.Finalize();
  }
}
