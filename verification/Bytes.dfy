/** The one fact about casts between numbers and bit-vectors that every encoder needs. */
module Casts {
  lemma ThroughByte(n: int)
    requires 0 <= n < 256
    ensures (n as bv8) as int == n
  {
    var b0, b1, b2, b3, b4, b5, b6, b7 := Peel(n);
    BitsValue(b0, b1, b2, b3, b4, b5, b6, b7);
    hide FromBits;
    Back(FromBits(b0, b1, b2, b3, b4, b5, b6, b7));
  }

  lemma Peel(n: int)
    returns (b0: bool, b1: bool, b2: bool, b3: bool, b4: bool, b5: bool, b6: bool, b7: bool)
    requires 0 <= n < 256
    ensures n == (if b0 then 1 else 0) + (if b1 then 2 else 0) + (if b2 then 4 else 0) + (if b3 then 8 else 0)
       + (if b4 then 16 else 0) + (if b5 then 32 else 0) + (if b6 then 64 else 0) + (if b7 then 128 else 0)
  {
    b7 := n >= 128;
    var r := if b7 then n - 128 else n;
    b6 := r >= 64;
    r := if b6 then r - 64 else r;
    b5 := r >= 32;
    r := if b5 then r - 32 else r;
    b4 := r >= 16;
    r := if b4 then r - 16 else r;
    b3 := r >= 8;
    r := if b3 then r - 8 else r;
    b2 := r >= 4;
    r := if b2 then r - 4 else r;
    b1 := r >= 2;
    r := if b1 then r - 2 else r;
    b0 := r >= 1;
  }

  lemma Back(b: bv8)
    ensures (b as int) as bv8 == b
  {}

  function FromBits(b0: bool, b1: bool, b2: bool, b3: bool, b4: bool, b5: bool, b6: bool, b7: bool): bv8 {
    (if b0 then 1 else 0) | (if b1 then 2 else 0) | (if b2 then 4 else 0) | (if b3 then 8 else 0)
    | (if b4 then 16 else 0) | (if b5 then 32 else 0) | (if b6 then 64 else 0) | (if b7 then 128 else 0)
  }

  lemma BitsValue(b0: bool, b1: bool, b2: bool, b3: bool, b4: bool, b5: bool, b6: bool, b7: bool)
    ensures FromBits(b0, b1, b2, b3, b4, b5, b6, b7) as int
      == (if b0 then 1 else 0) + (if b1 then 2 else 0) + (if b2 then 4 else 0) + (if b3 then 8 else 0)
       + (if b4 then 16 else 0) + (if b5 then 32 else 0) + (if b6 then 64 else 0) + (if b7 then 128 else 0)
  {}
}

/** Bytes and the little-endian integers built from them.

    Every multi-byte field on the wire and in an ELF file is little-endian, so one
    pair of functions covers all widths: `ToLe` for Rust's `to_le_bytes` and `FromLe`
    for `from_le_bytes`. */
module Bytes {

  import Casts

  type byte = bv8

  const U32: nat := 0x1_0000_0000
  const U64: nat := 0x1_0000_0000_0000_0000

  type u16 = n: nat | n < 0x1_0000
  type u32 = n: nat | n < 0x1_0000_0000
  type u64 = n: nat | n < 0x1_0000_0000_0000_0000

  /** `256^k`: one more than the largest value `k` bytes hold. */
  function Span(k: nat): (n: nat)
    ensures n >= 1
  {
    if k == 0 then 1 else 256 * Span(k - 1)
  }

  function ToLe(n: nat, k: nat): (s: seq<byte>)
    ensures |s| == k
  {
    if k == 0 then [] else [(n % 256) as byte] + ToLe(n / 256, k - 1)
  }

  function FromLe(s: seq<byte>): (n: nat)
    ensures n < Span(|s|)
  {
    if s == [] then 0 else s[0] as nat + 256 * FromLe(s[1..])
  }

  lemma LowByte(n: nat)
    ensures ((n % 256) as byte) as nat == n % 256
  {
    var r := n % 256;
    Casts.ThroughByte(r);
  }

  lemma {:induction false} FromToLe(n: nat, k: nat)
    requires n < Span(k)
    ensures FromLe(ToLe(n, k)) == n
  {
    if k > 0 {
      var s := ToLe(n, k);
      FromToLe(n / 256, k - 1);
      assert s[1..] == ToLe(n / 256, k - 1);
      LowByte(n);
      assert FromLe(s) == n % 256 + 256 * (n / 256);
    }
  }

  lemma ByteBack(b: byte)
    ensures (b as nat) as byte == b && b as nat < 256
  {}

  lemma {:induction false} ToFromLe(s: seq<byte>)
    ensures ToLe(FromLe(s), |s|) == s
  {
    if s != [] {
      ToFromLe(s[1..]);
      ByteBack(s[0]);
      assert FromLe(s) % 256 == s[0] as nat && FromLe(s) / 256 == FromLe(s[1..]);
      assert s == [s[0]] + s[1..];
    }
  }

  lemma Spans()
    ensures Span(2) == 0x1_0000 && Span(4) == U32 && Span(8) == U64
  {
    assert Span(4) == 256 * (256 * Span(2));
    assert Span(8) == 256 * (256 * (256 * (256 * Span(4))));
  }
}
