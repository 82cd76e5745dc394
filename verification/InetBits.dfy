/**
 Addresses as octets and as bit strings (libudb/inet.c).

 A prefix of the source is an octet buffer with a bit count.  Proofs are simpler over bit
 strings, most significant bit first, because one address block contains another exactly
 when its bit string is a prefix (`<=` on sequences) of the other's.  This module defines
 the octet arithmetic of the source and connects it with bit strings.
 */
module InetBits {

  type Bits = seq<bool>
  type Octet = x: int | 0 <= x < 256

  /** Stride of the tree: sub-blocks end on the next 4-bit boundary after their parent. */
  const NSHIFT: nat := 4

  function Pow2(k: nat): (r: nat)
    ensures r >= 1
  {
    if k == 0 then 1 else 2 * Pow2(k - 1)
  }

  lemma SmallPowers()
    ensures Pow2(0) == 1 && Pow2(1) == 2 && Pow2(2) == 4 && Pow2(3) == 8 && Pow2(4) == 16
    ensures Pow2(5) == 32 && Pow2(6) == 64 && Pow2(7) == 128 && Pow2(8) == 256
  {
    assert Pow2(4) == 16;
    assert Pow2(6) == 64;
    assert Pow2(8) == 256;
  }

  /** Number of bits a block with `bits` prefix bits adds to reach the next boundary. */
  function SubBits(bits: nat): (r: nat)
    ensures 1 <= r <= NSHIFT
    ensures (bits + r) % NSHIFT == 0
  {
    NSHIFT - bits % NSHIFT
  }

  function SubShift(bits: nat): (r: nat)
  {
    8 - bits % 8 - SubBits(bits)
  }

  /** The source's SUB_INDEX: shift the octet holding bit `bits` right and mask it. */
  function SubIndex(octets: seq<Octet>, bits: nat): (r: nat)
    requires bits < 8 * |octets|
    ensures r < Pow2(SubBits(bits))
  {
    octets[bits / 8] / Pow2(SubShift(bits)) % Pow2(SubBits(bits))
  }

  /** The number a bit string spells, most significant bit first. */
  function Value(w: Bits): (v: nat)
    ensures v < Pow2(|w|)
  {
    if w == [] then 0 else (if w[0] then Pow2(|w| - 1) else 0) + Value(w[1..])
  }

  lemma {:induction false} ValueConcat(x: Bits, y: Bits)
    ensures Value(x + y) == Value(x) * Pow2(|y|) + Value(y)
  {
    if x == [] {
      assert x + y == y;
    } else {
      var head := if x[0] then Pow2(|x| - 1) else 0;
      var rest := Value(x[1..]);
      assert (x + y)[1..] == x[1..] + y;
      ValueConcat(x[1..], y);
      Pow2Add(|x| - 1, |y|);
      Distribute(head, rest, Pow2(|y|));
    }
  }

  lemma Distribute(a: int, b: int, c: int)
    ensures (a + b) * c == a * c + b * c
  {
  }

  lemma {:induction false} Pow2Add(a: nat, b: nat)
    ensures Pow2(a + b) == Pow2(a) * Pow2(b)
  {
    if a > 0 { Pow2Add(a - 1, b); }
  }

  lemma {:induction false} ValueInjective(x: Bits, y: Bits)
    requires |x| == |y| && Value(x) == Value(y)
    ensures x == y
  {
    if x != [] {
      assert x[0] == y[0];
      ValueInjective(x[1..], y[1..]);
      assert x == [x[0]] + x[1..] && y == [y[0]] + y[1..];
    }
  }

  /** The k-bit string spelling v. */
  function FromValue(v: nat, k: nat): (w: Bits)
    requires v < Pow2(k)
    ensures |w| == k && Value(w) == v
  {
    if k == 0 then []
    else if v >= Pow2(k - 1) then [true] + FromValue(v - Pow2(k - 1), k - 1)
    else [false] + FromValue(v, k - 1)
  }

  function Zeros(k: nat): (w: Bits)
    ensures |w| == k && forall i :: 0 <= i < k ==> !w[i]
  {
    seq(k, _ => false)
  }

  lemma {:induction false} ValueZeros(k: nat)
    ensures Value(Zeros(k)) == 0
  {
    if k > 0 {
      assert Zeros(k)[1..] == Zeros(k - 1);
      ValueZeros(k - 1);
    }
  }

  function Bit(octets: seq<Octet>, t: nat): bool
    requires t < 8 * |octets|
  {
    octets[t / 8] / Pow2(7 - t % 8) % 2 == 1
  }

  function BitsOf(octets: seq<Octet>): (w: Bits)
    ensures |w| == 8 * |octets|
    ensures forall t :: 0 <= t < |w| ==> w[t] == Bit(octets, t)
  {
    seq(8 * |octets|, t requires 0 <= t < 8 * |octets| => Bit(octets, t))
  }

  lemma ValueSmall(w: Bits)
    requires 1 <= |w| <= 4
    ensures |w| == 1 ==> Value(w) == (if w[0] then 1 else 0)
    ensures |w| == 2 ==> Value(w) == (if w[0] then 2 else 0) + (if w[1] then 1 else 0)
    ensures |w| == 3 ==> Value(w) == (if w[0] then 4 else 0) + (if w[1] then 2 else 0) + (if w[2] then 1 else 0)
    ensures |w| == 4 ==>
      Value(w) == (if w[0] then 8 else 0) + (if w[1] then 4 else 0) + (if w[2] then 2 else 0) + (if w[3] then 1 else 0)
  {
    SmallPowers();
    if |w| > 1 {
      ValueSmall(w[1..]);
    } else {
      assert w[1..] == [];
    }
  }

  /** Weight of the bit `p` places from the right of an octet. */
  function At(o: nat, p: nat): (r: nat)
    ensures r < 2
  {
    o / Pow2(p) % 2
  }

  lemma ShiftAt(o: Octet, p: nat)
    requires p <= 3
    ensures At(o / 16, p) == At(o, p + 4)
  {
    SmallPowers();
    assert o / 16 / 2 == o / 32;
    assert o / 16 / 4 == o / 64;
    assert o / 16 / 8 == o / 128;
  }

  lemma LowNibble(o: Octet)
    ensures o % 2 == At(o, 0)
    ensures o % 4 == 2 * At(o, 1) + At(o, 0)
    ensures o % 8 == 4 * At(o, 2) + 2 * At(o, 1) + At(o, 0)
    ensures o % 16 == 8 * At(o, 3) + 4 * At(o, 2) + 2 * At(o, 1) + At(o, 0)
  {
    SmallPowers();
    var h1 := o / 2;
    var h2 := h1 / 2;
    var h3 := h2 / 2;
    assert o / 4 == h2 && o / 8 == h3;
  }

  /** The low k bits of a nibble, spelled out. */
  lemma LowBits(o: Octet, s: nat, k: nat)
    requires s == 0 || s == 4
    requires 1 <= k <= 4
    ensures o / Pow2(s) % Pow2(k) ==
      (if k > 3 then 8 * At(o, s + 3) else 0) + (if k > 2 then 4 * At(o, s + 2) else 0) +
      (if k > 1 then 2 * At(o, s + 1) else 0) + At(o, s)
  {
    SmallPowers();
    if s == 0 {
      LowNibble(o);
    } else {
      LowNibble(o / 16);
      ShiftAt(o, 0); ShiftAt(o, 1); ShiftAt(o, 2); ShiftAt(o, 3);
    }
  }

  /** SUB_INDEX selects exactly the bits from `bits` up to the next boundary. */
  lemma SubIndexIsValue(octets: seq<Octet>, bits: nat)
    requires bits < 8 * |octets|
    ensures bits + SubBits(bits) <= 8 * |octets|
    ensures SubIndex(octets, bits) == Value(BitsOf(octets)[bits .. bits + SubBits(bits)])
  {
    var o, k, s := octets[bits / 8], SubBits(bits), SubShift(bits);
    FieldFits(|octets|, bits);
    var w := BitsOf(octets)[bits .. bits + k];
    forall j | 0 <= j < k
      ensures w[j] == (At(o, s + k - 1 - j) == 1)
    {
      FieldBit(octets, bits, j);
    }
    FieldValue(o, s, w);
    LowBits(o, s, k);
  }

  lemma FieldFits(n: nat, bits: nat)
    requires bits < 8 * n
    ensures bits + SubBits(bits) <= 8 * n
    ensures SubShift(bits) == 0 || SubShift(bits) == 4
  {
  }

  /** A bit string read off an octet spells its field. */
  lemma FieldValue(o: Octet, s: nat, w: Bits)
    requires 1 <= |w| <= 4
    requires forall j :: 0 <= j < |w| ==> w[j] == (At(o, s + |w| - 1 - j) == 1)
    ensures Value(w) ==
      (if |w| > 3 then 8 * At(o, s + 3) else 0) + (if |w| > 2 then 4 * At(o, s + 2) else 0) +
      (if |w| > 1 then 2 * At(o, s + 1) else 0) + At(o, s)
  {
    ValueSmall(w);
    assert w[|w| - 1] == (At(o, s) == 1);
    if |w| > 1 { assert w[|w| - 2] == (At(o, s + 1) == 1); }
    if |w| > 2 { assert w[|w| - 3] == (At(o, s + 2) == 1); }
    if |w| > 3 { assert w[|w| - 4] == (At(o, s + 3) == 1); }
  }

  lemma FieldBit(octets: seq<Octet>, bits: nat, j: nat)
    requires bits < 8 * |octets| && j < SubBits(bits)
    ensures bits + j < 8 * |octets|
    ensures BitsOf(octets)[bits + j] == (At(octets[bits / 8], SubShift(bits) + SubBits(bits) - 1 - j) == 1)
  {
    assert (bits + j) / 8 == bits / 8 && (bits + j) % 8 == bits % 8 + j;
  }

  // Which bits of an octet a shift keeps.

  lemma FitsMultiple(x: nat, y: nat, count: nat)
    requires x < y
    ensures x * count + count <= y * count
  {
    assert (x + 1) * count <= y * count;
  }

  lemma RestOfOctet(octets: seq<Octet>, at: nat)
    requires at < 8 * |octets|
    ensures at + 8 - at % 8 <= 8 * |octets|
    ensures octets[at / 8] * Pow2(at % 8) % 256 == 0 <==>
      forall i :: at <= i < at + 8 - at % 8 ==> !BitsOf(octets)[i]
  {
    var o, s := octets[at / 8], at % 8;
    ShiftedOut(o, s);
    forall i | at <= i < at + 8 - s
      ensures BitsOf(octets)[i] == (At(o, 7 - (i - (at - s))) == 1)
    {
      assert i / 8 == at / 8 && i % 8 == i - (at - s);
    }
    if forall i :: at <= i < at + 8 - s ==> !BitsOf(octets)[i] {
      forall p: nat | p < 8 - s
        ensures At(o, p) == 0
      {
        assert !BitsOf(octets)[at - s + 7 - p];
      }
    }
  }

  /** Shifting an octet left by s keeps its low 8 - s bits. */
  lemma ShiftedOut(o: Octet, s: nat)
    requires s < 8
    ensures o * Pow2(s) % 256 == 0 <==> forall p: nat :: p < 8 - s ==> At(o, p) == 0
  {
    hide At;
    SmallPowers();
    Pow2Add(8 - s, s);
    ModScale(o, Pow2(8 - s), Pow2(s));
    LowBitsZero(o, 8 - s);
  }

  lemma {:induction false} LowBitsZero(o: Octet, k: nat)
    requires 1 <= k <= 8
    ensures o % Pow2(k) == 0 <==> forall p: nat :: p < k ==> At(o, p) == 0
  {
    if k == 1 {
      SmallPowers();
    } else {
      LowBitsZero(o, k - 1);
      var c, a := Pow2(k - 1), At(o, k - 1);
      ModDouble(o, c);
      assert o % Pow2(k) == o % c + a * c;
      assert a == 0 || a * c >= 1;
      assert (forall p: nat :: p < k ==> At(o, p) == 0) <==> a == 0 && forall p: nat :: p < k - 1 ==> At(o, p) == 0;
    }
  }

  lemma ModUnique(o: nat, m: nat, h: nat, x: nat)
    requires o == h * m + x && x < m
    ensures o % m == x
  {
    var d := o / m;
    assert o == d * m + o % m;
    if d < h {
      FitsMultiple(d, h, m);
    } else if h < d {
      FitsMultiple(h, d, m);
    }
  }

  lemma ModDouble(o: nat, c: nat)
    requires c > 0
    ensures o % (2 * c) == o % c + o / c % 2 * c
  {
    var q, r := o / c, o % c;
    var h, b := q / 2, q % 2;
    assert o == q * c + r;
    assert q * c == h * (2 * c) + b * c by { assert q == 2 * h + b; }
    assert b == 0 || b == 1;
    ModUnique(o, 2 * c, h, b * c + r);
  }

  lemma ModScale(o: nat, m: nat, c: nat)
    requires m > 0 && c > 0
    ensures o * c % (m * c) == 0 <==> o % m == 0
  {
    var q, r := o / m, o % m;
    assert o == q * m + r;
    assert o * c == q * (m * c) + r * c;
    assert r * c < m * c by { FitsMultiple(r, m, c); }
    ModUnique(o * c, m * c, q, r * c);
  }
}
