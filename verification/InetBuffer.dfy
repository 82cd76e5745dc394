/**
 The in-place write of Inet_Sub_Prefix: a field of an octet buffer is replaced, and the bits on
 either side of it are not touched.
 */
module InetBuffer {
  import opened InetBits

  lemma DivUnique(v: nat, m: nat, h: nat, x: nat)
    requires v == h * m + x && x < m
    ensures v / m == h
  {
    var d := v / m;
    assert v == d * m + v % m;
    if d < h {
      FitsMultiple(d, h, m);
    } else if h < d {
      FitsMultiple(h, d, m);
    }
  }

  /** The high bits of a * 2^k + b are those of a. */
  lemma AtHigh(v: nat, a: nat, b: nat, k: nat, p: nat)
    requires v == a * Pow2(k) + b && b < Pow2(k) && p >= k
    ensures At(v, p) == At(a, p - k)
  {
    hide Pow2;
    Pow2Add(k, p - k);
    HighArith(v, a, b, Pow2(k), Pow2(p - k), Pow2(p));
  }

  lemma HighArith(v: nat, a: nat, b: nat, m: nat, n: nat, c: nat)
    requires v == a * m + b && b < m && n > 0 && c == m * n
    ensures v / c == a / n
  {
    var h, x := a / n, a % n;
    assert a == h * n + x;
    Distribute(h * n, x, m);
    Regroup(h, n, m);
    FitsMultiple(x, n, m);
    DivUnique(v, c, h, x * m + b);
  }

  lemma Regroup(h: nat, n: nat, m: nat)
    ensures h * n * m == h * (m * n)
  {
  }

  /** The low bits of a * 2^k + b are those of b. */
  lemma AtLow(v: nat, a: nat, b: nat, k: nat, p: nat)
    requires v == a * Pow2(k) + b && p < k
    ensures At(v, p) == At(b, p)
  {
    hide Pow2;
    var m, n := Pow2(p), Pow2(k - p - 1);
    Doubling(k, p);
    LowArith(v, a, b, m, n, Pow2(k));
  }

  lemma LowArith(v: nat, a: nat, b: nat, m: nat, n: nat, c: nat)
    requires v == a * c + b && c == 2 * (n * m) && m > 0
    ensures v / m % 2 == b / m % 2
  {
    var h, x, g := b / m, b % m, a * n;
    Assoc(a, n, m);
    assert b == h * m + x;
    Distribute(2 * g, h, m);
    DivUnique(v, m, 2 * g + h, x);
  }

  lemma Assoc(a: nat, n: nat, m: nat)
    ensures a * (2 * (n * m)) == 2 * (a * n) * m
  {
  }

  lemma Doubling(k: nat, p: nat)
    requires p < k
    ensures Pow2(k) == 2 * (Pow2(k - p - 1) * Pow2(p))
  {
    Pow2Add(k - p - 1, p);
  }

  lemma {:induction false} FromValueBit(v: nat, k: nat, j: nat)
    requires v < Pow2(k) && j < k
    ensures FromValue(v, k)[j] == (At(v, k - 1 - j) == 1)
  {
    hide At;
    var top := v >= Pow2(k - 1);
    var rest := if top then v - Pow2(k - 1) else v;
    if j == 0 {
      AtHigh(v, if top then 1 else 0, rest, k - 1, k - 1);
      UnitBit();
    } else {
      AtLow(v, if top then 1 else 0, rest, k - 1, k - 1 - j);
      FromValueBit(rest, k - 1, j - 1);
    }
  }

  lemma UnitBit()
    ensures At(1, 0) == 1 && At(0, 0) == 0
  {
  }

  /** An octet whose `w` bits from place `lo` up are replaced by x. */
  function Splice(o: Octet, lo: nat, w: nat, x: nat): (r: int)
    requires lo + w <= 8 && x < Pow2(w)
  {
    o - o / Pow2(lo) % Pow2(w) * Pow2(lo) + x * Pow2(lo)
  }

  lemma SpliceParts(o: Octet, lo: nat, w: nat, x: nat) returns (hi: nat, low: nat, f: nat, mid: nat, was: nat)
    requires lo + w <= 8 && x < Pow2(w)
    ensures low < Pow2(lo) && mid == x * Pow2(lo) + low && was == f * Pow2(lo) + low
    ensures mid < Pow2(lo + w) && was < Pow2(lo + w)
    ensures Splice(o, lo, w, x) == hi * Pow2(lo + w) + mid && o == hi * Pow2(lo + w) + was
  {
    hide Pow2;
    Pow2Add(lo, w);
    Field(o, Pow2(lo), Pow2(w), Pow2(lo + w));
    FitsMultiple(x, Pow2(w), Pow2(lo));
    hi, low, f := o / Pow2(lo + w), o % Pow2(lo), o / Pow2(lo) % Pow2(w);
    mid, was := x * Pow2(lo) + low, f * Pow2(lo) + low;
  }

  /** Splitting a number at two powers. */
  lemma Field(o: nat, m: nat, n: nat, c: nat)
    requires m > 0 && n > 0 && c == m * n
    ensures o == o / c * c + (o / m % n * m + o % m)
    ensures o / m % n * m + o % m < c
  {
    var q, r := o / m, o % m;
    var h, f := q / n, q % n;
    assert q == h * n + f;
    FieldArith(o, m, n, q, r, h, f);
    FitsMultiple(f, n, m);
    DivUnique(o, c, h, f * m + r);
  }

  lemma FieldArith(o: nat, m: nat, n: nat, q: nat, r: nat, h: nat, f: nat)
    requires o == q * m + r && q == h * n + f
    ensures o == h * (m * n) + (f * m + r)
  {
    Distribute(h * n, f, m);
    Regroup(h, n, m);
  }

  lemma SpliceBits(o: Octet, lo: nat, w: nat, x: nat, p: nat)
    requires lo + w <= 8 && x < Pow2(w) && p < 8
    ensures 0 <= Splice(o, lo, w, x) < 256
    ensures At(Splice(o, lo, w, x), p) == if lo <= p < lo + w then At(x, p - lo) else At(o, p)
  {
    hide Pow2, At, Splice;
    var hi, low, f, mid, was := SpliceParts(o, lo, w, x);
    SpliceAt(Splice(o, lo, w, x), o, lo, lo + w, hi, low, x, f, mid, was, p);
  }

  lemma SpliceAt(v: int, o: Octet, lo: nat, k: nat, hi: nat, low: nat, x: nat, f: nat, mid: nat, was: nat, p: nat)
    requires lo <= k <= 8 && low < Pow2(lo)
    requires v == hi * Pow2(k) + mid && o == hi * Pow2(k) + was && mid < Pow2(k) && was < Pow2(k)
    requires mid == x * Pow2(lo) + low && was == f * Pow2(lo) + low
    ensures 0 <= v < 256
    ensures At(v, p) == if lo <= p < k then At(x, p - lo) else At(o, p)
  {
    hide Pow2, At;
    SpliceRange(o, k, hi, mid, was);
    if p >= k {
      AtHigh(v, hi, mid, k, p);
      AtHigh(o, hi, was, k, p);
    } else {
      AtLow(v, hi, mid, k, p);
      AtLow(o, hi, was, k, p);
      if p >= lo {
        AtHigh(mid, x, low, lo, p);
      } else {
        AtLow(mid, x, low, lo, p);
        AtLow(was, f, low, lo, p);
      }
    }
  }

  lemma SpliceRange(o: Octet, k: nat, hi: nat, mid: nat, was: nat)
    requires k <= 8 && o == hi * Pow2(k) + was && mid < Pow2(k) && was < Pow2(k)
    ensures hi * Pow2(k) + mid < 256
  {
    hide Pow2;
    Pow2Add(8 - k, k);
    Pow8();
    HiRange(o, Pow2(k), Pow2(8 - k), hi, mid, was);
  }

  lemma HiRange(o: nat, m: nat, n: nat, hi: nat, mid: nat, was: nat)
    requires o < n * m && o == hi * m + was && mid < m
    ensures hi * m + mid < n * m
  {
    if hi < n {
      FitsMultiple(hi, n, m);
    } else {
      FitsMultiple(n, hi + 1, m);
      Distribute(hi, 1, m);
    }
  }

  lemma Pow8()
    ensures Pow2(8) == 256
  {
    SmallPowers();
  }

  /**
   Inet_Sub_Prefix: store the leading `incr` bits of an entry index at bit `bits` of the buffer.
   Clearing the mask and or-ing in the shifted index is replacing that field of the octet.
   */
  method SubPrefix(buf: array<Octet>, bits: nat, incr: nat, index: nat)
    requires bits + SubBits(bits) <= 8 * buf.Length
    requires 1 <= incr <= SubBits(bits) && index < Pow2(SubBits(bits)) && index % Pow2(SubBits(bits) - incr) == 0
    modifies buf
    ensures Stored(BitsOf(old(buf[..])), BitsOf(buf[..]), bits, FromValue(index, SubBits(bits))[..incr])
  {
    hide Pow2, BitsOf, FromValue, Splice;
    var k := SubBits(bits);
    var shift := k - incr;
    FieldFits(buf.Length, bits);
    assert bits / 8 < buf.Length;
    var x := index / Pow2(shift);
    TopBits(index, k, incr, x);
    var o := buf[bits / 8];
    SpliceBits(o, SubShift(bits) + shift, incr, x, 0);
    buf[bits / 8] := Splice(o, SubShift(bits) + shift, incr, x);
    OctetStored(old(buf[..]), buf[..], bits, incr, index, x);
  }

  /** The buffer holds w from bit `at` on, and everything else is as it was. */
  ghost predicate Stored(was: Bits, now: Bits, at: nat, w: Bits) {
    && |now| == |was| && at + |w| <= |was|
    && now[at .. at + |w|] == w
    && now[..at] == was[..at] && now[at + |w|..] == was[at + |w|..]
  }

  lemma TopBits(index: nat, k: nat, incr: nat, x: nat)
    requires 1 <= incr <= k && index < Pow2(k) && index % Pow2(k - incr) == 0 && x == index / Pow2(k - incr)
    ensures x < Pow2(incr)
    ensures index == x * Pow2(k - incr)
    ensures forall p: nat :: At(x, p) == At(index, p + (k - incr))
  {
    hide Pow2, At;
    Pow2Add(incr, k - incr);
    TopRange(index, x, Pow2(k - incr), Pow2(incr));
    forall p: nat
      ensures At(x, p) == At(index, p + (k - incr))
    {
      AtHigh(index, x, 0, k - incr, p + (k - incr));
    }
  }

  lemma TopRange(index: nat, x: nat, m: nat, n: nat)
    requires m > 0 && x == index / m && index % m == 0 && index < n * m
    ensures index == x * m && x < n
  {
    assert index == x * m + index % m;
    if x >= n {
      FitsMultiple(n, x + 1, m);
      Distribute(x, 1, m);
    }
  }

  lemma OctetStored(was: seq<Octet>, now: seq<Octet>, bits: nat, incr: nat, index: nat, x: nat)
    requires bits + SubBits(bits) <= 8 * |was| && 1 <= incr <= SubBits(bits)
    requires index < Pow2(SubBits(bits)) && x < Pow2(incr)
    requires forall p: nat :: At(x, p) == At(index, p + (SubBits(bits) - incr))
    requires SubShift(bits) + SubBits(bits) <= 8 && bits / 8 < |was|
    requires |now| == |was| && forall i :: 0 <= i < |was| && i != bits / 8 ==> now[i] == was[i]
    requires now[bits / 8] == Splice(was[bits / 8], SubShift(bits) + SubBits(bits) - incr, incr, x)
    ensures Stored(BitsOf(was), BitsOf(now), bits, FromValue(index, SubBits(bits))[..incr])
  {
    hide Pow2, At, FromValue, Splice;
    var k := SubBits(bits);
    forall t | 0 <= t < 8 * |was|
      ensures BitsOf(now)[t] == if bits <= t < bits + incr then FromValue(index, k)[t - bits] else BitsOf(was)[t]
    {
      OneBit(was, now, bits, incr, index, x, t);
    }
    var a, b, w := BitsOf(was), BitsOf(now), FromValue(index, k)[..incr];
    assert b[bits .. bits + incr] == w;
    assert b[..bits] == a[..bits];
    assert b[bits + incr..] == a[bits + incr..];
  }

  lemma OneBit(was: seq<Octet>, now: seq<Octet>, bits: nat, incr: nat, index: nat, x: nat, t: nat)
    requires bits + SubBits(bits) <= 8 * |was| && 1 <= incr <= SubBits(bits) && t < 8 * |was|
    requires index < Pow2(SubBits(bits)) && x < Pow2(incr)
    requires forall p: nat :: At(x, p) == At(index, p + (SubBits(bits) - incr))
    requires SubShift(bits) + SubBits(bits) <= 8 && bits / 8 < |was|
    requires |now| == |was| && forall i :: 0 <= i < |was| && i != bits / 8 ==> now[i] == was[i]
    requires now[bits / 8] == Splice(was[bits / 8], SubShift(bits) + SubBits(bits) - incr, incr, x)
    ensures BitsOf(now)[t] == if bits <= t < bits + incr then FromValue(index, SubBits(bits))[t - bits]
      else BitsOf(was)[t]
  {
    hide Pow2, FromValue, Splice, At, BitsOf, SubBits, SubShift;
    BitIsAt(was, t);
    BitIsAt(now, t);
    if t / 8 == bits / 8 {
      InOctet(was, now, bits, incr, index, x, t);
    } else {
      SameOctet(bits, incr, bits);
      OtherOctet(bits, incr, t);
    }
  }

  lemma InOctet(was: seq<Octet>, now: seq<Octet>, bits: nat, incr: nat, index: nat, x: nat, t: nat)
    requires bits + SubBits(bits) <= 8 * |was| && 1 <= incr <= SubBits(bits) && t / 8 == bits / 8 < |was| == |now|
    requires index < Pow2(SubBits(bits)) && x < Pow2(incr)
    requires forall p: nat :: At(x, p) == At(index, p + (SubBits(bits) - incr))
    requires SubShift(bits) + SubBits(bits) <= 8
    requires now[bits / 8] == Splice(was[bits / 8], SubShift(bits) + SubBits(bits) - incr, incr, x)
    ensures (At(now[bits / 8], 7 - t % 8) == 1) ==
      if bits <= t < bits + incr then FromValue(index, SubBits(bits))[t - bits] else At(was[bits / 8], 7 - t % 8) == 1
  {
    hide Pow2, FromValue, Splice, At, SubBits, SubShift;
    SpliceBits(was[bits / 8], SubShift(bits) + SubBits(bits) - incr, incr, x, 7 - t % 8);
    SameOctet(bits, incr, t);
    if bits <= t < bits + incr {
      FromValueBit(index, SubBits(bits), t - bits);
    }
  }

  lemma BitIsAt(octets: seq<Octet>, t: nat)
    requires t < 8 * |octets|
    ensures BitsOf(octets)[t] == (At(octets[t / 8], 7 - t % 8) == 1)
  {
  }

  /** Places of an octet's bits, counted from the right and from the left. */
  lemma SameOctet(bits: nat, incr: nat, t: nat)
    requires 1 <= incr <= SubBits(bits) && t / 8 == bits / 8
    ensures var lo, p := SubShift(bits) + SubBits(bits) - incr, 7 - t % 8;
      && (lo <= p < lo + incr <==> bits <= t < bits + incr)
      && (bits <= t < bits + incr ==> p - lo + (SubBits(bits) - incr) == SubBits(bits) - 1 - (t - bits))
  {
  }

  lemma OtherOctet(bits: nat, incr: nat, t: nat)
    requires incr <= SubBits(bits) && t / 8 != bits / 8
    ensures !(bits <= t < bits + incr)
  {
    hide SubBits;
    FieldRoom(bits);
    if t >= bits {
      SameIfNear(bits, t - bits);
    }
  }

  lemma FieldRoom(bits: nat)
    ensures bits % 8 + SubBits(bits) <= 8
  {
    assert bits % 8 % 4 == bits % 4;
  }

  lemma SameIfNear(bits: nat, d: nat)
    ensures bits % 8 + d < 8 ==> (bits + d) / 8 == bits / 8
  {
  }
}
