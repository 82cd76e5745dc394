/**
 The incremental digest of libconn/md5.c against the one-shot definition of RFC 1321: padding and
 64-bit length (sections 3.1 and 3.2), then one transformation per 64-byte block. The transformation
 itself is a parameter.
 */
module Md5 {
  import opened Basics

  type Word = x: int | 0 <= x < 0x1_0000_0000

  const WORD := 0x1_0000_0000
  const BLOCK := 64
  const INIT: seq<Word> := [0x67452301, 0xefcdab89, 0x98badcfe, 0x10325476]

  /** The state after one more block of sixteen words. */
  type Transform = (seq<Word>, seq<Word>) -> seq<Word>

  ghost predicate FourWords(t: Transform) {
    forall s, b :: |t(s, b)| == 4
  }

  // Little-endian words.

  function WordAt(b: seq<Byte>, i: nat): (w: Word)
    requires i + 4 <= |b|
  {
    b[i + 3] as int * 0x100_0000 + b[i + 2] as int * 0x1_0000 + b[i + 1] as int * 0x100 + b[i] as int
  }

  function Bytes(w: Word): (b: seq<Byte>)
    ensures |b| == 4 && WordAt(b, 0) == w
  {
    [w % 0x100, w / 0x100 % 0x100, w / 0x1_0000 % 0x100, w / 0x100_0000]
  }

  function Words(b: seq<Byte>): (w: seq<Word>)
    requires |b| == BLOCK
  {
    seq(16, i requires 0 <= i < 16 => WordAt(b, 4 * i))
  }

  // The definition.

  function Blocks(t: Transform, m: seq<Byte>): (s: seq<Word>)
    requires |m| % BLOCK == 0
    decreases |m|
  {
    if m == [] then INIT
    else t(Blocks(t, m[..|m| - BLOCK]), Words(m[|m| - BLOCK..]))
  }

  function Zeros(n: nat): (z: seq<Byte>)
    ensures |z| == n
  {
    seq(n, _ => 0)
  }

  /** One bit, then zero bits, up to 56 bytes modulo 64. */
  function PadLen(n: nat): (p: nat)
    ensures 1 <= p <= BLOCK && (n + p) % BLOCK == 56
  {
    if n % BLOCK < 56 then 56 - n % BLOCK else 120 - n % BLOCK
  }

  function BitCount(n: nat): (Word, Word) {
    (8 * n % WORD, 8 * n / WORD % WORD)
  }

  function Padding(n: nat): (p: seq<Byte>)
    ensures |p| == PadLen(n) && p == [0x80] + Zeros(PadLen(n) - 1)
  {
    [0x80] + Zeros(PadLen(n) - 1)
  }

  function LengthBytes(n: nat): (b: seq<Byte>)
    ensures |b| == 8
  {
    Bytes(BitCount(n).0) + Bytes(BitCount(n).1)
  }

  lemma Whole(n: nat)
    requires n % BLOCK == 56
    ensures (n + 8) % BLOCK == 0
  {
  }

  function Padded(m: seq<Byte>): (r: seq<Byte>)
    ensures |r| == |m| + PadLen(|m|) + 8 && |r| % BLOCK == 0
  {
    Whole(|m| + PadLen(|m|));
    m + Padding(|m|) + LengthBytes(|m|)
  }

  /** The number that bytes stand for, the first one counting least. */
  function Little(b: seq<Byte>): nat {
    if b == [] then 0 else b[0] as int + 0x100 * Little(b[1..])
  }

  /**
   The padded message: the message, a one bit and the fewest zero bits that leave room for a 64-bit
   count of its bits at the end of a block, and that count, least byte first.
   */
  lemma PaddedMeans(m: seq<Byte>)
    ensures var p, n := Padded(m), |m|;
      && |p| % BLOCK == 0 && n + 9 <= |p| <= n + 72 && p[..n] == m && p[n] == 0x80
      && (forall i :: n < i < |p| - 8 ==> p[i] == 0)
      && Little(p[|p| - 8..]) == 8 * n % 0x1_0000_0000_0000_0000
  {
    var p, n := Padded(m), |m|;
    assert p[|p| - 8..] == LengthBytes(n);
    LittleWords(BitCount(n).0, BitCount(n).1);
    SplitCount(8 * n);
  }

  lemma LittleWords(a: Word, b: Word)
    ensures Little(Bytes(a) + Bytes(b)) == a + WORD * b
  {
    var x := Bytes(a) + Bytes(b);
    LittleFour(Bytes(a), Bytes(b));
    LittleFour(Bytes(b), []);
    assert Bytes(b) + [] == Bytes(b);
    assert WordAt(Bytes(a), 0) == a && WordAt(Bytes(b), 0) == b;
  }

  lemma LittleFour(w: seq<Byte>, rest: seq<Byte>)
    requires |w| == 4
    ensures Little(w + rest) == WordAt(w, 0) + WORD * Little(rest)
  {
    var x := w + rest;
    assert x[1..] == w[1..] + rest && x[1..][1..] == w[2..] + rest && x[1..][1..][1..] == w[3..] + rest;
    assert x[1..][1..][1..][1..] == rest;
    var d := Little(rest);
    assert Little(x[1..][1..][1..]) == w[3] as int + 0x100 * d;
    assert Little(x[1..][1..]) == w[2] as int + 0x100 * (w[3] as int + 0x100 * d);
    assert Little(x[1..]) == w[1] as int + 0x100 * (w[2] as int + 0x100 * (w[3] as int + 0x100 * d));
  }

  lemma SplitCount(n: nat)
    ensures n % WORD + WORD * (n / WORD % WORD) == n % 0x1_0000_0000_0000_0000
  {
  }

  function DigestOf(t: Transform, m: seq<Byte>): seq<Byte>
    requires FourWords(t)
  {
    var s := Blocks(t, Padded(m));
    assert |s| == 4 by { FourAlways(t, Padded(m)); }
    Bytes(s[0]) + Bytes(s[1]) + Bytes(s[2]) + Bytes(s[3])
  }

  lemma FourAlways(t: Transform, m: seq<Byte>)
    requires FourWords(t) && |m| % BLOCK == 0
    ensures |Blocks(t, m)| == 4
  {
  }

  // The two-word bit counter.

  lemma Carry(n: nat, len: nat, i0: nat, i1: nat, low: nat)
    requires i0 == BitCount(n).0 && i1 == BitCount(n).1 && low == 8 * len % WORD
    ensures (i0 + low) % WORD == BitCount(n + len).0
    ensures (i0 + low) % WORD < i0 <==> i0 + low >= WORD
    ensures (i1 + (if i0 + low >= WORD then 1 else 0) + len / 0x2000_0000) % WORD == BitCount(n + len).1
  {
    var a, b := 8 * n / WORD, 8 * len / WORD;
    assert 8 * n == a * WORD + i0 && 8 * len == b * WORD + low;
    Eighth(len);
    var c := if i0 + low >= WORD then 1 else 0;
    assert 8 * (n + len) == (a + b + c) * WORD + (i0 + low - c * WORD);
    Quotient(8 * (n + len), a + b + c, i0 + low - c * WORD);
    ModAdd(a, c + b);
  }

  lemma ModAdd(a: nat, k: nat)
    ensures (a % WORD + k) % WORD == (a + k) % WORD
  {
    var q, r := a / WORD, a % WORD;
    var q', r' := (r + k) / WORD, (r + k) % WORD;
    assert a + k == (q + q') * WORD + r';
    Quotient(a + k, q + q', r');
  }

  lemma Twice(x: nat, y: nat)
    ensures ((x + 1) % WORD + y) % WORD == (x + 1 + y) % WORD && (x + y) % WORD == (x + 0 + y) % WORD
  {
    ModAdd(x + 1, y);
  }

  lemma Eighth(len: nat)
    ensures 8 * len / WORD == len / 0x2000_0000
  {
  }

  lemma Quotient(x: nat, q: nat, r: nat)
    requires x == q * WORD + r && r < WORD
    ensures x / WORD == q && x % WORD == r
  {
  }

  lemma Fill(n: nat)
    ensures BitCount(n).0 / 8 % BLOCK == n % BLOCK
  {
    var a := 8 * n / WORD;
    assert 8 * n == a * WORD + BitCount(n).0;
    assert BitCount(n).0 == 8 * (n - a * 0x2000_0000);
    assert n - a * 0x2000_0000 >= 0;
    Multiple(n - a * 0x2000_0000, a);
  }

  lemma Multiple(k: nat, a: nat)
    ensures (k + a * 0x2000_0000) % BLOCK == k % BLOCK
  {
    var q, r, t := k / BLOCK, k % BLOCK, a * 0x80_0000;
    Remainder(k + a * 0x2000_0000, q + t, r);
  }

  lemma Remainder(x: nat, q: nat, r: nat)
    requires x == q * BLOCK + r && r < BLOCK
    ensures x / BLOCK == q && x % BLOCK == r
  {
  }

  /** The bytes of a message that are in whole blocks. */
  function Whole64(m: seq<Byte>): (w: seq<Byte>)
    ensures |w| % BLOCK == 0 && w <= m && |m| - |w| == |m| % BLOCK
  {
    var k := |m| - |m| % BLOCK;
    assert k == |m| / BLOCK * BLOCK;
    Remainder(k, |m| / BLOCK, 0);
    m[..k]
  }

  /** One byte more either joins the partial block or completes it. */
  lemma NextByte(m: seq<Byte>, x: Byte)
    ensures |m| % BLOCK < BLOCK - 1 ==> Whole64(m + [x]) == Whole64(m) && |m + [x]| % BLOCK == |m| % BLOCK + 1
    ensures |m| % BLOCK == BLOCK - 1 ==> Whole64(m + [x]) == m + [x] && |m + [x]| % BLOCK == 0
    ensures |m| % BLOCK == BLOCK - 1 ==> (m + [x])[..|m| + 1 - BLOCK] == Whole64(m)
  {
    var q, r := |m| / BLOCK, |m| % BLOCK;
    if r < BLOCK - 1 {
      Remainder(|m| + 1, q, r + 1);
    } else {
      Remainder(|m| + 1, q + 1, 0);
    }
  }

  class Context {
    const transform: Transform
    var i0: Word
    var i1: Word
    var buf: seq<Word>
    const inp: array<Byte>
    var digest: seq<Byte>
    ghost var msg: seq<Byte>

    /** The counter, the block buffer and the state are those of the message so far. */
    ghost predicate Valid()
      reads this, inp
    {
      && FourWords(transform) && inp.Length == BLOCK
      && i0 == BitCount(|msg|).0 && i1 == BitCount(|msg|).1
      && buf == Blocks(transform, Whole64(msg))
      && inp[..|msg| % BLOCK] == msg[|Whole64(msg)|..]
    }

    /** MD5Init. */
    constructor (transform: Transform)
      requires FourWords(transform)
      ensures Valid() && msg == [] && this.transform == transform && fresh(inp)
    {
      this.transform := transform;
      i0, i1, buf, msg := 0, 0, INIT, [];
      inp := new Byte[BLOCK](_ => 0);
      digest := [];
    }

    /** The loop body of MD5Update: one byte into the buffer, and a transformation when it is full. */
    method Absorb(x: Byte, mdi: nat, ghost m: seq<Byte>) returns (mdi': nat)
      requires FourWords(transform) && inp.Length == BLOCK && mdi == |m| % BLOCK
      requires buf == Blocks(transform, Whole64(m)) && inp[..mdi] == m[|Whole64(m)|..]
      modifies this`buf, inp
      ensures mdi' == |m + [x]| % BLOCK && buf == Blocks(transform, Whole64(m + [x])) &&
        inp[..mdi'] == (m + [x])[|Whole64(m + [x])|..]
    {
      hide Blocks, Words, Whole64;
      NextByte(m, x);
      inp[mdi] := x;
      mdi' := mdi + 1;
      assert inp[..mdi'] == m[|Whole64(m)|..] + [x];
      if mdi' == BLOCK {
        assert inp[..] == inp[..mdi'];
        LastBlock(transform, m, x, inp[..]);
        buf := transform(buf, Words(inp[..]));
        mdi' := 0;
      }
    }

    /** The bit counter: a carry out of the low word, and the bits of the length that do not fit it. */
    method Count(len: nat, ghost n: nat)
      requires i0 == BitCount(n).0 && i1 == BitCount(n).1
      modifies this`i0, this`i1
      ensures i0 == BitCount(n + len).0 && i1 == BitCount(n + len).1
    {
      hide BitCount;
      var low := 8 * len % WORD;
      Carry(n, len, i0, i1, low);
      Twice(i1, len / 0x2000_0000);
      if (i0 + low) % WORD < i0 {
        i1 := (i1 + 1) % WORD;
      }
      i0 := (i0 + low) % WORD;
      i1 := (i1 + len / 0x2000_0000) % WORD;
    }

    /** MD5Update. */
    method Update(data: seq<Byte>)
      requires Valid() && |data| < WORD
      modifies this`i0, this`i1, this`buf, this`msg, inp
      ensures Valid() && msg == old(msg) + data
    {
      hide Blocks, Whole64, BitCount, FourWords;
      Fill(|msg|);
      var mdi := i0 / 8 % BLOCK;
      Count(|data|, |msg|);
      var i := 0;
      assert msg + data[..0] == msg;
      while i < |data|
        invariant 0 <= i <= |data| && msg == old(msg) && mdi == |msg + data[..i]| % BLOCK
        invariant i0 == BitCount(|msg| + |data|).0 && i1 == BitCount(|msg| + |data|).1
        invariant buf == Blocks(transform, Whole64(msg + data[..i])) &&
          inp[..mdi] == (msg + data[..i])[|Whole64(msg + data[..i])|..]
      {
        assert msg + data[..i + 1] == msg + data[..i] + [data[i]];
        mdi := Absorb(data[i], mdi, msg + data[..i]);
        i := i + 1;
      }
      assert msg + data[..i] == msg + data;
      msg := msg + data;
    }

    /** MD5Final. */
    method Final()
      requires Valid()
      modifies this, inp
      ensures digest == DigestOf(transform, old(msg))
    {
      hide Blocks, Words, Whole64, BitCount, Bytes, WordAt, Padding, LengthBytes;
      ghost var m := msg;
      var in14, in15 := i0, i1;
      Fill(|msg|);
      var mdi := i0 / 8 % BLOCK;
      var padLen := if mdi < 56 then 56 - mdi else 120 - mdi;
      Update(([0x80] + Zeros(63))[..padLen]);
      assert ([0x80] + Zeros(63))[..padLen] == Padding(|m|);
      var rest := inp[..56];
      assert |msg| % BLOCK == 56;
      PaddedState(transform, m, rest);
      buf := transform(buf, seq(14, i requires 0 <= i < 14 => WordAt(rest, 4 * i)) + [in14, in15]);
      FourAlways(transform, Padded(m));
      digest := Bytes(buf[0]) + Bytes(buf[1]) + Bytes(buf[2]) + Bytes(buf[3]);
    }
  }

  /** The last block: what is left of the padded message, then the bit count. */
  lemma PaddedState(t: Transform, m: seq<Byte>, rest: seq<Byte>)
    requires |rest| == 56 && rest == (m + Padding(|m|))[|Whole64(m + Padding(|m|))|..]
    ensures Blocks(t, Padded(m)) ==
      t(Blocks(t, Whole64(m + Padding(|m|))),
        seq(14, i requires 0 <= i < 14 => WordAt(rest, 4 * i)) + [BitCount(|m|).0, BitCount(|m|).1])
  {
    var p, n := Padded(m), m + Padding(|m|);
    var last := rest + LengthBytes(|m|);
    assert p == n + LengthBytes(|m|);
    assert p[..|p| - BLOCK] == Whole64(n);
    assert p[|p| - BLOCK..] == last;
    LastWords(rest, BitCount(|m|).0, BitCount(|m|).1);
  }

  lemma LastWords(rest: seq<Byte>, a: Word, b: Word)
    requires |rest| == 56
    ensures Words(rest + (Bytes(a) + Bytes(b))) == seq(14, i requires 0 <= i < 14 => WordAt(rest, 4 * i)) + [a, b]
  {
    hide Bytes;
    var block := rest + (Bytes(a) + Bytes(b));
    assert WordAt(block, 56) == WordAt(Bytes(a), 0) && WordAt(block, 60) == WordAt(Bytes(b), 0);
    forall i | 0 <= i < 14
      ensures WordAt(block, 4 * i) == WordAt(rest, 4 * i)
    {
    }
  }

  function Concat(pieces: seq<seq<Byte>>): seq<Byte> {
    if pieces == [] then [] else Concat(pieces[..|pieces| - 1]) + pieces[|pieces| - 1]
  }

  /** However a message is split into updates, its digest is the one of the whole. */
  method Digest(transform: Transform, pieces: seq<seq<Byte>>) returns (digest: seq<Byte>)
    requires FourWords(transform) && forall p :: p in pieces ==> |p| < WORD
    ensures digest == DigestOf(transform, Concat(pieces))
  {
    hide DigestOf;
    var c := new Context(transform);
    var i := 0;
    while i < |pieces|
      invariant 0 <= i <= |pieces| && c.Valid() && c.transform == transform && c.msg == Concat(pieces[..i]) &&
        fresh(c) && fresh(c.inp)
    {
      assert pieces[..i + 1][..i] == pieces[..i];
      c.Update(pieces[i]);
      i := i + 1;
    }
    assert pieces[..i] == pieces;
    c.Final();
    digest := c.digest;
  }

  lemma LastBlock(t: Transform, m: seq<Byte>, x: Byte, block: seq<Byte>)
    requires |m| % BLOCK == BLOCK - 1 && |block| == BLOCK && block == m[|Whole64(m)|..] + [x]
    ensures Blocks(t, Whole64(m + [x])) == t(Blocks(t, Whole64(m)), Words(block))
  {
    NextByte(m, x);
    var n := m + [x];
    assert n[|n| - BLOCK..] == block;
  }
}
