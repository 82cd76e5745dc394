/**
 The message integrity check of libconn/desmd5.c, as its two ends must agree on it.
 MD5 and DES are parameters: any digest, and any block cipher that decrypts what it encrypts.
 */
module Integrity {
  import opened Basics
  import opened Framing

  datatype Suite = Suite(md5: seq<Byte> -> seq<Byte>, encrypt: (seq<Byte>, seq<Byte>) -> seq<Byte>,
    decrypt: (seq<Byte>, seq<Byte>) -> seq<Byte>)

  const BLOCK_LEN := 8

  ghost predicate Sane(s: Suite) {
    && (forall x :: |s.md5(x)| == MIC_LEN)
    && (forall k, b :: |b| == BLOCK_LEN ==> |s.encrypt(k, b)| == BLOCK_LEN && |s.decrypt(k, b)| == BLOCK_LEN)
    && (forall k, b :: |b| == BLOCK_LEN ==> s.decrypt(k, s.encrypt(k, b)) == b)
    && (forall k, b :: |b| == BLOCK_LEN ==> s.encrypt(k, s.decrypt(k, b)) == b)
  }

  function Word(b: seq<Byte>, i: nat): (n: nat)
    requires i + 4 <= |b|
    ensures n < 0x1_0000_0000
  {
    b[i] as int * 0x100_0000 + b[i + 1] as int * 0x1_0000 + b[i + 2] as int * 0x100 + b[i + 3] as int
  }

  function WordBytes(n: nat): (b: seq<Byte>)
    requires n < 0x1_0000_0000
    ensures |b| == 4 && Word(b, 0) == n
  {
    [n / 0x100_0000, n / 0x1_0000 % 0x100, n / 0x100 % 0x100, n % 0x100]
  }

  type Seqno = n: int | 0 <= n < 0x1_0000_0000

  /** The 32-bit increment. */
  function Next(n: Seqno): Seqno {
    if n + 1 < 0x1_0000_0000 then n + 1 else 0
  }

  /** What one direction of a session carries from message to message; the session id counts only after the first. */
  datatype Link = Link(key: seq<Byte>, seqno: Seqno, sessid: seq<Byte>)

  /** A link with the session id forgotten while it does not count. */
  function LinkWith(key: seq<Byte>, seqno: Seqno, sessid: seq<Byte>): Link {
    Link(key, seqno, if seqno > 0 then sessid else [])
  }

  function Preamble(l: Link, header: seq<Byte>): seq<Byte> {
    l.key + WordBytes(l.seqno) + header + if l.seqno > 0 then l.sessid else []
  }

  function Digest(s: Suite, l: Link, header: seq<Byte>, data: seq<Byte>): seq<Byte> {
    s.md5(Preamble(l, header) + data)
  }

  function Seal(s: Suite, key: seq<Byte>, digest: seq<Byte>): seq<Byte>
    requires |digest| == MIC_LEN
  {
    s.encrypt(key, digest[..BLOCK_LEN]) + s.encrypt(key, digest[BLOCK_LEN..])
  }

  lemma SealLen(s: Suite, key: seq<Byte>, digest: seq<Byte>)
    requires Sane(s) && |digest| == MIC_LEN
    ensures |Seal(s, key, digest)| == MIC_LEN
  {
  }

  /** The trailer of a message. */
  ghost function TrailerOf(s: Suite, l: Link, header: seq<Byte>, data: seq<Byte>): seq<Byte>
    requires Sane(s)
  {
    Seal(s, l.key, Digest(s, l, header, data))
  }

  /** The direction after the message. */
  function Advance(s: Suite, l: Link, header: seq<Byte>, data: seq<Byte>): Link {
    LinkWith(l.key, Next(l.seqno), if l.seqno == 0 then Digest(s, l, header, data) else l.sessid)
  }

  /** The first message of a session also opens the other direction. */
  function Reply(s: Suite, l: Link, header: seq<Byte>, data: seq<Byte>, back: Option<Link>): Option<Link> {
    if l.seqno == 0 then Some(Link(l.key, 1, Digest(s, l, header, data))) else back
  }

  /** Decrypting the trailer half by half and comparing accepts exactly the sealed digest. */
  lemma AcceptsSeal(s: Suite, key: seq<Byte>, digest: seq<Byte>, mic: seq<Byte>)
    requires Sane(s) && |digest| == MIC_LEN && |mic| == MIC_LEN
    ensures (s.decrypt(key, mic[..BLOCK_LEN]) == digest[..BLOCK_LEN] &&
      s.decrypt(key, mic[BLOCK_LEN..]) == digest[BLOCK_LEN..])
      <==> mic == Seal(s, key, digest)
  {
    assert mic == mic[..BLOCK_LEN] + mic[BLOCK_LEN..];
    var a, b := s.encrypt(key, digest[..BLOCK_LEN]), s.encrypt(key, digest[BLOCK_LEN..]);
    assert |digest[..BLOCK_LEN]| == BLOCK_LEN && |digest[BLOCK_LEN..]| == BLOCK_LEN;
    assert (a + b)[..BLOCK_LEN] == a && (a + b)[BLOCK_LEN..] == b;
  }

  /** The state of one direction while a message passes (the context structure). */
  datatype Context = Context(key: seq<Byte>, seqno: Seqno, offset: nat, fed: seq<Byte>, sessid: seq<Byte>, done: bool,
    digest: seq<Byte>)

  function LinkOf(c: Context): Link {
    LinkWith(c.key, c.seqno, c.sessid)
  }

  /** The digest has taken in the preamble and the first bytes of the data, each once, in order. */
  ghost predicate Fed(l: Link, header: seq<Byte>, data: seq<Byte>, c: Context) {
    && c.key == l.key
    && (c.offset == 0 ==> LinkOf(c) == l)
    && (c.offset > 0 ==>
          HEADER_LEN <= c.offset <= HEADER_LEN + |data| && c.fed == Preamble(l, header) + data[..c.offset - HEADER_LEN])
  }

  /** Start the digest of a message. */
  function Begin(c: Context, header: seq<Byte>): Context {
    c.(done := false, offset := HEADER_LEN, fed := c.key + WordBytes(c.seqno) + header + if c.seqno > 0 then c.sessid
      else [])
  }

  lemma Begun(l: Link, header: seq<Byte>, data: seq<Byte>, c: Context)
    requires Fed(l, header, data, c) && c.offset == 0
    ensures Fed(l, header, data, Begin(c, header)) && LinkOf(Begin(c, header)) == l
    ensures Begin(c, header).offset == HEADER_LEN && !Begin(c, header).done
  {
    assert Preamble(l, header) + data[..0] == Preamble(l, header);
  }

  /** Take in the data up to `end`. */
  function Feed(c: Context, data: seq<Byte>, end: nat): Context
    requires HEADER_LEN <= c.offset <= HEADER_LEN + end && end <= |data|
  {
    c.(fed := c.fed + data[c.offset - HEADER_LEN .. end], offset := end + HEADER_LEN)
  }

  lemma FedMore(l: Link, header: seq<Byte>, data: seq<Byte>, c: Context, end: nat)
    requires Fed(l, header, data, c) && HEADER_LEN <= c.offset <= HEADER_LEN + end && end <= |data|
    ensures Fed(l, header, data, Feed(c, data, end)) && LinkOf(Feed(c, data, end)) == LinkOf(c)
    ensures Feed(c, data, end).offset == HEADER_LEN + end && Feed(c, data, end).done == c.done
  {
    var n := c.offset - HEADER_LEN;
    assert data[..n] + data[n..end] == data[..end];
    assert Preamble(l, header) + data[..n] + data[n..end] == Preamble(l, header) + (data[..n] + data[n..end]);
  }

  lemma FedBounds(l: Link, header: seq<Byte>, data: seq<Byte>, c: Context)
    requires Fed(l, header, data, c)
    ensures c.key == l.key && (c.offset == 0 || HEADER_LEN <= c.offset <= HEADER_LEN + |data|)
  {
  }

  lemma FedAll(s: Suite, l: Link, header: seq<Byte>, data: seq<Byte>, c: Context)
    requires Fed(l, header, data, c) && c.offset == HEADER_LEN + |data|
    ensures s.md5(c.fed) == Digest(s, l, header, data)
  {
    assert data[..|data|] == data;
  }

  /** The state of a sender's check: not yet sealed, or sealed with the links moved on. */
  ghost predicate SenderOk(s: Suite, l: Link, back: Option<Link>, header: seq<Byte>, data: seq<Byte>,
      trailer: seq<Byte>, c: Context, back': Option<Link>)
    requires Sane(s)
  {
    && Fed(l, header, data, c)
    && if c.offset > 0 && c.done then
         && c.offset == HEADER_LEN + |data| && trailer == TrailerOf(s, l, header, data)
         && LinkOf(c) == Advance(s, l, header, data) && back' == Reply(s, l, header, data, back)
       else LinkOf(c) == l && back' == back
  }

  /** The state of a receiver's check before the trailer is complete, with n bytes of data taken in. */
  ghost predicate ReceiverOk(s: Suite, l: Link, header: seq<Byte>, data: seq<Byte>, c: Context) {
    && Fed(l, header, data, c) && LinkOf(c) == l
    && (c.offset > 0 && c.done ==> c.offset == HEADER_LEN + |data| && c.digest == Digest(s, l, header, data))
  }

  lemma ReceiverFresh(s: Suite, l: Link, header: seq<Byte>, data: seq<Byte>, header': seq<Byte>, data': seq<Byte>,
      c: Context)
    requires ReceiverOk(s, l, header, data, c) && c.offset == 0
    ensures ReceiverOk(s, l, header', data', c)
  {
  }

  /** Data that has not been taken in yet does not matter. */
  lemma FedSame(l: Link, header: seq<Byte>, data: seq<Byte>, data': seq<Byte>, c: Context)
    requires Fed(l, header, data, c) && |data'| == |data| &&
      (c.offset > 0 ==> data'[..c.offset - HEADER_LEN] == data[..c.offset - HEADER_LEN])
    ensures Fed(l, header, data', c)
  {
  }

  lemma ReceiverSame(s: Suite, l: Link, header: seq<Byte>, data: seq<Byte>, data': seq<Byte>, c: Context)
    requires ReceiverOk(s, l, header, data, c) && |data'| == |data|
    requires c.offset > 0 ==> data'[..c.offset - HEADER_LEN] == data[..c.offset - HEADER_LEN]
    ensures ReceiverOk(s, l, header, data', c)
  {
    FedSame(l, header, data, data', c);
    if c.offset > 0 && c.done {
      assert data'[..|data|] == data' && data[..|data|] == data;
    }
  }

  /** The trailer as it is decrypted in place, first half first. */
  lemma Halves(s: Suite, l: Link, header: seq<Byte>, data: seq<Byte>, mic: seq<Byte>)
    requires Sane(s) && |mic| == MIC_LEN
    ensures var digest := Digest(s, l, header, data);
      var a, b := s.decrypt(l.key, mic[..BLOCK_LEN]), s.decrypt(l.key, mic[BLOCK_LEN..]);
      && |a| == BLOCK_LEN && |b| == BLOCK_LEN && |digest| == MIC_LEN
      && (a + mic[BLOCK_LEN..])[..BLOCK_LEN] == a && (a + mic[BLOCK_LEN..])[BLOCK_LEN..] == mic[BLOCK_LEN..] &&
        (a + b)[BLOCK_LEN..] == b
      && (mic == TrailerOf(s, l, header, data) <==> a == digest[..BLOCK_LEN] && b == digest[BLOCK_LEN..])
  {
    assert |mic[..BLOCK_LEN]| == BLOCK_LEN && |mic[BLOCK_LEN..]| == BLOCK_LEN;
    AcceptsSeal(s, l.key, Digest(s, l, header, data), mic);
  }

  // Two peers.

  /** The links a peer writes and reads with. */
  datatype Peer = Peer(out: Option<Link>, back: Option<Link>)

  ghost predicate InStep(a: Peer, b: Peer) {
    a.out == b.back && a.back == b.out
  }

  function Sent(s: Suite, p: Peer, header: seq<Byte>, data: seq<Byte>): Peer {
    if p.out == None then p
    else Peer(Some(Advance(s, p.out.value, header, data)), Reply(s, p.out.value, header, data, p.back))
  }

  function Received(s: Suite, p: Peer, header: seq<Byte>, data: seq<Byte>): Peer {
    if p.back == None then p
    else Peer(Reply(s, p.back.value, header, data, p.out), Some(Advance(s, p.back.value, header, data)))
  }

  datatype Event =
    | Send(fromA: bool, header: seq<Byte>, data: seq<Byte>)
    | Authenticate(fromA: bool, key: seq<Byte>)

  function After(s: Suite, a: Peer, b: Peer, e: Event): (Peer, Peer) {
    match e
    case Send(fromA, header, data) =>
      if fromA then (Sent(s, a, header, data), Received(s, b, header, data))
        else (Received(s, a, header, data), Sent(s, b, header, data))
    case Authenticate(fromA, key) =>
      var l := Some(Link(key, 0, []));
      if fromA then (a.(out := l), b.(back := l)) else (a.(back := l), b.(out := l))
  }

  function AfterAll(s: Suite, a: Peer, b: Peer, es: seq<Event>): (Peer, Peer) {
    if es == [] then (a, b)
    else var (a', b') := AfterAll(s, a, b, es[..|es| - 1]); After(s, a', b', es[|es| - 1])
  }

  /** Through handshakes, re-authentication and any messages, each side expects what the other sends. */
  lemma {:induction false} StaysInStep(s: Suite, a: Peer, b: Peer, es: seq<Event>)
    requires InStep(a, b)
    ensures InStep(AfterAll(s, a, b, es).0, AfterAll(s, a, b, es).1)
  {
    if es != [] {
      StaysInStep(s, a, b, es[..|es| - 1]);
    }
  }

  // The numbers of a session.

  /** The link one side writes with, and the one the other side reads with. */
  function OutOf(p: (Peer, Peer), fromA: bool): Option<Link> {
    if fromA then p.0.out else p.1.out
  }

  function BackOf(p: (Peer, Peer), fromA: bool): Option<Link> {
    if fromA then p.1.back else p.0.back
  }

  /** How many of the messages one side has sent. */
  function Told(es: seq<Event>, fromA: bool): (n: nat)
    ensures n <= |es|
  {
    if es == [] then 0
    else Told(es[..|es| - 1], fromA) + if es[|es| - 1].Send? && es[|es| - 1].fromA == fromA then 1 else 0
  }

  /** One side authenticates itself with a key and sends a first message; then come messages in both directions. */
  ghost predicate Opens(es: seq<Event>, fromA: bool, key: seq<Byte>, header: seq<Byte>, data: seq<Byte>) {
    && |es| >= 2 && es[0] == Authenticate(fromA, key) && es[1] == Send(fromA, header, data)
    && forall i :: 2 <= i < |es| ==> es[i].Send?
  }

  /** Fewer messages than the sequence numbers can tell apart; the replies are numbered from one. */
  ghost predicate InRange(es: seq<Event>, fromA: bool) {
    Told(es, fromA) < 0x1_0000_0000 && Told(es, !fromA) + 1 < 0x1_0000_0000
  }

  /** The session id: the digest of the first message. */
  function SessionId(s: Suite, key: seq<Byte>, header: seq<Byte>, data: seq<Byte>): seq<Byte> {
    s.md5(key + [0, 0, 0, 0] + header + data)
  }

  lemma FirstDigest(s: Suite, key: seq<Byte>, header: seq<Byte>, data: seq<Byte>)
    ensures Digest(s, Link(key, 0, []), header, data) == SessionId(s, key, header, data)
  {
    assert WordBytes(0) == [0, 0, 0, 0];
    assert key + WordBytes(0) + header + [] == key + [0, 0, 0, 0] + header;
  }

  /** An authentication starts its direction at number zero, on both sides. */
  lemma StartsAtZero(s: Suite, a: Peer, b: Peer, fromA: bool, key: seq<Byte>)
    ensures var r := After(s, a, b, Authenticate(fromA, key));
      OutOf(r, fromA) == Some(Link(key, 0, [])) == BackOf(r, fromA)
  {
  }

  /**
   The number of a session's direction is the number of messages it has carried, that of the other
   direction one more than it has carried; both sides agree on them, and on the session id.
   */
  lemma {:induction false} Numbered(s: Suite, a: Peer, b: Peer, es: seq<Event>, fromA: bool, key: seq<Byte>,
      header: seq<Byte>, data: seq<Byte>)
    requires Opens(es, fromA, key, header, data) && InRange(es, fromA)
    ensures var r, id := AfterAll(s, a, b, es), SessionId(s, key, header, data);
      && OutOf(r, fromA) == Some(Link(key, Told(es, fromA), id)) == BackOf(r, fromA)
      && OutOf(r, !fromA) == Some(Link(key, Told(es, !fromA) + 1, id)) == BackOf(r, !fromA)
    decreases |es|
  {
    hide SessionId, Advance, Reply;
    var n := |es| - 1;
    var (x, y) := AfterAll(s, a, b, es[..n]);
    if n == 1 {
      assert es[..1] == [es[0]] && es[..1][..0] == [];
      FirstMessage(s, x, y, fromA, key, header, data);
    } else {
      hide After;
      assert es[..n][0] == es[0] && es[..n][1] == es[1];
      assert Opens(es[..n], fromA, key, header, data);
      Numbered(s, a, b, es[..n], fromA, key, header, data);
      ToldGrows(es, fromA, 1, n);
      NextMessage(s, x, y, es[n], fromA, key, Told(es[..n], fromA), Told(es[..n], !fromA) + 1,
        SessionId(s, key, header, data));
    }
  }

  lemma FirstMessage(s: Suite, x: Peer, y: Peer, fromA: bool, key: seq<Byte>, header: seq<Byte>, data: seq<Byte>)
    requires OutOf((x, y), fromA) == Some(Link(key, 0, [])) == BackOf((x, y), fromA)
    ensures var r, l := After(s, x, y, Send(fromA, header, data)), Some(Link(key, 1, SessionId(s, key, header, data)));
      OutOf(r, fromA) == l == BackOf(r, fromA) && OutOf(r, !fromA) == l == BackOf(r, !fromA)
  {
    hide SessionId, Digest;
    FirstDigest(s, key, header, data);
  }

  /** Once a session is open a message moves the number of its own direction by one, and nothing else. */
  lemma NextMessage(s: Suite, x: Peer, y: Peer, e: Event, fromA: bool, key: seq<Byte>, n: nat, m: nat, id: seq<Byte>)
    requires e.Send? && 0 < n < 0x1_0000_0000 && 0 < m < 0x1_0000_0000
    requires if e.fromA == fromA then n + 1 < 0x1_0000_0000 else m + 1 < 0x1_0000_0000
    requires OutOf((x, y), fromA) == Some(Link(key, n, id)) == BackOf((x, y), fromA)
    requires OutOf((x, y), !fromA) == Some(Link(key, m, id)) == BackOf((x, y), !fromA)
    ensures var r := After(s, x, y, e);
      && OutOf(r, fromA) == Some(Link(key, if e.fromA == fromA then n + 1 else n, id)) == BackOf(r, fromA)
      && OutOf(r, !fromA) == Some(Link(key, if e.fromA == fromA then m else m + 1, id)) == BackOf(r, !fromA)
  {
    hide Digest;
  }

  /** The number of a message of the session. */
  function NumberOf(es: seq<Event>, fromA: bool, i: nat): nat
    requires i < |es|
  {
    Told(es[..i], es[i].fromA) + if es[i].fromA == fromA then 0 else 1
  }

  /** What is digested for a message. */
  function InputWith(key: seq<Byte>, n: Seqno, id: seq<Byte>, header: seq<Byte>, data: seq<Byte>): seq<Byte> {
    key + WordBytes(n) + header + (if n > 0 then id else []) + data
  }

  lemma {:induction false} ToldGrows(es: seq<Event>, fromA: bool, i: nat, j: nat)
    requires i <= j <= |es|
    ensures Told(es[..i], fromA) <= Told(es[..j], fromA)
    ensures i < j && es[i].Send? && es[i].fromA == fromA ==> Told(es[..i], fromA) < Told(es[..j], fromA)
    decreases j
  {
    if i < j {
      ToldGrows(es, fromA, i, j - 1);
      assert es[..j][..j - 1] == es[..j - 1];
    }
  }

  /** Each message of the session is digested with its number, and with the session id unless it is the first. */
  lemma InputIs(s: Suite, a: Peer, b: Peer, es: seq<Event>, fromA: bool, key: seq<Byte>, header: seq<Byte>,
      data: seq<Byte>, i: nat)
    requires Opens(es, fromA, key, header, data) && InRange(es, fromA) && 1 <= i < |es|
    ensures NumberOf(es, fromA, i) < 0x1_0000_0000 && (NumberOf(es, fromA, i) == 0 <==> i == 1)
    ensures var out := OutOf(AfterAll(s, a, b, es[..i]), es[i].fromA);
      out.Some? && out.value.key == key &&
      Preamble(out.value, es[i].header) + es[i].data ==
        InputWith(key, NumberOf(es, fromA, i), SessionId(s, key, header, data), es[i].header, es[i].data)
  {
    hide SessionId, WordBytes, Sent, Received;
    assert es[..|es|] == es;
    ToldGrows(es, fromA, i, |es|);
    ToldGrows(es, !fromA, i, |es|);
    if i == 1 {
      assert es[..1] == [es[0]] && es[..1][..0] == [];
      StartsAtZero(s, a, b, fromA, key);
    } else {
      assert Opens(es[..i], fromA, key, header, data);
      Numbered(s, a, b, es[..i], fromA, key, header, data);
      ToldGrows(es, fromA, 1, i);
    }
  }

  /** The parts of a digest input can be told apart. */
  lemma InputParts(key: seq<Byte>, n: Seqno, m: Seqno, id: seq<Byte>, header: seq<Byte>, data: seq<Byte>,
      header': seq<Byte>, data': seq<Byte>)
    requires |header| == HEADER_LEN == |header'|
    ensures InputWith(key, n, id, header, data) == InputWith(key, m, id, header', data') <==>
      n == m && header == header' && data == data'
  {
    hide Word, WordBytes;
    assert Word(WordBytes(n), 0) == n && Word(WordBytes(m), 0) == m;
    Pieces(key, WordBytes(n), header, if n > 0 then id else [], data);
    Pieces(key, WordBytes(m), header', if m > 0 then id else [], data');
  }

  lemma Pieces(a: seq<Byte>, b: seq<Byte>, c: seq<Byte>, d: seq<Byte>, e: seq<Byte>)
    ensures var x := a + b + c + d + e;
      && x[|a|..|a| + |b|] == b && x[|a| + |b|..|a| + |b| + |c|] == c
      && x[|a| + |b| + |c| + |d|..] == e
  {
  }

  /**
   Two messages of a session have different digest inputs, except one of each direction with the same
   number, header and data.
   */
  lemma InputsDiffer(s: Suite, es: seq<Event>, fromA: bool, key: seq<Byte>, header: seq<Byte>, data: seq<Byte>,
      i: nat, j: nat)
    requires Opens(es, fromA, key, header, data) && InRange(es, fromA) && 1 <= i < j < |es|
    requires |es[i].header| == HEADER_LEN == |es[j].header|
    ensures NumberOf(es, fromA, i) < 0x1_0000_0000 && NumberOf(es, fromA, j) < 0x1_0000_0000
    ensures var id := SessionId(s, key, header, data);
      InputWith(key, NumberOf(es, fromA, i), id, es[i].header, es[i].data) ==
        InputWith(key, NumberOf(es, fromA, j), id, es[j].header, es[j].data) <==>
      es[i].fromA != es[j].fromA && NumberOf(es, fromA, i) == NumberOf(es, fromA, j) &&
        es[i].header == es[j].header && es[i].data == es[j].data
  {
    hide SessionId, InputWith;
    assert es[..|es|] == es;
    ToldGrows(es, fromA, i, |es|);
    ToldGrows(es, !fromA, i, |es|);
    ToldGrows(es, fromA, j, |es|);
    ToldGrows(es, !fromA, j, |es|);
    ToldGrows(es, es[i].fromA, i, j);
    InputParts(key, NumberOf(es, fromA, i), NumberOf(es, fromA, j), SessionId(s, key, header, data), es[i].header,
      es[i].data, es[j].header, es[j].data);
  }

  /** A session in which the first reply repeats the second message: the two have the same digest input. */
  lemma InputRepeats(s: Suite, a: Peer, b: Peer, key: seq<Byte>, header: seq<Byte>, data: seq<Byte>)
    ensures var es := [Authenticate(true, key), Send(true, header, data), Send(true, header, data),
        Send(false, header, data)];
      && Opens(es, true, key, header, data) && InRange(es, true) && NumberOf(es, true, 2) == NumberOf(es, true, 3) == 1
      && var out, out' := OutOf(AfterAll(s, a, b, es[..2]), true), OutOf(AfterAll(s, a, b, es[..3]), false);
      out.Some? && out'.Some? && Preamble(out.value, header) + data == Preamble(out'.value, header) + data
  {
    hide SessionId, InputWith, Preamble, AfterAll;
    var es := [Authenticate(true, key), Send(true, header, data), Send(true, header, data), Send(false, header, data)];
    FourTold(es, true);
    FourTold(es, false);
    InputIs(s, a, b, es, true, key, header, data, 2);
    InputIs(s, a, b, es, true, key, header, data, 3);
  }

  lemma FourTold(es: seq<Event>, fromA: bool)
    requires |es| == 4 && es[0].Authenticate? && es[1].Send? && es[2].Send? && es[3].Send?
    requires es[1].fromA && es[2].fromA && !es[3].fromA
    ensures Told(es[..2], fromA) == (if fromA then 1 else 0) && Told(es[..3], fromA) == (if fromA then 2 else 0)
    ensures Told(es, fromA) == if fromA then 2 else 1
  {
    assert es[..1][..0] == [] && es[..2][..1] == es[..1] && es[..3][..2] == es[..2] && es[..4] == es &&
      es[..4][..3] == es[..3];
    assert Told(es[..1], fromA) == 0;
    assert Told(es[..2], fromA) == if fromA then 1 else 0;
    assert Told(es[..3], fromA) == if fromA then 2 else 0;
  }
}
