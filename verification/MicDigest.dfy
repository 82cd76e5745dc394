/**
 The digest of a message as libconn/desmd5.c feeds it to libconn/md5.c, against the one-shot digest the
 integrity check is stated with.
 */
module MicDigest {
  import opened Basics
  import opened Framing
  import opened Integrity
  import Md5

  type Cipher = (seq<Byte>, seq<Byte>) -> seq<Byte>

  /** The integrity check with MD5 for its digest. */
  ghost function SuiteOf(t: Md5.Transform, encrypt: Cipher, decrypt: Cipher): Suite
    requires Md5.FourWords(t)
  {
    Suite(m => Md5.DigestOf(t, m), encrypt, decrypt)
  }

  /** MD5 gives digests of the length the check expects. */
  lemma SuiteIsSane(t: Md5.Transform, encrypt: Cipher, decrypt: Cipher)
    requires Md5.FourWords(t)
    requires forall k, b :: |b| == BLOCK_LEN ==> |encrypt(k, b)| == BLOCK_LEN && |decrypt(k, b)| == BLOCK_LEN
    requires forall k, b :: |b| == BLOCK_LEN ==> decrypt(k, encrypt(k, b)) == b && encrypt(k, decrypt(k, b)) == b
    ensures Sane(SuiteOf(t, encrypt, decrypt))
  {
  }

  /**
   The calls to MD5 for one message: key, sequence number, header, session id after the first message,
   and the data in whatever pieces the stream makes of it.
   */
  method Feed(t: Md5.Transform, ghost encrypt: Cipher, ghost decrypt: Cipher, l: Link, header: seq<Byte>,
      pieces: seq<seq<Byte>>)
    returns (digest: seq<Byte>)
    requires Md5.FourWords(t) && |l.key| < Md5.WORD && |header| == HEADER_LEN && |l.sessid| < Md5.WORD
    requires forall p :: p in pieces ==> |p| < Md5.WORD
    ensures digest == Digest(SuiteOf(t, encrypt, decrypt), l, header, Md5.Concat(pieces))
  {
    hide Md5.DigestOf;
    Together(l, header, pieces);
    digest := Md5.Digest(t, Calls(l, header) + pieces);
  }

  /** What is fed before the data. */
  function Calls(l: Link, header: seq<Byte>): seq<seq<Byte>> {
    [l.key, WordBytes(l.seqno), header] + if l.seqno > 0 then [l.sessid] else []
  }

  lemma Together(l: Link, header: seq<Byte>, pieces: seq<seq<Byte>>)
    ensures Md5.Concat(Calls(l, header) + pieces) == Preamble(l, header) + Md5.Concat(pieces)
  {
    ConcatBoth(Calls(l, header), pieces);
    var a, b, c, d := l.key, WordBytes(l.seqno), header, l.sessid;
    ConcatMore([], a);
    ConcatMore([a], b);
    ConcatMore([a, b], c);
    ConcatMore([a, b, c], d);
    assert [] + [a] == [a] && [a] + [b] == [a, b] && [a, b] + [c] == [a, b, c] && Md5.Concat([]) + a == a;
    assert Calls(l, header) == if l.seqno > 0 then [a, b, c] + [d] else [a, b, c];
    assert Md5.Concat(Calls(l, header)) == Preamble(l, header);
  }

  lemma ConcatMore(pieces: seq<seq<Byte>>, p: seq<Byte>)
    ensures Md5.Concat(pieces + [p]) == Md5.Concat(pieces) + p
  {
    assert (pieces + [p])[..|pieces|] == pieces;
  }

  lemma {:induction false} ConcatBoth(a: seq<seq<Byte>>, b: seq<seq<Byte>>)
    ensures Md5.Concat(a + b) == Md5.Concat(a) + Md5.Concat(b)
  {
    if b == [] {
      assert a + b == a;
    } else {
      hide Md5.Concat;
      var n := |b| - 1;
      ConcatBoth(a, b[..n]);
      ConcatMore(b[..n], b[n]);
      ConcatMore(a + b[..n], b[n]);
      assert a + b == (a + b[..n]) + [b[n]] && b == b[..n] + [b[n]];
    }
  }
}
