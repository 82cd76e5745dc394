/**
 A connection of libconn/conn.c with the DES/MD5 integrity check of libconn/desmd5.c.
 */
module Conn {
  import opened Basics
  import opened Framing
  import opened Integrity

  datatype State = New | Reading | IoDone | Writing | Eof

  datatype Errno = Ok | Inval | Short | Size | Read | Write | Magic

  const CONN_MAGIC := 0x95110814

  function HeaderOf(auth: nat, result: nat, len: nat): (h: seq<Byte>)
    requires auth < 0x1_0000_0000 && result < 0x1_0000_0000 && len < 0x1_0000_0000
    ensures |h| == HEADER_LEN && Word(h, 0) == CONN_MAGIC && Word(h, 4) == auth && Word(h, 8) == result &&
      Word(h, 12) == len
  {
    WordBytes(CONN_MAGIC) + WordBytes(auth) + WordBytes(result) + WordBytes(len)
  }

  /** The bytes of a message. */
  function Message(header: seq<Byte>, data: seq<Byte>, mic: bool, trailer: seq<Byte>): seq<Byte> {
    header + data + if mic then trailer else []
  }

  function PartBytes(header: seq<Byte>, data: seq<Byte>, trailer: seq<Byte>, part: Part): seq<Byte> {
    match part case Header => header case Data => data case Trailer => trailer
  }

  function Fetch(header: seq<Byte>, data: seq<Byte>, trailer: seq<Byte>, v: Iov): seq<Byte>
    requires v.start + v.len <= |PartBytes(header, data, trailer, v.part)|
  {
    PartBytes(header, data, trailer, v.part)[v.start .. v.start + v.len]
  }

  /** A slice of a part is a slice of the message. */
  lemma FetchIs(header: seq<Byte>, data: seq<Byte>, trailer: seq<Byte>, mic: bool, v: Iov)
    requires |header| == HEADER_LEN && v.start + v.len <= |PartBytes(header, data, trailer, v.part)| &&
      (v.part == Trailer ==> mic)
    ensures Place(v.part, v.start, |data|) + v.len <= |Message(header, data, mic, trailer)|
    ensures Fetch(header, data, trailer, v) ==
      Message(header, data, mic, trailer)[Place(v.part, v.start, |data|) .. Place(v.part, v.start, |data|) + v.len]
  {
  }

  /** A part with `chunk` written into it at `start`. */
  function Put(s: seq<Byte>, start: nat, chunk: seq<Byte>): (r: seq<Byte>)
    requires start + |chunk| <= |s|
    ensures |r| == |s|
  {
    s[..start] + chunk + s[start + |chunk|..]
  }

  /** Writing at the end of what has arrived extends what has arrived. */
  lemma PutExtends(header: seq<Byte>, data: seq<Byte>, trailer: seq<Byte>, mic: bool, part: Part, start: nat,
      chunk: seq<Byte>)
    requires |header| == HEADER_LEN && start + |chunk| <= |PartBytes(header, data, trailer, part)| &&
      (part == Trailer ==> mic)
    ensures var h := if part == Header then Put(header, start, chunk) else header;
      var d := if part == Data then Put(data, start, chunk) else data;
      var t := if part == Trailer then Put(trailer, start, chunk) else trailer;
      var p := Place(part, start, |data|);
      && p + |chunk| <= |Message(header, data, mic, trailer)| &&
        |Message(h, d, mic, t)| == |Message(header, data, mic, trailer)|
      && Message(h, d, mic, t)[..p + |chunk|] == Message(header, data, mic, trailer)[..p] + chunk
  {
    match part {
      case Header => PutHeader(header, data + if mic then trailer else [], start, chunk);
        assert Message(header, data, mic, trailer) == header + (data + if mic then trailer else []);
        assert Message(Put(header, start, chunk), data, mic, trailer) == Put(header, start, chunk) +
          (data + if mic then trailer else []);
      case Data => PutMiddle(header, data, if mic then trailer else [], start, chunk);
      case Trailer => PutMiddle(header + data, trailer, [], start, chunk);
        assert header + data + trailer + [] == header + data + trailer;
        assert header + data + Put(trailer, start, chunk) + [] == header + data + Put(trailer, start, chunk);
    }
  }

  lemma PutHeader(a: seq<Byte>, b: seq<Byte>, start: nat, chunk: seq<Byte>)
    requires start + |chunk| <= |a|
    ensures (Put(a, start, chunk) + b)[..start + |chunk|] == (a + b)[..start] + chunk
  {
  }

  lemma PutMiddle(a: seq<Byte>, s: seq<Byte>, b: seq<Byte>, start: nat, chunk: seq<Byte>)
    requires start + |chunk| <= |s|
    ensures (a + Put(s, start, chunk) + b)[..|a| + start + |chunk|] == (a + s + b)[..|a| + start] + chunk
  {
    assert (a + Put(s, start, chunk) + b)[..|a| + start + |chunk|] == a + s[..start] + chunk;
    assert (a + s + b)[..|a| + start] == a + s[..start];
  }

  class Connection {
    var state: State
    var errno: Errno
    var header: seq<Byte>
    var hoff: nat
    var data: seq<Byte>
    var length: nat
    var offset: nat
    var trailer: seq<Byte>
    var toff: nat
    var iov: seq<Iov>
    var nvec: nat
    var maxlen: nat
    const suite: Suite
    var readMic: bool
    var writeMic: bool
    var readContext: Context
    var writeContext: Context
    var micOk: bool
    // The stream: what has gone out, or come in, of the current message.
    var wire: seq<Byte>

    constructor (suite: Suite, maxlen: nat)
      requires Sane(suite)
      ensures this.suite == suite && this.maxlen == maxlen && Idle(this) && Out() == None && Back() == None
    {
      var context := Context([], 0, 0, [], [], false, []);
      this.suite, this.maxlen, errno, state := suite, maxlen, Ok, IoDone;
      header, trailer, iov, data, wire :=
        seq(HEADER_LEN, _ => 0), seq(MIC_LEN, _ => 0), seq(3, _ => Iov(Header, 0, 0)), [], [];
      hoff, length, offset, toff, nvec, micOk := 0, 0, 0, 0, 0, false;
      readMic, writeMic, readContext, writeContext := false, false, context, context;
    }

    ghost predicate Buffers()
      reads this`header, this`data, this`length, this`trailer, this`iov
    {
      |header| == HEADER_LEN && |data| == length && |trailer| == MIC_LEN && |iov| == 3
    }

    ghost function Mic(): bool
      reads this`state, this`readMic, this`writeMic
    {
      (state == Reading && readMic) || (state == Writing && writeMic)
    }

    ghost predicate Win()
      reads this`state, this`readMic, this`writeMic, this`hoff, this`length, this`offset, this`toff, this`iov, this`nvec
    {
      Window(state == Writing, Mic(), hoff, length, offset, toff, iov, nvec)
    }

    ghost function Position(): nat
      reads this`state, this`readMic, this`writeMic, this`hoff, this`length, this`offset, this`toff
    {
      Pos(hoff, length, offset, Mic(), toff)
    }

    /** iov_init_trailer. */
    method InitTrailer()
      requires |iov| == 3
      modifies this`toff, this`iov, this`nvec
      ensures |iov| == 3
      ensures var vec := (if hoff < HEADER_LEN then 1 else 0) + (if offset < length then 1 else 0);
        (forall i :: 0 <= i < vec ==> iov[i] == old(iov[i])) &&
        if Mic() then toff == 0 && iov[vec] == Iov(Trailer, 0, MIC_LEN) && nvec == vec + 1
        else toff == old(toff) && iov == old(iov) && nvec == vec
    {
      var vec := 0;
      if hoff < HEADER_LEN { vec := vec + 1; }
      if offset < length { vec := vec + 1; }
      if (state == Reading && readMic) || (state == Writing && writeMic) {
        toff := 0;
        iov := iov[vec := Iov(Trailer, 0, MIC_LEN)];
        vec := vec + 1;
      }
      nvec := vec;
    }

    /** iov_init_data: the first packet is cut so that header and data end on a packet boundary. */
    method InitData()
      requires |iov| == 3 && hoff <= HEADER_LEN &&
        (hoff < HEADER_LEN ==> state == Writing && iov[0] == Iov(Header, hoff, HEADER_LEN - hoff))
      modifies this`offset, this`toff, this`iov, this`nvec
      ensures Win() && offset == 0 && (Mic() && length == 0 ==> toff == 0)
      ensures hoff == HEADER_LEN ==> Len(iov, nvec) == FirstRest(length, Mic())
    {
      var vec := 0;
      if hoff < HEADER_LEN { vec := vec + 1; }
      offset := 0;
      iov := iov[vec := Iov(Data, 0, 0)];
      if length > PKT_LEN - HEADER_LEN {
        iov := iov[vec := Iov(Data, 0, PKT_LEN - HEADER_LEN)];
        vec := vec + 1;
        nvec := vec;
      } else {
        iov := iov[vec := Iov(Data, 0, length)];
        InitTrailer();
      }
      if hoff == HEADER_LEN {
        DataLen(Mic(), length, toff, iov, nvec);
      }
    }

    /** iov_init_header. */
    method InitHeader()
      requires |iov| == 3 && (state == Writing || state == Reading) && offset == 0
      modifies this`hoff, this`offset, this`toff, this`iov, this`nvec
      ensures Win() && hoff == 0 && offset == 0 && Position() == 0
    {
      hoff := 0;
      iov := iov[0 := Iov(Header, 0, HEADER_LEN)];
      nvec := 1;
      if state == Writing {
        InitData();
      }
    }

    /** alloc_data: take the length from the header, unless it is not a header or asks for too much. */
    method AllocData()
      requires |header| == HEADER_LEN
      modifies this`errno, this`length, this`data
      ensures Word(header, 0) != CONN_MAGIC ==> errno == Magic && length == old(length) && data == old(data)
      ensures Word(header, 0) == CONN_MAGIC && maxlen != 0 && maxlen < Word(header, 12) ==>
        errno == Size && length == old(length) && data == old(data)
      ensures Word(header, 0) == CONN_MAGIC && !(maxlen != 0 && maxlen < Word(header, 12)) ==>
        errno == old(errno) && length == Word(header, 12) && |data| == length
    {
      if Word(header, 0) != CONN_MAGIC {
        errno := Magic;
        return;
      }
      var datalen := Word(header, 12);
      if maxlen != 0 && maxlen < datalen {
        errno := Size;
        return;
      }
      length := datalen;
      data := seq(datalen, _ => 0);
    }

    /** slide_window past the header, which is complete. */
    method SlideData(nio: nat)
      requires Win() && hoff == HEADER_LEN && nio <= Len(iov, nvec)
      modifies this`offset, this`toff, this`iov, this`nvec
      ensures Win() && Position() == old(Position()) + nio && offset >= old(offset)
    {
      var nio := nio;
      if nio == 0 { return; }
      ghost var pos, count := Position(), nio;
      Spans(state == Writing, Mic(), hoff, length, offset, toff, iov, nvec);
      assert Len(iov, 0) == 0 && Len(iov, 1) == iov[0].len && Len(iov, 2) == Len(iov, 1) + iov[1].len;
      if offset < length {
        var tail := length - offset - nio;
        if tail > 0 {
          offset := offset + nio;
          if tail > PKT_LEN {
            iov := iov[0 := Iov(Data, iov[0].start + nio, PKT_LEN)];
          } else {
            iov := iov[0 := Iov(Data, iov[0].start + nio, tail)];
            InitTrailer();
          }
          return;
        }
        nio := -tail;
        offset := length;
        InitTrailer();
      }
      SlideTrailer(nio);
    }

    /** The last part of slide_window. */
    method SlideTrailer(nio: nat)
      requires Win() && hoff == HEADER_LEN && offset == length && nio <= Len(iov, nvec)
      modifies this`toff, this`iov, this`nvec
      ensures Win() && Position() == old(Position()) + nio
    {
      if nio == 0 { return; }
      assert Len(iov, 0) == 0 && Len(iov, 1) == iov[0].len;
      if nvec == 0 { return; }
      var tail := MIC_LEN - toff - nio;
      if tail > 0 {
        toff := toff + nio;
        iov := iov[0 := Iov(Trailer, iov[0].start + nio, iov[0].len - nio)];
        return;
      }
      assert tail == 0;
      toff := MIC_LEN;
      nvec := 0;
    }

    /** slide_window, while writing. */
    method SlideWriting(nio: nat)
      requires state == Writing && Win() && nio <= Len(iov, nvec)
      modifies this`hoff, this`offset, this`toff, this`iov, this`nvec
      ensures Win() && Position() == old(Position()) + nio
    {
      hide Window, Len;
      var nio := nio;
      HeaderFirst();
      if hoff < HEADER_LEN {
        var tail := HEADER_LEN - hoff - nio;
        if tail > 0 {
          HeaderMore(nio);
          return;
        }
        FirstWindow(Mic(), hoff, length, toff, iov, nvec);
        nio := -tail;
        hoff := HEADER_LEN;
        InitData();
      }
      SlideData(nio);
    }

    lemma HeaderFirst()
      requires Win()
      ensures |iov| == 3 && nvec <= 3 && hoff <= HEADER_LEN && offset <= length
      ensures hoff < HEADER_LEN ==> iov[0] == Iov(Header, hoff, HEADER_LEN - hoff) && offset == 0 && Position() == hoff
      ensures hoff < HEADER_LEN && state == Reading ==> nvec == 1 && Len(iov, nvec) == HEADER_LEN - hoff
    {
      assert Len(iov, 0) == 0;
    }

    method HeaderMore(nio: nat)
      requires Win() && hoff + nio < HEADER_LEN
      modifies this`hoff, this`iov
      ensures Win() && hoff == old(hoff) + nio
    {
      hoff := hoff + nio;
      iov := iov[0 := Iov(Header, iov[0].start + nio, iov[0].len - nio)];
    }

    /** slide_window, while reading: the end of the header tells how much data will follow. */
    method SlideReading(nio: nat)
      requires state == Reading && Win() && nio <= Len(iov, nvec) && |header| == HEADER_LEN
      requires hoff < HEADER_LEN ==> length == 0
      modifies this`hoff, this`offset, this`toff, this`iov, this`nvec, this`errno, this`length, this`data
      ensures Win() && Position() == old(Position()) + nio
      ensures old(hoff) == HEADER_LEN || hoff < HEADER_LEN ==>
        length == old(length) && data == old(data) && errno == old(errno)
      ensures old(hoff) == HEADER_LEN ==> hoff == HEADER_LEN && offset >= old(offset)
      ensures old(hoff) < HEADER_LEN == hoff ==>
        if Accepted(header, maxlen) then errno == old(errno) && length == Word(header, 12) && |data| == length
        else errno == Refusal(header) && length == 0 && data == old(data)
    {
      hide Window, Len;
      var nio := nio;
      HeaderFirst();
      if hoff < HEADER_LEN {
        var tail := HEADER_LEN - hoff - nio;
        if tail > 0 {
          HeaderMore(nio);
          return;
        }
        nio := -tail;
        hoff := HEADER_LEN;
        assert nvec == 1 && nio == 0;
        AllocData();
        InitData();
        StandsAtData();
      }
      SlideData(nio);
    }

    lemma StandsAtData()
      requires Win() && hoff == HEADER_LEN && offset == 0 && (Mic() && length == 0 ==> toff == 0)
      ensures Position() == HEADER_LEN
    {
    }

    function Out(): Option<Link>
      reads this`writeMic, this`writeContext
    {
      if writeMic then Some(LinkOf(writeContext)) else None
    }

    function Back(): Option<Link>
      reads this`readMic, this`readContext
    {
      if readMic then Some(LinkOf(readContext)) else None
    }

    /** Unameit_DesMd5_Mic_Enable for the direction not in use. */
    method MicEnable(key: seq<Byte>, reading: bool, seqno: Seqno, sessid: seq<Byte>)
      requires errno == Ok && (reading ==> state != Reading) && (!reading ==> state != Writing)
      modifies this`readMic, this`readContext, this`writeMic, this`writeContext
      ensures reading ==>
        Back() == Some(LinkWith(key, seqno, sessid)) && writeMic == old(writeMic) && writeContext == old(writeContext)
      ensures !reading ==>
        Out() == Some(LinkWith(key, seqno, sessid)) && readMic == old(readMic) && readContext == old(readContext)
    {
      var context := Context(key, seqno, 0, [], sessid, false, []);
      if reading {
        readMic, readContext := true, context;
      } else {
        writeMic, writeContext := true, context;
      }
    }

    /** How far the data in the window reaches. */
    function DataEnd(): nat
      requires |iov| == 3
      reads this`iov, this`hoff, this`length, this`offset
    {
      if hoff < HEADER_LEN && length > 0 then offset + iov[1].len
      else if offset < length then offset + iov[0].len
      else length
    }

    lemma DataEndIs()
      requires Win() && state == Writing
      ensures |iov| == 3 && DataEnd() <= length
      ensures Position() + Len(iov, nvec) > HEADER_LEN + length ==> DataEnd() == length
    {
      HeaderFirst();
      assert Len(iov, 0) == 0 && Len(iov, 1) == iov[0].len && Len(iov, 2) == Len(iov, 1) + iov[1].len &&
        Len(iov, 3) == Len(iov, 2) + iov[2].len;
    }

    /** Unameit_DesMd5_Update_Mic while writing. */
    method UpdateMicWriting(ghost l: Link, ghost back: Option<Link>)
      requires state == Writing && writeMic && errno == Ok && Buffers() && Win() && Sane(suite)
      requires SenderOk(suite, l, back, header, data, trailer, writeContext, Back())
      modifies this`writeContext, this`readMic, this`readContext, this`trailer, this`writeMic
      ensures SenderOk(suite, l, back, header, data, trailer, writeContext, Back()) && |trailer| == MIC_LEN && writeMic
      ensures writeContext.offset > 0 && (DataEnd() == length ==> writeContext.done)
      ensures old(writeContext.offset > 0 && writeContext.done) ==> trailer == old(trailer)
    {
      hide Window, Fed, TrailerOf, Advance, Reply, LinkOf, Begin, Feed, Len, Pos, Sane;
      DataEndIs();
      var c := writeContext;
      FedBounds(l, header, data, c);
      if c.offset == 0 {
        Begun(l, header, data, c);
        c := Begin(c, header);
      }
      var start := c.offset - HEADER_LEN;
      var end := DataEnd();
      if start < end {
        FedMore(l, header, data, c, end);
        c := Feed(c, data, end);
      }
      writeContext := c;
      if end < length || c.done {
        return;
      }
      SealMessage(l, back);
    }

    /** The last step of the sender's check: seal the digest, and move the links on. */
    method SealMessage(ghost l: Link, ghost back: Option<Link>)
      requires state == Writing && writeMic && errno == Ok && |data| == length && Sane(suite)
      requires Fed(l, header, data, writeContext) && writeContext.offset == HEADER_LEN + length &&
        LinkOf(writeContext) == l && Back() == back
      modifies this`writeContext, this`readMic, this`readContext, this`trailer, this`writeMic
      ensures SenderOk(suite, l, back, header, data, trailer, writeContext, Back())
      ensures writeMic && |trailer| == MIC_LEN && writeContext.offset > 0 && writeContext.done
    {
      hide Preamble, Seal, Digest;
      var c := writeContext;
      FedAll(suite, l, header, data, c);
      SealLen(suite, c.key, suite.md5(c.fed));
      c := c.(digest := suite.md5(c.fed), done := true);
      trailer := Seal(suite, c.key, c.digest);
      if c.seqno == 0 {
        c := c.(sessid := c.digest);
        MicEnable(c.key, true, 1, c.digest);
      }
      writeContext := c.(seqno := Next(c.seqno));
    }

    ghost function Image(): seq<Byte>
      reads this`header, this`data, this`trailer, this`state, this`readMic, this`writeMic
    {
      Message(header, data, Mic(), trailer)
    }

    /** Every element of the window names a slice of the message. */
    lemma InParts(i: nat)
      requires Buffers() && Win() && i < nvec
      ensures iov[i].start + iov[i].len <= |PartBytes(header, data, trailer, iov[i].part)| && iov[i].len > 0
      ensures Place(iov[i].part, iov[i].start, length) == Position() + Len(iov, i)
      ensures iov[i].part == Trailer ==> Mic()
    {
      Spans(state == Writing, Mic(), hoff, length, offset, toff, iov, nvec);
    }

    /** Unameit_Stream_Writev up to its send: the bytes offered are the whole window, gathered into one buffer. */
    method Writev() returns (buf: seq<Byte>)
      requires state == Writing && Buffers() && Win() && nvec > 0
      ensures |buf| == Len(iov, nvec) <= MAX_COPY_SIZE && Position() + |buf| <= |Image()|
      ensures buf == Image()[Position() .. Position() + |buf|]
    {
      hide Window, Message, Pos, Place, Len, Fetch, PartBytes;
      ghost var image, pos := Image(), Position();
      HeaderFirst();
      Element(0);
      Prefixes(0);
      buf := [];
      if nvec == 1 || iov[0].len > MAX_COPY_SIZE {
        Prefixes(1);
        buf := Fetch(header, data, trailer, iov[0]);
        return;
      }
      var i := 0;
      while i < nvec && |buf| < MAX_COPY_SIZE
        invariant 0 <= i <= nvec && |buf| == Len(iov, i) && pos + |buf| <= |image| && buf == image[pos .. pos + |buf|]
      {
        Element(i);
        Prefixes(i + 1);
        var ncopy := MAX_COPY_SIZE - |buf|;
        if iov[i].len < ncopy {
          ncopy := iov[i].len;
        }
        Joined(image, pos, |buf|, ncopy);
        buf := buf + Fetch(header, data, trailer, iov[i])[..ncopy];
        i := i + 1;
      }
      Prefixes(i);
    }

    /** Unameit_Stream_Readv, given the bytes its calls to recv deliver: they fill the window from its start. */
    method Readv(bytes: seq<Byte>)
      requires state == Reading && Buffers() && Win() && |bytes| <= Len(iov, nvec)
      modifies this`header, this`data, this`trailer
      ensures Buffers() && Position() + |bytes| <= |Image()| == old(|Image()|)
      ensures Image()[..Position() + |bytes|] == old(Image()[..Position()]) + bytes
    {
      hide Window, Message, Pos, Place, Len, PartBytes, Put;
      ghost var before, pos := Image(), Position();
      HeaderFirst();
      InImage();
      Prefixes(0);
      var i, done := 0, 0;
      assert before[..pos] + bytes[..0] == before[..pos];
      while i < nvec && done < |bytes|
        invariant 0 <= i <= nvec && 0 <= done <= |bytes| && Buffers() && |Image()| == |before|
        invariant done == Len(iov, i) || done == |bytes|
        invariant pos + done <= |before| && Image()[..pos + done] == before[..pos] + bytes[..done]
      {
        InParts(i);
        Prefixes(i + 1);
        var n := if iov[i].len < |bytes| - done then iov[i].len else |bytes| - done;
        ghost var image := Image();
        Store(iov[i].part, iov[i].start, bytes[done .. done + n]);
        assert pos + Len(iov, i) == pos + done;
        assert before[..pos] + bytes[..done] + bytes[done .. done + n] == before[..pos] + bytes[..done + n];
        done := done + n;
        i := i + 1;
      }
      Prefixes(i);
      assert bytes[..done] == bytes;
    }

    lemma InImage()
      requires Buffers() && Win()
      ensures Position() <= |Image()|
    {
    }

    /** The memory effect of one recv. */
    method Store(part: Part, start: nat, chunk: seq<Byte>)
      requires Buffers() && start + |chunk| <= |PartBytes(header, data, trailer, part)| && (part == Trailer ==> Mic())
      modifies this`header, this`data, this`trailer
      ensures Buffers() && |Image()| == old(|Image()|) && Place(part, start, length) + |chunk| <= |Image()|
      ensures Image()[..Place(part, start, length) + |chunk|] == old(Image()[..Place(part, start, length)]) + chunk
    {
      hide Message, Place;
      PutExtends(header, data, trailer, Mic(), part, start, chunk);
      match part {
        case Header => header := Put(header, start, chunk);
        case Data => data := Put(data, start, chunk);
        case Trailer => trailer := Put(trailer, start, chunk);
      }
    }

    /** Element i of the window is the part of the message that follows the elements before it. */
    lemma Element(i: nat)
      requires Buffers() && Win() && i < nvec
      ensures iov[i].start + iov[i].len <= |PartBytes(header, data, trailer, iov[i].part)| && iov[i].len > 0
      ensures Position() + Len(iov, i) + iov[i].len <= |Image()|
      ensures Fetch(header, data, trailer, iov[i]) ==
        Image()[Position() + Len(iov, i) .. Position() + Len(iov, i) + iov[i].len]
    {
      InParts(i);
      hide Window, Len, Pos;
      FetchIs(header, data, trailer, Mic(), iov[i]);
    }

    /** No prefix of the window is longer than the window, and a proper one is shorter. */
    lemma Prefixes(i: nat)
      requires Win() && i <= nvec
      ensures |iov| == 3 && Len(iov, 0) == 0 && Len(iov, i) <= Len(iov, nvec) <= MAX_COPY_SIZE &&
        (i < nvec ==> Len(iov, i) < Len(iov, nvec))
      ensures i > 0 ==> Len(iov, i) == Len(iov, i - 1) + iov[i - 1].len
    {
      Spans(state == Writing, Mic(), hoff, length, offset, toff, iov, nvec);
      assert Len(iov, 0) == 0 && Len(iov, 1) == iov[0].len && Len(iov, 2) == Len(iov, 1) + iov[1].len &&
        Len(iov, 3) == Len(iov, 2) + iov[2].len;
    }

    /** A message on its way out: what went out is the message so far, and no trailer byte went out unsealed. */
    ghost predicate Writer(out: Option<Link>, back: Option<Link>)
      reads this
    {
      && state == Writing && errno == Ok && Buffers() && Win() && Sane(suite)
      && Position() <= |Image()| && wire == Image()[..Position()]
      && writeMic == out.Some?
      && (if writeMic then SenderOk(suite, out.value, back, header, data, trailer, writeContext, Back())
        else Back() == back)
      && (writeMic && Position() > HEADER_LEN + length ==> writeContext.offset > 0 && writeContext.done)
    }

    /** The check is brought up to date before the window is offered; a window with trailer bytes is sealed. */
    method Prepare(ghost out: Option<Link>, ghost back: Option<Link>)
      requires Writer(out, back)
      modifies this`writeContext, this`readMic, this`readContext, this`trailer, this`writeMic
      ensures Writer(out, back) && Position() == old(Position()) && Len(iov, nvec) == old(Len(iov, nvec))
      ensures writeMic && Position() + Len(iov, nvec) > HEADER_LEN + length ==>
        writeContext.offset > 0 && writeContext.done
    {
      hide Window, Message, SenderOk, Sane, Pos, Len;
      if writeMic {
        DataEndIs();
        ghost var before := trailer;
        UpdateMicWriting(out.value, back);
        if Position() <= HEADER_LEN + length {
          BeforeTrailer(header, data, true, before, trailer, Position());
        }
      }
    }

    /** One turn of the loop in Unameit_Conn_Progress while writing, when the stream takes up to n bytes. */
    method WriteStep(n: nat, ghost out: Option<Link>, ghost back: Option<Link>) returns (nio: nat)
      requires Writer(out, back) && nvec > 0
      modifies this
      ensures Writer(out, back) && nio <= n && Position() == old(Position()) + nio && (n > 0 ==> nio > 0)
      ensures header == old(header) && data == old(data) && length == old(length) && (nio == 0 ==> nvec > 0)
      ensures maxlen == old(maxlen)
    {
      hide Window, Message, SenderOk, Sane, Pos, Len, Win;
      Prepare(out, back);
      nio := Push(n, out, back);
    }

    /** Offer the window to the stream, and slide it by what the stream takes. */
    method Push(n: nat, ghost out: Option<Link>, ghost back: Option<Link>) returns (nio: nat)
      requires Writer(out, back) && nvec > 0
      requires writeMic && Position() + Len(iov, nvec) > HEADER_LEN + length ==>
        writeContext.offset > 0 && writeContext.done
      modifies this`wire, this`hoff, this`offset, this`toff, this`iov, this`nvec
      ensures Writer(out, back) && nio <= n && Position() == old(Position()) + nio && (n > 0 ==> nio > 0) &&
        (nio == 0 ==> nvec > 0)
    {
      hide Window, Message, SenderOk, Sane, Pos, Len;
      Remaining();
      var buf := Writev();
      NonEmpty();
      nio := if n < |buf| then n else |buf|;
      Longer(Image(), Position(), buf, nio);
      wire := wire + buf[..nio];
      SlideWriting(nio);
      HeaderFirst();
      Remaining();
    }

    lemma Remaining()
      requires Win() && state == Writing
      ensures nvec == 0 <==> Position() == Total(length, Mic())
    {
      HeaderFirst();
      Spans(true, Mic(), hoff, length, offset, toff, iov, nvec);
    }

    /** newstate: it is an error to leave a state in the middle of I/O. */
    method NewState(target: State)
      modifies this`data, this`errno, this`state, this`length, this`offset, this`hoff
      ensures data == []
      ensures errno == if old(errno) == Ok && old(state) != IoDone &&
        (old(hoff) != 0 || old(state) != target) then Inval else old(errno)
      ensures old(errno) == Ok ==> state == target && length == 0 && offset == 0 && hoff == 0
      ensures old(errno) != Ok ==>
        state == old(state) && length == old(length) && offset == old(offset) && hoff == old(hoff)
    {
      data := [];
      if errno != Ok {
        return;
      }
      if state != IoDone {
        if hoff != 0 || state != target {
          errno := Inval;
        }
      }
      state := target;
      length, offset, hoff := 0, 0, 0;
    }

    /** Unameit_Conn_Write: set up the message to send, unless something is wrong with the connection. */
    method StartWriting(bytes: seq<Byte>, auth: nat, result: nat)
      requires |bytes| < 0x1_0000_0000 && auth < 0x1_0000_0000 && result < 0x1_0000_0000
      requires |trailer| == MIC_LEN && |iov| == 3 && Sane(suite)
      modifies this
      ensures errno == Ok <==> old(errno) == Ok && (old(state) == IoDone || (old(state) == Writing && old(hoff) == 0))
      ensures errno == Ok ==> Writer(old(Out()), old(Back())) && Position() == 0 && wire == []
      ensures errno == Ok ==> data == bytes && header == HeaderOf(auth, result, |bytes|)
      ensures maxlen == old(maxlen)
    {
      hide Message, HeaderOf, Sane, Window, SenderOk, LinkOf;
      NewState(Writing);
      data := bytes;
      if errno != Ok {
        return;
      }
      length := |bytes|;
      header := HeaderOf(auth, result, |bytes|);
      Launch();
    }

    /** The window and the check at the start of a message to send. */
    method Launch()
      requires state == Writing && errno == Ok && |header| == HEADER_LEN && |data| == length && |trailer| == MIC_LEN &&
        |iov| == 3 && offset == 0
      requires Sane(suite)
      modifies this`hoff, this`offset, this`toff, this`iov, this`nvec, this`writeContext, this`wire
      ensures Writer(old(Out()), old(Back())) && Position() == 0 && wire == []
    {
      hide Message, Sane, Window, SenderOk, LinkOf;
      InitHeader();
      HeaderFirst();
      if writeMic {
        NotStarted(writeContext);
        writeContext := writeContext.(offset := 0);
      }
      wire := [];
    }

    lemma NotStarted(c: Context)
      requires Sane(suite)
      ensures SenderOk(suite, LinkOf(c), Back(), header, data, trailer, c.(offset := 0), Back())
      ensures LinkOf(c.(offset := 0)) == LinkOf(c)
    {
    }

    /** A finished message went out whole: header, data and, if the check is on, its seal. */
    lemma Finished(out: Option<Link>, back: Option<Link>)
      requires Writer(out, back) && nvec == 0
      ensures wire == Message(header, data, out.Some?, if out.Some? then TrailerOf(suite, out.value, header, data)
        else [])
      ensures Peer(Out(), Back()) == Sent(suite, Peer(out, back), header, data)
    {
      hide Window, Sane, TrailerOf, Pos;
      Remaining();
      HeaderFirst();
      assert |Image()| == Total(length, Mic());
      assert wire == Image();
    }

    /** The check is up to date with the data that has come in. */
    ghost predicate Checking(l: Link)
      requires hoff <= HEADER_LEN
      reads this`header, this`data, this`offset, this`hoff, this`readContext
    {
      && ReceiverOk(suite, l, header, data, readContext)
      && readContext.offset == if hoff < HEADER_LEN then 0 else HEADER_LEN + offset
    }

    /** What a complete message leaves: the verdict on its trailer, and the links moved on if it was good. */
    ghost predicate Judged(l: Link, out: Option<Link>, mic: seq<Byte>)
      requires Sane(suite)
      reads this`micOk, this`header, this`data, this`readMic, this`writeMic, this`readContext, this`writeContext
    {
      && (micOk <==> mic == TrailerOf(suite, l, header, data))
      && readMic
      && Peer(Out(), Back()) == if micOk then Received(suite, Peer(out, Some(l)), header, data) else Peer(out, Some(l))
    }

    /** Unameit_DesMd5_Update_Mic while reading, once the header is complete. */
    method UpdateMicReading(ghost l: Link, ghost out: Option<Link>)
      requires state == Reading && readMic && errno == Ok && hoff == HEADER_LEN && Buffers() && Win() && Sane(suite)
      requires ReceiverOk(suite, l, header, data, readContext) && readContext.offset <= HEADER_LEN + offset &&
        Out() == out
      modifies this`readContext, this`writeMic, this`writeContext, this`trailer, this`micOk, this`readMic
      ensures |trailer| == MIC_LEN && readMic
      ensures nvec > 0 ==> Checking(l) && Out() == out && trailer == old(trailer)
      ensures nvec == 0 ==> Judged(l, out, old(trailer))
    {
      hide Window, Fed, Digest, LinkOf, Begin, Feed, Len, Sane, TrailerOf, Received;
      HeaderFirst();
      TrailerPhase();
      var c := readContext;
      FedBounds(l, header, data, c);
      if c.offset == 0 {
        Begun(l, header, data, c);
        c := Begin(c, header);
      }
      var start, end := c.offset - HEADER_LEN, offset;
      if start < end {
        FedMore(l, header, data, c, end);
        c := Feed(c, data, end);
      }
      readContext := c;
      if end < length {
        return;
      }
      if !c.done {
        FedAll(suite, l, header, data, c);
        SameLink(c, suite.md5(c.fed));
        c := c.(digest := suite.md5(c.fed), done := true);
        readContext := c;
      }
      if toff < MIC_LEN {
        return;
      }
      FedBounds(l, header, data, c);
      Judge(l, out);
    }

    lemma TrailerPhase()
      requires Win() && hoff == HEADER_LEN && Mic()
      ensures nvec == 0 <==> offset == length && toff == MIC_LEN
      ensures offset == length ==> toff <= MIC_LEN
    {
    }

    lemma SameLink(c: Context, digest: seq<Byte>)
      ensures LinkOf(c.(digest := digest, done := true)) == LinkOf(c)
      ensures forall l, header, data :: Fed(l, header, data, c) ==>
        Fed(l, header, data, c.(digest := digest, done := true))
    {
    }

    /** Decrypt the trailer in place, half by half, and compare it with the digest. */
    method Judge(ghost l: Link, ghost out: Option<Link>)
      requires state == Reading && readMic && errno == Ok && |trailer| == MIC_LEN && Sane(suite)
      requires readContext.key == l.key && LinkOf(readContext) == l &&
        readContext.digest == Digest(suite, l, header, data) && Out() == out
      modifies this`readContext, this`writeMic, this`writeContext, this`trailer, this`micOk, this`readMic
      ensures |trailer| == MIC_LEN && readMic && Judged(l, out, old(trailer))
    {
      hide Sane, Seal, Digest, LinkOf, Received, TrailerOf;
      Halves(suite, l, header, data, trailer);
      var c := readContext;
      var half := suite.decrypt(c.key, trailer[..BLOCK_LEN]);
      trailer := half + trailer[BLOCK_LEN..];
      micOk := false;
      if trailer[..BLOCK_LEN] != c.digest[..BLOCK_LEN] {
        return;
      }
      trailer := half + suite.decrypt(c.key, trailer[BLOCK_LEN..]);
      if trailer[BLOCK_LEN..] != c.digest[BLOCK_LEN..] {
        return;
      }
      micOk := true;
      Accept(l, out);
    }

    /** The message was good: its first one opens the session, and the next one is expected. */
    method Accept(ghost l: Link, ghost out: Option<Link>)
      requires state == Reading && readMic && errno == Ok
      requires readContext.key == l.key && LinkOf(readContext) == l &&
        readContext.digest == Digest(suite, l, header, data) && Out() == out
      modifies this`readContext, this`writeMic, this`writeContext, this`readMic
      ensures readMic && Peer(Out(), Back()) == Received(suite, Peer(out, Some(l)), header, data)
    {
      hide Digest;
      var c := readContext;
      if c.seqno == 0 {
        c := c.(sessid := c.digest);
        MicEnable(c.key, false, 1, c.digest);
      }
      readContext := c.(seqno := Next(c.seqno));
    }

    /** A message on its way in: what came in is the message so far. */
    ghost predicate Reader(back: Option<Link>, out: Option<Link>)
      reads this
    {
      && state == Reading && errno == Ok && Buffers() && Win() && Sane(suite) && hoff <= HEADER_LEN
      && Position() <= |Image()| && wire == Image()[..Position()]
      && (if hoff < HEADER_LEN then length == 0 else Accepted(header, maxlen) && length == Word(header, 12))
      && readMic == back.Some? && Out() == out && (readMic ==> Checking(back.value))
    }

    /** A message that has come in whole. */
    ghost predicate Complete(back: Option<Link>, out: Option<Link>)
      requires Sane(suite)
      reads this`micOk, this`header, this`data, this`readMic, this`writeMic, this`readContext, this`writeContext,
        this`maxlen, this`length, this`wire
    {
      && |header| == HEADER_LEN && Accepted(header, maxlen) && |data| == length == Word(header, 12)
      && |wire| == Total(length, back.Some?) && wire[..HEADER_LEN + length] == header + data
      && if back.Some? then Judged(back.value, out, wire[HEADER_LEN + length..])
        else Peer(Out(), Back()) == Peer(out, back)
    }

    /** The check is not disturbed by what comes in behind it. */
    method Take(bytes: seq<Byte>, ghost back: Option<Link>, ghost out: Option<Link>)
      requires Reader(back, out) && |bytes| <= Len(iov, nvec)
      modifies this`header, this`data, this`trailer, this`wire
      ensures Buffers() && Position() + |bytes| <= |Image()| &&
        wire == old(wire) + bytes == Image()[..Position() + |bytes|]
      ensures hoff == HEADER_LEN ==> header == old(header)
      ensures readMic ==> ReceiverOk(suite, back.value, header, data, readContext)
    {
      hide Window, Message, Sane, Pos, Len, ReceiverOk;
      ghost var header0, data0, trailer0 := header, data, trailer;
      HeaderFirst();
      Readv(bytes);
      wire := wire + bytes;
      if hoff == HEADER_LEN {
        AtData();
        PartsKept(header0, data0, Mic(), trailer0, header, data, trailer, Position(), bytes, offset);
        if readMic {
          ReceiverSame(suite, back.value, header, data0, data, readContext);
        }
      } else if readMic {
        ReceiverFresh(suite, back.value, header0, data0, header, data, readContext);
      }
    }

    lemma AtData()
      requires Win() && hoff == HEADER_LEN
      ensures Position() >= HEADER_LEN + offset
    {
    }

    /** One turn of the loop in Unameit_Conn_Progress while reading, when these bytes arrive. */
    method ReadStep(bytes: seq<Byte>, ghost back: Option<Link>, ghost out: Option<Link>)
      requires Reader(back, out) && nvec > 0 && |bytes| <= Len(iov, nvec)
      modifies this
      ensures wire == old(wire) + bytes && maxlen == old(maxlen)
      ensures errno == Ok && nvec > 0 ==> Reader(back, out) && Position() == old(Position()) + |bytes|
      ensures errno == Ok && hoff < HEADER_LEN ==> nvec > 0
      ensures old(hoff) == HEADER_LEN ==>
        length == old(length) && hoff == HEADER_LEN && readMic == old(readMic) && state == Reading
      ensures errno == Ok && nvec == 0 ==> state == Reading && |iov| == 3 && |trailer| == MIC_LEN && Complete(back, out)
      ensures errno != Ok ==>
        |header| == HEADER_LEN && wire == header && !Accepted(header, maxlen) && errno == Refusal(header)
    {
      hide Window, Message, Sane, Pos, Len, ReceiverOk, Accepted, Refusal, Word, Judged, Win;
      Receive(bytes, back, out);
      if errno != Ok {
        return;
      }
      if hoff < HEADER_LEN {
        return;
      }
      Arrived(back, out);
    }

    /** The bytes are stored and the window slides. */
    method Receive(bytes: seq<Byte>, ghost back: Option<Link>, ghost out: Option<Link>)
      requires Reader(back, out) && nvec > 0 && |bytes| <= Len(iov, nvec)
      modifies this`header, this`data, this`trailer, this`wire, this`hoff, this`offset, this`toff, this`iov, this`nvec,
        this`errno, this`length
      ensures wire == old(wire) + bytes && hoff <= HEADER_LEN && Buffers()
      ensures old(hoff) == HEADER_LEN ==> length == old(length) && hoff == HEADER_LEN && errno == Ok
      ensures errno != Ok ==> wire == header && !Accepted(header, maxlen) && errno == Refusal(header)
      ensures errno == Ok ==>
        Win() && Position() == old(Position()) + |bytes| && Position() <= |Image()| && wire == Image()[..Position()]
      ensures errno == Ok && hoff < HEADER_LEN ==> nvec > 0 && Reader(back, out)
      ensures errno == Ok && hoff == HEADER_LEN ==> Accepted(header, maxlen) && length == Word(header, 12)
      ensures errno == Ok && readMic ==> ReceiverOk(suite, back.value, header, data, readContext)
      ensures errno == Ok && readMic ==> readContext.offset <= if hoff < HEADER_LEN then 0 else HEADER_LEN + offset
    {
      hide Window, Message, Sane, Pos, Len, ReceiverOk, Accepted, Word;
      HeaderFirst();
      ghost var early := hoff < HEADER_LEN;
      Take(bytes, back, out);
      ghost var data0 := data;
      SlideReading(|bytes|);
      HeaderFirst();
      if early {
        ArrivedHeader(data0);
        if readMic {
          ReceiverFresh(suite, back.value, header, data0, header, data, readContext);
        }
      }
    }

    /** Bring the check up to date after the header is complete. */
    method Arrived(ghost back: Option<Link>, ghost out: Option<Link>)
      requires state == Reading && errno == Ok && Buffers() && Win() && Sane(suite) && hoff == HEADER_LEN
      requires Position() <= |Image()| && wire == Image()[..Position()] && Accepted(header, maxlen) &&
        length == Word(header, 12)
      requires readMic == back.Some? && Out() == out
      requires readMic ==>
        ReceiverOk(suite, back.value, header, data, readContext) && readContext.offset <= HEADER_LEN + offset
      modifies this`readContext, this`writeMic, this`writeContext, this`trailer, this`micOk, this`readMic
      ensures readMic == old(readMic)
      ensures nvec > 0 ==> Reader(back, out)
      ensures nvec == 0 ==> |trailer| == MIC_LEN && Complete(back, out)
    {
      hide Window, Sane, Pos, Len, ReceiverOk, Accepted, Word, Judged;
      EndOfMessage();
      ghost var trailer0 := trailer;
      if readMic {
        UpdateMicReading(back.value, out);
      }
      if nvec == 0 {
        assert wire[..HEADER_LEN + length] == header + data;
        assert back.Some? ==> wire[HEADER_LEN + length..] == trailer0;
      }
    }

    lemma EndOfMessage()
      requires Win() && hoff == HEADER_LEN
      ensures nvec == 0 ==> Position() == Total(length, Mic())
    {
    }

    /** When the header has just come in, it is all that has come in. */
    lemma ArrivedHeader(data0: seq<Byte>)
      requires Win() && |header| == HEADER_LEN && hoff <= HEADER_LEN &&
        Position() <= |Message(header, data0, Mic(), trailer)|
      requires wire == Message(header, data0, Mic(), trailer)[..Position()]
      requires Position() <= HEADER_LEN
      ensures hoff == HEADER_LEN ==>
        Position() == HEADER_LEN && wire == header && HEADER_LEN <= |Image()| && Image()[..HEADER_LEN] == header
    {
      HeaderIs(header, data0, Mic(), trailer);
      HeaderIs(header, data, Mic(), trailer);
    }

    /** Unameit_Conn_Poll: get ready for a message, unless something is wrong with the connection. */
    method StartReading()
      requires |header| == HEADER_LEN && |trailer| == MIC_LEN && |iov| == 3 && Sane(suite)
      modifies this
      ensures errno == Ok <==> old(errno) == Ok && (old(state) == IoDone || (old(state) == Reading && old(hoff) == 0))
      ensures errno == Ok ==>
        Reader(old(Back()), old(Out())) && Position() == 0 && wire == [] && nvec > 0 && maxlen == old(maxlen)
    {
      hide Message, Sane, Window, ReceiverOk, LinkOf;
      if errno != Ok {
        return;
      }
      NewState(Reading);
      if errno != Ok {
        return;
      }
      Listen();
    }

    /** The window and the check at the start of a message to receive. */
    method Listen()
      requires state == Reading && errno == Ok && |header| == HEADER_LEN && data == [] && length == 0 &&
        |trailer| == MIC_LEN && |iov| == 3 && offset == 0
      requires Sane(suite)
      modifies this`hoff, this`offset, this`toff, this`iov, this`nvec, this`readContext, this`wire
      ensures Reader(old(Back()), old(Out())) && Position() == 0 && wire == [] && nvec > 0
    {
      hide Message, Sane, Window, ReceiverOk, LinkOf;
      InitHeader();
      HeaderFirst();
      if readMic {
        NotBegun(readContext);
        readContext := readContext.(offset := 0);
      }
      wire := [];
    }

    lemma NotBegun(c: Context)
      ensures ReceiverOk(suite, LinkOf(c), header, data, c.(offset := 0))
      ensures LinkOf(c.(offset := 0)) == LinkOf(c)
    {
    }

    lemma AllIn()
      requires Win() && hoff == HEADER_LEN && Position() == Total(length, Mic())
      ensures nvec == 0
    {
    }

    lemma Phases()
      requires Win() && nvec > 0 && state == Reading
      ensures hoff <= HEADER_LEN && |iov| == 3 && nvec <= 3
      ensures Position() == 0 <==> hoff == 0
      ensures Position() == HEADER_LEN + length <==> !(hoff < HEADER_LEN || offset < length || toff > 0)
      ensures Position() == HEADER_LEN + length ==> Mic() && Len(iov, nvec) == MIC_LEN
    {
      assert Len(iov, 0) == 0;
    }

    lemma StillWriting(out: Option<Link>, back: Option<Link>)
      requires Writer(out, back) && nvec > 0
      ensures Position() < Total(|data|, out.Some?)
    {
      hide Window, SenderOk, Sane, Message;
      Remaining();
      Within();
    }

    lemma Within()
      requires Buffers() && Win()
      ensures Position() <= Total(length, Mic())
    {
    }

    /** A reader that is not done has not had a whole message. */
    lemma Unfinished(back: Option<Link>, out: Option<Link>)
      requires Reader(back, out) && nvec > 0
      ensures |wire| < HEADER_LEN || (hoff == HEADER_LEN && |wire| < Total(Word(header, 12), back.Some?))
      ensures hoff == HEADER_LEN ==> HEADER_LEN <= |wire| && wire[..HEADER_LEN] == header
    {
      hide SenderOk, Sane, Message, Checking;
      HeaderFirst();
      Within();
      if hoff == HEADER_LEN {
        HeaderIs(header, data, Mic(), trailer);
        AtData();
        assert wire[..HEADER_LEN] == Image()[..HEADER_LEN];
        if Position() == Total(length, Mic()) {
          AllIn();
        }
      }
    }

    lemma WriterState(out: Option<Link>, back: Option<Link>)
      requires Writer(out, back)
      ensures state == Writing && errno == Ok && Sane(suite)
    {
    }

    lemma ReaderState(back: Option<Link>, out: Option<Link>)
      requires Reader(back, out)
      ensures state == Reading && errno == Ok && Sane(suite)
    {
    }

    lemma NonEmpty()
      requires Win() && nvec > 0
      ensures |iov| == 3 && nvec <= 3 && Len(iov, nvec) > 0
    {
      Spans(state == Writing, Mic(), hoff, length, offset, toff, iov, nvec);
    }
  }

  /** The trailer does not matter to what precedes it. */
  lemma BeforeTrailer(header: seq<Byte>, data: seq<Byte>, mic: bool, trailer: seq<Byte>, trailer': seq<Byte>, pos: nat)
    requires pos <= |header| + |data|
    ensures pos <= |Message(header, data, mic, trailer)| && pos <= |Message(header, data, mic, trailer')|
    ensures Message(header, data, mic, trailer)[..pos] == Message(header, data, mic, trailer')[..pos]
  {
  }

  lemma HeaderIs(header: seq<Byte>, data: seq<Byte>, mic: bool, trailer: seq<Byte>)
    requires |header| == HEADER_LEN
    ensures HEADER_LEN <= |Message(header, data, mic, trailer)| &&
      Message(header, data, mic, trailer)[..HEADER_LEN] == header
  {
  }

  /** New bytes behind the first pos leave the header and the data before them alone. */
  lemma PartsKept(header: seq<Byte>, data: seq<Byte>, mic: bool, trailer: seq<Byte>, header': seq<Byte>,
      data': seq<Byte>, trailer': seq<Byte>, pos: nat, bytes: seq<Byte>, n: nat)
    requires |header| == HEADER_LEN == |header'| && |data| == |data'| && |trailer| == |trailer'| && n <= |data| &&
      HEADER_LEN + n <= pos
    requires pos + |bytes| <= |Message(header, data, mic, trailer)|
    requires Message(header', data', mic, trailer')[..pos + |bytes|] == Message(header, data, mic, trailer)[..pos] +
      bytes
    ensures header' == header && data'[..n] == data[..n]
  {
    var m, m' := Message(header, data, mic, trailer), Message(header', data', mic, trailer');
    assert forall i :: 0 <= i < pos ==> m'[i] == m[i] by {
      assert forall i :: 0 <= i < pos ==> m'[..pos + |bytes|][i] == m'[i];
    }
    assert forall i :: 0 <= i < HEADER_LEN ==> m[i] == header[i] && m'[i] == header'[i];
    assert forall i :: 0 <= i < n ==> m[HEADER_LEN + i] == data[i] && m'[HEADER_LEN + i] == data'[i];
  }

  lemma Longer(image: seq<Byte>, pos: nat, buf: seq<Byte>, n: nat)
    requires pos + |buf| <= |image| && buf == image[pos .. pos + |buf|] && n <= |buf|
    ensures image[..pos] + buf[..n] == image[..pos + n]
  {
  }

  lemma Joined(image: seq<Byte>, pos: nat, n: nat, more: nat)
    requires pos + n + more <= |image|
    ensures image[pos .. pos + n] + image[pos + n .. pos + n + more] == image[pos .. pos + n + more]
  {
  }

  /** What one I/O call does: transfer up to n bytes, find the stream not ready, or fail. */
  datatype Io = Upto(n: nat) | WouldBlock | Failed

  const MAX_PACKETS := 16

  /** The stream moves at least one byte at the first try, and does not fail. */
  predicate Live(ios: seq<Io>) {
    ios != [] && ios[0].Upto? && ios[0].n > 0 && Failed !in ios
  }

  /**
   Unameit_Conn_Progress while writing. However the stream takes the bytes, what goes out is the
   message; the connection is done exactly when all of it is out.
   */
  method ProgressWriting(c: Connection, ios: seq<Io>, ghost out: Option<Link>, ghost back: Option<Link>)
    requires c.Writer(out, back)
    modifies c
    ensures c.header == old(c.header) && c.data == old(c.data)
    ensures c.state == Writing && c.errno == Ok ==>
      c.Writer(out, back) && c.nvec > 0 && old(c.Position()) <= c.Position()
    ensures c.errno != Ok ==> c.errno == Write && Failed in ios
    ensures Live(ios) && c.state == Writing ==> c.Position() > old(c.Position())
    ensures c.errno == Ok && c.state != Writing ==> Idle(c) && Delivered(c, out, back)
    ensures c.maxlen == old(c.maxlen)
  {
    hide Connection.Position, Connection.Win, Sane, Len, Message, Sent, TrailerOf, SenderOk;
    var i, packets := 0, 0;
    while c.nvec > 0
      invariant c.Writer(out, back) && c.state == Writing && c.errno == Ok && c.header == old(c.header) &&
        c.data == old(c.data)
      invariant c.maxlen == old(c.maxlen)
      invariant old(c.Position()) + (if i > 0 then 1 else 0) <= c.Position() && i <= |ios|
      decreases |ios| - i
    {
      if i == |ios| {
        return;
      }
      var io := ios[i];
      i := i + 1;
      match io {
        case WouldBlock => return;
        case Failed =>
          c.errno := Write;
          return;
        case Upto(n) =>
          var nio := c.WriteStep(n, out, back);
          if nio == 0 {
            return;
          }
      }
      packets := packets + 1;
      if packets > MAX_PACKETS {
        break;
      }
    }
    if c.nvec > 0 {
      return;
    }
    c.Finished(out, back);
    c.state := IoDone;
  }

  /** What can be wrong after a failed read: the stream, or the header that came in. */
  ghost predicate Broken(c: Connection)
    reads c
  {
    c.errno == Read || (|c.header| == HEADER_LEN && c.wire == c.header && !Accepted(c.header, c.maxlen) &&
      c.errno == Refusal(c.header))
  }

  /** One read: some of the next bytes of the stream come in. */
  method ReadSome(c: Connection, inbox: seq<Byte>, taken: nat, n: nat, ghost back: Option<Link>,
      ghost out: Option<Link>) returns (taken': nat)
    requires c.Reader(back, out) && c.nvec > 0 && taken < |inbox| && n > 0
    modifies c
    ensures taken < taken' <= |inbox| && c.wire == old(c.wire) + inbox[taken..taken'] && c.maxlen == old(c.maxlen)
    ensures c.errno == Ok && c.nvec > 0 ==> c.Reader(back, out)
    ensures c.errno == Ok && c.nvec == 0 ==>
      c.state == Reading && Sane(c.suite) && c.Complete(back, out) && |c.trailer| == MIC_LEN && |c.iov| == 3
    ensures c.errno == Ok && c.hoff < HEADER_LEN ==> c.nvec > 0
    ensures c.errno != Ok ==> Broken(c) && c.errno != Read
  {
    hide Connection.Win, Sane, Len, Message, Connection.Checking, Connection.Complete, Accepted, Word;
    c.HeaderFirst();
    c.NonEmpty();
    var nio := Least(n, |inbox| - taken, Len(c.iov, c.nvec));
    c.ReadStep(inbox[taken .. taken + nio], back, out);
    taken' := taken + nio;
  }

  /**
   Unameit_Conn_Progress while reading, on a stream whose next bytes are `inbox`. However they
   arrive, the message that comes in is the one on the stream.
   */
  method ProgressReading(c: Connection, inbox: seq<Byte>, ios: seq<Io>, ghost back: Option<Link>,
      ghost out: Option<Link>) returns (taken: nat)
    requires c.Reader(back, out) && c.nvec > 0
    modifies c
    ensures taken <= |inbox| && c.wire == old(c.wire) + inbox[..taken] && c.maxlen == old(c.maxlen)
    ensures c.state == Reading && c.errno == Ok ==> c.Reader(back, out) && c.nvec > 0
    ensures c.errno == Ok && c.state != Reading ==> Idle(c) && c.Complete(back, out) && (back == None ==> c.micOk)
    ensures c.errno != Ok ==> Broken(c) && (Failed !in ios ==> c.errno != Read)
    ensures Live(ios) && inbox != [] ==> taken > 0
  {
    hide Connection.Win, Sane, Len, Message, Connection.Checking, Connection.Judged, Accepted, Word, Broken;
    taken := 0;
    var i, packets := 0, 0;
    assert inbox[..0] == [];
    while c.nvec > 0
      invariant taken <= |inbox| && c.wire == old(c.wire) + inbox[..taken] && c.maxlen == old(c.maxlen) && i <= |ios|
      invariant i > 0 || c.nvec == 0 ==> taken > 0
      invariant c.errno == Ok && c.state == Reading && Sane(c.suite)
      invariant c.nvec > 0 ==> c.Reader(back, out)
      invariant c.nvec == 0 ==> c.Complete(back, out) && |c.trailer| == MIC_LEN && |c.iov| == 3
      decreases |ios| - i
    {
      if i == |ios| || taken == |inbox| {
        return;
      }
      var io := ios[i];
      i := i + 1;
      match io {
        case WouldBlock => return;
        case Failed =>
          c.errno := Read;
          ReadFailed(c);
          return;
        case Upto(n) =>
          if n == 0 {
            return;
          }
          ghost var before := taken;
          taken := ReadSome(c, inbox, taken, n, back, out);
          assert inbox[..before] + inbox[before..taken] == inbox[..taken];
          if c.errno != Ok || c.hoff < HEADER_LEN {
            return;
          }
      }
      packets := packets + 1;
      if packets > MAX_PACKETS {
        break;
      }
    }
    if c.nvec > 0 {
      return;
    }
    Settle(c, back, out);
  }

  lemma ReadFailed(c: Connection)
    requires c.errno == Read
    ensures Broken(c)
  {
  }

  /** The end of Unameit_Conn_Progress: without a check every message counts as good. */
  method Settle(c: Connection, ghost back: Option<Link>, ghost out: Option<Link>)
    requires Sane(c.suite) && c.Complete(back, out) && c.errno == Ok && |c.trailer| == MIC_LEN && |c.iov| == 3
    modifies c`micOk, c`state
    ensures Idle(c) && c.Complete(back, out) && (back == None ==> c.micOk)
  {
    hide Sane, Accepted, Word;
    if !c.readMic {
      c.micOk := true;
    }
    c.state := IoDone;
  }

  /**
   The end of the stream while reading: normal between messages, an error within one, and taken for
   an empty trailer where only the trailer is missing.
   */
  method EndOfFile(c: Connection, ghost back: Option<Link>, ghost out: Option<Link>)
    requires c.Reader(back, out) && c.nvec > 0
    modifies c
    ensures old(c.Position()) == 0 <==> c.state == Eof
    ensures c.errno == Short <==> old(c.Position()) != 0 && old(c.Position()) != HEADER_LEN + old(c.length)
    ensures old(c.Position()) != 0 && old(c.Position()) == HEADER_LEN + old(c.length) ==>
      back.Some? && c.errno == Ok && c.state == IoDone && c.wire == old(c.wire) + seq(MIC_LEN, _ => 0) &&
        Sane(c.suite) && c.Complete(back, out)
  {
    hide Connection.Win, Sane, Len, Message, Connection.Checking, Connection.Judged, Accepted, Refusal, Word, Broken;
    c.Phases();
    if c.hoff == 0 {
      c.state := Eof;
      return;
    }
    if c.hoff < HEADER_LEN || c.offset < c.length || c.toff > 0 {
      c.errno := Short;
      return;
    }
    c.ReadStep(seq(MIC_LEN, _ => 0), back, out);
    if c.nvec > 0 {
      c.AllIn();
    }
    Settle(c, back, out);
  }

  /** A prefix of a message that is itself a whole message is that message. */
  lemma Understood(header: seq<Byte>, data: seq<Byte>, mic: bool, trailer: seq<Byte>, header': seq<Byte>,
      data': seq<Byte>, wire: seq<Byte>)
    requires |header| == HEADER_LEN == |header'| && Word(header, 12) == |data| && Word(header', 12) == |data'| &&
      |trailer| == MIC_LEN
    requires wire <= Message(header, data, mic, trailer) && |wire| == Total(|data'|, mic) &&
      wire[..HEADER_LEN + |data'|] == header' + data'
    ensures header' == header && data' == data && (mic ==> wire[HEADER_LEN + |data|..] == trailer)
  {
    hide Word;
    var m := Message(header, data, mic, trailer);
    assert wire[..HEADER_LEN] == m[..HEADER_LEN] == header;
    assert wire[..HEADER_LEN] == wire[..HEADER_LEN + |data'|][..HEADER_LEN] == header';
    assert |wire| == |m| && wire == m;
    assert m[HEADER_LEN .. HEADER_LEN + |data|] == data && (header' + data')[HEADER_LEN..] == data';
  }

  /** The links of a connection. */
  function PeerOf(c: Connection): Peer
    reads c`readMic, c`writeMic, c`readContext, c`writeContext
  {
    Peer(c.Out(), c.Back())
  }

  ghost predicate Idle(c: Connection)
    reads c
  {
    c.errno == Ok && c.state == IoDone && |c.header| == HEADER_LEN && |c.trailer| == MIC_LEN && |c.iov| == 3 &&
      Sane(c.suite)
  }

  /** Enough calls, each of which moves something, for this many bytes. */
  ghost predicate Enough(calls: seq<seq<Io>>, n: nat) {
    |calls| >= n && forall call :: call in calls ==> Live(call)
  }

  /** Send a whole message, over as many calls as it takes. */
  method SendAll(c: Connection, bytes: seq<Byte>, auth: nat, result: nat, calls: seq<seq<Io>>)
    requires Idle(c) && |bytes| < 0x1_0000_0000 && auth < 0x1_0000_0000 && result < 0x1_0000_0000
    modifies c
    ensures c.errno == Ok && c.state == IoDone ==> Idle(c) && Delivered(c, old(c.Out()), old(c.Back()))
    ensures c.maxlen == old(c.maxlen)
    ensures c.data == bytes && c.header == HeaderOf(auth, result, |bytes|)
    ensures Enough(calls, Total(|bytes|, old(c.writeMic))) ==> c.errno == Ok && c.state == IoDone
  {
    hide Sane, Delivered, Connection.Writer, Connection.Position, HeaderOf, Word, Live;
    ghost var out, back := c.Out(), c.Back();
    c.StartWriting(bytes, auth, result);
    c.WriterState(out, back);
    var i := 0;
    while i < |calls| && c.errno == Ok && c.state == Writing
      invariant 0 <= i <= |calls| && (c.errno == Ok && c.state == Writing ==> c.Writer(out, back))
      invariant c.errno == Ok && c.state != Writing ==> Idle(c) && Delivered(c, out, back)
      invariant c.maxlen == old(c.maxlen)
      invariant c.data == bytes && c.header == HeaderOf(auth, result, |bytes|)
      invariant (forall call :: call in calls ==> Live(call)) ==>
        c.errno == Ok && (c.state == Writing ==> c.Position() >= i && (i > 0 ==> c.nvec > 0))
    {
      assert calls[i] in calls;
      NoFailure(calls[i]);
      ProgressWriting(c, calls[i], out, back);
      i := i + 1;
    }
    if Enough(calls, Total(|bytes|, out.Some?)) && c.state == Writing {
      c.StillWriting(out, back);
    }
  }

  lemma NoFailure(ios: seq<Io>)
    ensures Live(ios) ==> Failed !in ios
  {
  }

  /** Receive from a stream, over as many calls as it takes. */
  method ReceiveAll(c: Connection, stream: seq<Byte>, calls: seq<seq<Io>>)
    requires Idle(c)
    modifies c
    ensures c.errno == Ok && c.state == IoDone ==>
      Idle(c) && c.wire <= stream && c.Complete(old(c.Back()), old(c.Out())) && (old(c.Back()) == None ==> c.micOk)
    ensures c.maxlen == old(c.maxlen) && c.wire <= stream
    ensures c.errno == Ok && c.state != IoDone ==>
      c.state == Reading && c.Reader(old(c.Back()), old(c.Out())) && c.nvec > 0
    ensures Enough(calls, |stream|) && c.errno == Ok && c.state == Reading ==> c.wire == stream
    ensures Enough(calls, |stream|) && c.errno != Ok ==> Broken(c) && c.errno != Read
  {
    hide Sane, Connection.Reader, Connection.Complete, Connection.Position, Broken, Live;
    ghost var back, out := c.Back(), c.Out();
    c.StartReading();
    c.ReaderState(back, out);
    var i, taken := 0, 0;
    assert stream[..0] == [];
    while i < |calls| && c.errno == Ok && c.state == Reading
      invariant 0 <= i <= |calls| && taken <= |stream| && c.wire == stream[..taken] && c.maxlen == old(c.maxlen)
      invariant c.errno == Ok && c.state == Reading ==> c.Reader(back, out) && c.nvec > 0
      invariant c.errno == Ok && c.state != Reading ==> Idle(c) && c.Complete(back, out) && (back == None ==> c.micOk)
      invariant (forall call :: call in calls ==> Live(call)) ==> (c.errno != Ok ==> Broken(c) && c.errno != Read)
      invariant (forall call :: call in calls ==> Live(call)) && c.state == Reading && c.errno == Ok ==>
        taken >= i || taken == |stream|
    {
      assert calls[i] in calls;
      NoFailure(calls[i]);
      var more := ProgressReading(c, stream[taken..], calls[i], back, out);
      assert stream[..taken] + stream[taken..][..more] == stream[..taken + more];
      taken := taken + more;
      i := i + 1;
    }
  }

  /**
   A message from a to b: whatever the stream does on either side, a message that arrives is the one
   that was sent, its check succeeds, and the two ends stay in step. If the stream goes on moving
   bytes the message does arrive, unless it is longer than b allows.
   */
  method Exchange(a: Connection, b: Connection, bytes: seq<Byte>, auth: nat, result: nat, sends: seq<seq<Io>>,
      receives: seq<seq<Io>>) returns (arrived: bool)
    requires a != b && Idle(a) && Idle(b) && a.suite == b.suite && InStep(PeerOf(a), PeerOf(b))
    requires |bytes| < 0x1_0000_0000 && auth < 0x1_0000_0000 && result < 0x1_0000_0000
    modifies a, b
    ensures arrived ==>
      b.data == bytes && |b.header| == HEADER_LEN && Word(b.header, 4) == auth && Word(b.header, 8) == result
    ensures arrived ==> b.micOk && InStep(PeerOf(a), PeerOf(b)) && Idle(a) && Idle(b)
    ensures arrived ==> PeerOf(a) == Sent(a.suite, old(PeerOf(a)), HeaderOf(auth, result, |bytes|), bytes)
    ensures arrived ==> PeerOf(b) == Received(a.suite, old(PeerOf(b)), HeaderOf(auth, result, |bytes|), bytes)
    ensures arrived ==> a.wire == Sealed(a.suite, old(a.Out()), HeaderOf(auth, result, |bytes|), bytes)
    ensures a.maxlen == old(a.maxlen) && b.maxlen == old(b.maxlen) && (arrived ==> b.maxlen == 0 || |bytes| <= b.maxlen)
    ensures Enough(sends, Total(|bytes|, old(a.writeMic))) && Enough(receives, Total(|bytes|, old(a.writeMic))) ==>
      (arrived <==> b.maxlen == 0 || |bytes| <= b.maxlen)
  {
    hide Connection.Complete, Connection.Reader, Delivered, HeaderOf, Word, Sane, Live, Broken, Sealed;
    SendAll(a, bytes, auth, result, sends);
    if a.errno != Ok || a.state != IoDone {
      return false;
    }
    StreamLength(a, old(a.Out()), old(a.Back()));
    ReceiveAll(b, a.wire, receives);
    if b.errno != Ok || b.state != IoDone {
      if Enough(receives, Total(|bytes|, old(a.writeMic))) {
        Refused(a, b, old(PeerOf(a)), old(PeerOf(b)));
      }
      return false;
    }
    Agreed(a, b, old(PeerOf(a)), old(PeerOf(b)));
    OnTheWire(a, old(a.Out()), old(a.Back()));
    arrived := true;
  }

  /** A whole message as the stream carries it. */
  ghost function Sealed(s: Suite, out: Option<Link>, header: seq<Byte>, data: seq<Byte>): seq<Byte>
    requires Sane(s)
  {
    Message(header, data, out.Some?, if out.Some? then TrailerOf(s, out.value, header, data) else [])
  }

  lemma OnTheWire(c: Connection, out: Option<Link>, back: Option<Link>)
    requires Sane(c.suite) && Delivered(c, out, back)
    ensures c.wire == Sealed(c.suite, out, c.header, c.data)
  {
  }

  // Whole sessions.

  /** A message one side sends, with what the stream does to it; or one side authenticates itself with a new key. */
  datatype Turn =
    | Say(fromA: bool, bytes: seq<Byte>, auth: nat, result: nat, sends: seq<seq<Io>>, receives: seq<seq<Io>>)
    | Rekey(fromA: bool, key: seq<Byte>)

  /** What the receiver is told of a message. */
  datatype Arrival = Nothing | Arrival(data: seq<Byte>, auth: nat, result: nat, micOk: bool)

  ghost predicate Sendable(t: Turn) {
    t.Say? ==> |t.bytes| < 0x1_0000_0000 && t.auth < 0x1_0000_0000 && t.result < 0x1_0000_0000
  }

  function EventOf(t: Turn): Event
    requires Sendable(t)
  {
    match t
    case Say(fromA, bytes, auth, result, _, _) => Send(fromA, HeaderOf(auth, result, |bytes|), bytes)
    case Rekey(fromA, key) => Authenticate(fromA, key)
  }

  ghost function EventsOf(turns: seq<Turn>): seq<Event>
    requires forall t :: t in turns ==> Sendable(t)
  {
    seq(|turns|, i requires 0 <= i < |turns| => EventOf(turns[i]))
  }

  ghost function ArrivalOf(t: Turn): Arrival {
    match t case Say(_, bytes, auth, result, _, _) => Arrival(bytes, auth, result, true) case Rekey(_, _) => Nothing
  }

  /** What a turn puts on the stream, if its side writes with this link. */
  ghost function WireOf(s: Suite, out: Option<Link>, t: Turn): seq<Byte>
    requires Sane(s) && Sendable(t)
  {
    match t
    case Say(_, bytes, auth, result, _, _) => Sealed(s, out, HeaderOf(auth, result, |bytes|), bytes)
    case Rekey(_, _) => []
  }

  /** The stream goes on moving bytes for this message, and the receiver allows its length. */
  ghost predicate Carries(t: Turn, maxlenA: nat, maxlenB: nat) {
    t.Say? ==>
      var maxlen := if t.fromA then maxlenB else maxlenA;
      && Enough(t.sends, Total(|t.bytes|, true)) && Enough(t.receives, Total(|t.bytes|, true))
      && (maxlen == 0 || |t.bytes| <= maxlen)
  }

  /** One turn, from x to y. */
  method TakeTurn(x: Connection, y: Connection, t: Turn) returns (ok: bool, arrival: Arrival, wire: seq<Byte>)
    requires x != y && Idle(x) && Idle(y) && x.suite == y.suite && InStep(PeerOf(x), PeerOf(y)) && Sendable(t)
    modifies x, y
    ensures x.maxlen == old(x.maxlen) && y.maxlen == old(y.maxlen)
    ensures ok ==> Idle(x) && Idle(y) && arrival == ArrivalOf(t) && wire == WireOf(x.suite, old(x.Out()), t)
    ensures ok ==> (PeerOf(x), PeerOf(y)) == After(x.suite, old(PeerOf(x)), old(PeerOf(y)), EventOf(t.(fromA := true)))
    ensures Carries(t, y.maxlen, y.maxlen) ==> ok
  {
    hide Sane, Word, HeaderOf, Sent, Received, LinkWith, Live, Sealed;
    match t {
      case Say(_, bytes, auth, result, sends, receives) =>
        ghost var mic := x.writeMic;
        Shorter(sends, |bytes|, mic);
        Shorter(receives, |bytes|, mic);
        ok := Exchange(x, y, bytes, auth, result, sends, receives);
        arrival := if ok then Arrival(y.data, Word(y.header, 4), Word(y.header, 8), y.micOk) else Nothing;
        wire := x.wire;
      case Rekey(_, key) =>
        x.MicEnable(key, false, 0, []);
        y.MicEnable(key, true, 0, []);
        FirstLink(key);
        ok, arrival, wire := true, Nothing, [];
    }
  }

  lemma Shorter(calls: seq<seq<Io>>, n: nat, mic: bool)
    ensures Enough(calls, Total(n, true)) ==> Enough(calls, Total(n, mic))
  {
  }

  lemma FirstLink(key: seq<Byte>)
    ensures LinkWith(key, 0, []) == Link(key, 0, [])
  {
  }

  /** The same event seen from the other side. */
  lemma Mirrored(s: Suite, a: Peer, b: Peer, t: Turn)
    requires Sendable(t)
    ensures var (x, y) :=
      After(s, b, a, EventOf(t.(fromA := true))); After(s, a, b, EventOf(t.(fromA := false))) == (y, x)
  {
    hide Sent, Received, HeaderOf;
  }

  lemma OneMore(s: Suite, a: Peer, b: Peer, turns: seq<Turn>, n: nat)
    requires n < |turns| && forall t :: t in turns ==> Sendable(t)
    ensures var (x, y) := AfterAll(s, a, b, EventsOf(turns[..n]));
      AfterAll(s, a, b, EventsOf(turns[..n + 1])) == After(s, x, y, EventOf(turns[n]))
  {
    hide After, HeaderOf;
    assert turns[..n + 1][..n] == turns[..n];
    assert EventsOf(turns[..n + 1])[..n] == EventsOf(turns[..n]);
  }

  /**
   A session: messages in both directions, and authentications, in any order. Every message up to the
   first that does not arrive is the one that was sent, its check good and sealed with the link its side
   has by then; the links on both sides are the ones the events lead to,
     so they stay in step; and a message fails to arrive only if the stream
   stops moving bytes or the receiver does not allow its length.
   */
  method Session(a: Connection, b: Connection, turns: seq<Turn>)
    returns (done: nat, arrivals: seq<Arrival>, wires: seq<seq<Byte>>)
    requires a != b && Idle(a) && Idle(b) && a.suite == b.suite && InStep(PeerOf(a), PeerOf(b))
    requires forall t :: t in turns ==> Sendable(t)
    modifies a, b
    ensures done <= |turns| && |arrivals| == done && forall i :: 0 <= i < done ==> arrivals[i] == ArrivalOf(turns[i])
    ensures Sane(a.suite) && |wires| == done && forall i :: 0 <= i < done ==>
      wires[i] == WireAt(a.suite, old(PeerOf(a)), old(PeerOf(b)), turns, i)
    ensures done == |turns| ==> Idle(a) && Idle(b) && InStep(PeerOf(a), PeerOf(b))
    ensures done == |turns| ==>
      (PeerOf(a), PeerOf(b)) == AfterAll(a.suite, old(PeerOf(a)), old(PeerOf(b)), EventsOf(turns))
    ensures done < |turns| ==> !Carries(turns[done], a.maxlen, b.maxlen)
  {
    hide Sane, After, AfterAll, ArrivalOf, EventsOf, Carries, EventOf, Live, WireOf;
    done, arrivals, wires := 0, [], [];
    ghost var pa, pb := PeerOf(a), PeerOf(b);
    NoTurns(a.suite, pa, pb, turns);
    while done < |turns|
      invariant done <= |turns| && |arrivals| == done && forall i :: 0 <= i < done ==>
        arrivals[i] == ArrivalOf(turns[i])
      invariant |wires| == done && forall i :: 0 <= i < done ==> wires[i] == WireAt(a.suite, pa, pb, turns, i)
      invariant Idle(a) && Idle(b) && InStep(PeerOf(a), PeerOf(b)) && a.maxlen == old(a.maxlen) &&
        b.maxlen == old(b.maxlen)
      invariant (PeerOf(a), PeerOf(b)) == AfterAll(a.suite, pa, pb, EventsOf(turns[..done]))
    {
      var t := turns[done];
      var ok, arrival, wire := Between(a, b, t);
      if !ok {
        return;
      }
      OneMore(a.suite, pa, pb, turns, done);
      StaysInStep(a.suite, pa, pb, EventsOf(turns[..done + 1]));
      arrivals, wires := arrivals + [arrival], wires + [wire];
      done := done + 1;
    }
    assert turns[..done] == turns;
  }

  ghost function WireAt(s: Suite, a: Peer, b: Peer, turns: seq<Turn>, i: nat): seq<Byte>
    requires Sane(s) && i < |turns| && forall t :: t in turns ==> Sendable(t)
  {
    WireOf(s, OutOf(AfterAll(s, a, b, EventsOf(turns[..i])), turns[i].fromA), turns[i])
  }

  /**
   A conversation in numbers: a side authenticates itself and opens it, then messages go both ways, fewer
   than the sequence numbers can tell apart. Message i is sealed under the key with its own number and, but for
   the first, the session id; afterwards both sides agree on how many went each way.
   */
  method Conversation(a: Connection, b: Connection, fromA: bool, key: seq<Byte>, says: seq<Turn>)
    returns (done: nat, wires: seq<seq<Byte>>)
    requires a != b && Idle(a) && Idle(b) && a.suite == b.suite && InStep(PeerOf(a), PeerOf(b))
    requires says != [] && says[0].fromA == fromA && (forall t :: t in says ==> t.Say? && Sendable(t))
    requires InRange(EventsOf(says), fromA)
    modifies a, b
    ensures Sane(a.suite) && done <= |says| && |wires| == done
    ensures forall i :: 0 <= i < done ==> wires[i] == Numbering(a.suite, fromA, key, says, i)
    ensures done < |says| ==> !Carries(says[done], a.maxlen, b.maxlen)
    ensures done == |says| ==>
      var es, id := EventsOf(says), SessionId(a.suite, key, HeaderOf(says[0].auth, says[0].result, |says[0].bytes|),
        says[0].bytes);
      var r := (PeerOf(a), PeerOf(b));
      && OutOf(r, fromA) == Some(Link(key, Told(es, fromA), id)) == BackOf(r, fromA)
      && OutOf(r, !fromA) == Some(Link(key, Told(es, !fromA) + 1, id)) == BackOf(r, !fromA)
  {
    hide Sane, AfterAll, ArrivalOf, Carries, HeaderOf, InRange, WireAt, Numbering, SessionId, Told;
    var turns := [Rekey(fromA, key)] + says;
    ghost var pa, pb := PeerOf(a), PeerOf(b);
    var n, arrivals, all := Session(a, b, turns);
    Keyed(turns[0], a.maxlen, b.maxlen);
    done, wires := n - 1, all[1..];
    Opening(fromA, key, says);
    forall i | 0 <= i < done
      ensures wires[i] == Numbering(a.suite, fromA, key, says, i)
    {
      WireNumbers(a.suite, pa, pb, fromA, key, says, i);
    }
    if done == |says| {
      Numbered(a.suite, pa, pb, EventsOf(turns), fromA, key, HeaderOf(says[0].auth, says[0].result, |says[0].bytes|),
        says[0].bytes);
    }
  }

  /** Message i of a conversation: header, data and the seal of its digest. */
  ghost function Numbering(s: Suite, fromA: bool, key: seq<Byte>, says: seq<Turn>, i: nat): seq<Byte>
    requires Sane(s) && i < |says| && (forall t :: t in says ==> t.Say? && Sendable(t))
  {
    assert says[i] in says && says[0] in says && Sendable(says[i]) && Sendable(says[0]);
    var h := HeaderOf(says[i].auth, says[i].result, |says[i].bytes|);
    var id := SessionId(s, key, HeaderOf(says[0].auth, says[0].result, |says[0].bytes|), says[0].bytes);
    var n := Told(EventsOf(says)[..i], says[i].fromA) + if says[i].fromA == fromA then 0 else 1;
    if n < 0x1_0000_0000 then h + says[i].bytes + Seal(s, key, s.md5(InputWith(key, n, id, h, says[i].bytes))) else []
  }

  /** An authentication always goes through. */
  lemma Keyed(t: Turn, maxlenA: nat, maxlenB: nat)
    requires t.Rekey?
    ensures Carries(t, maxlenA, maxlenB)
  {
  }

  /** The events of a conversation, with and without the authentication in front. */
  lemma Opening(fromA: bool, key: seq<Byte>, says: seq<Turn>)
    requires says != [] && says[0].fromA == fromA && (forall t :: t in says ==> t.Say? && Sendable(t))
    ensures forall t :: t in [Rekey(fromA, key)] + says ==> Sendable(t)
    ensures var es := EventsOf([Rekey(fromA, key)] + says);
      && es == [Authenticate(fromA, key)] + EventsOf(says)
      && Opens(es, fromA, key, HeaderOf(says[0].auth, says[0].result, |says[0].bytes|), says[0].bytes)
      && (forall side :: Told(es, side) == Told(EventsOf(says), side))
      && (InRange(EventsOf(says), fromA) ==> InRange(es, fromA))
  {
    hide HeaderOf;
    var turns := [Rekey(fromA, key)] + says;
    forall t | t in turns
      ensures Sendable(t)
    {
    }
    var es := EventsOf(turns);
    assert es == [Authenticate(fromA, key)] + EventsOf(says);
    forall side
      ensures Told(es, side) == Told(EventsOf(says), side)
    {
      ToldAfterKey(fromA, key, EventsOf(says), side);
    }
    forall i | 2 <= i < |es|
      ensures es[i].Send?
    {
      assert es[i] == EventOf(says[i - 1]) && says[i - 1] in says;
    }
    assert says[0] in says && es[1] == EventOf(says[0]);
  }

  lemma {:induction false} ToldAfterKey(fromA: bool, key: seq<Byte>, es: seq<Event>, side: bool)
    ensures Told([Authenticate(fromA, key)] + es, side) == Told(es, side)
    decreases |es|
  {
    var all := [Authenticate(fromA, key)] + es;
    if es == [] {
      assert all[..0] == [];
    } else {
      assert all[..|all| - 1] == [Authenticate(fromA, key)] + es[..|es| - 1];
      ToldAfterKey(fromA, key, es[..|es| - 1], side);
    }
  }

  lemma WireNumbers(s: Suite, a: Peer, b: Peer, fromA: bool, key: seq<Byte>, says: seq<Turn>, i: nat)
    requires Sane(s) && i < |says| && says[0].fromA == fromA && (forall t :: t in says ==> t.Say? && Sendable(t))
    requires InRange(EventsOf(says), fromA)
    requires forall t :: t in [Rekey(fromA, key)] + says ==> Sendable(t)
    ensures WireAt(s, a, b, [Rekey(fromA, key)] + says, i + 1) == Numbering(s, fromA, key, says, i)
  {
    hide HeaderOf, InRange, SessionId, Told, AfterAll, Sane, Preamble, InputWith, Seal;
    var turns := [Rekey(fromA, key)] + says;
    var es := EventsOf(turns);
    var h0 := HeaderOf(says[0].auth, says[0].result, |says[0].bytes|);
    Opening(fromA, key, says);
    InputIs(s, a, b, es, fromA, key, h0, says[0].bytes, i + 1);
    assert es[i + 1] == EventOf(says[i]) && says[i] in says && turns[i + 1] == says[i];
    assert EventsOf(turns[..i + 1]) == es[..i + 1];
    assert es[..i + 1] == [Authenticate(fromA, key)] + EventsOf(says)[..i];
    ToldAfterKey(fromA, key, EventsOf(says)[..i], says[i].fromA);
  }

  lemma NoTurns(s: Suite, a: Peer, b: Peer, turns: seq<Turn>)
    ensures AfterAll(s, a, b, EventsOf(turns[..0])) == (a, b)
  {
  }

  /** One turn, whichever side it comes from. */
  method Between(a: Connection, b: Connection, t: Turn) returns (ok: bool, arrival: Arrival, wire: seq<Byte>)
    requires a != b && Idle(a) && Idle(b) && a.suite == b.suite && InStep(PeerOf(a), PeerOf(b)) && Sendable(t)
    modifies a, b
    ensures a.maxlen == old(a.maxlen) && b.maxlen == old(b.maxlen)
    ensures ok ==> Idle(a) && Idle(b) && arrival == ArrivalOf(t)
    ensures ok ==> wire == WireOf(a.suite, OutOf((old(PeerOf(a)), old(PeerOf(b))), t.fromA), t)
    ensures ok ==> (PeerOf(a), PeerOf(b)) == After(a.suite, old(PeerOf(a)), old(PeerOf(b)), EventOf(t))
    ensures Carries(t, a.maxlen, b.maxlen) ==> ok
  {
    hide Sane, After, EventOf, Enough;
    ghost var pa, pb := PeerOf(a), PeerOf(b);
    if t.fromA {
      assert t.(fromA := true) == t;
      ok, arrival, wire := TakeTurn(a, b, t);
    } else {
      assert t.(fromA := false) == t;
      Mirrored(a.suite, pa, pb, t);
      ok, arrival, wire := TakeTurn(b, a, t);
    }
  }

  lemma StreamLength(a: Connection, out: Option<Link>, back: Option<Link>)
    requires Sane(a.suite) && Delivered(a, out, back) && |a.header| == HEADER_LEN
    ensures |a.wire| == Total(|a.data|, out.Some?)
  {
    hide Sane, TrailerOf;
    TrailerLen(a.suite, out, a.header, a.data);
  }

  /** A message that is on the stream, and does not come in, was refused for its length. */
  lemma Refused(a: Connection, b: Connection, pa: Peer, pb: Peer)
    requires Sane(a.suite) && InStep(pa, pb) && Delivered(a, pa.out, pa.back) && b.wire <= a.wire
    requires |a.header| == HEADER_LEN && Word(a.header, 0) == CONN_MAGIC && Word(a.header, 12) == |a.data|
    requires if b.errno == Ok then b.Reader(pb.back, pb.out) && b.nvec > 0 && b.wire == a.wire
      else Broken(b) && b.errno != Read
    ensures b.maxlen != 0 && |a.data| > b.maxlen
  {
    hide Sane, TrailerOf, Word, Message, Connection.Reader;
    StreamLength(a, pa.out, pa.back);
    HeaderIs(a.header, a.data, pa.out.Some?, if pa.out.Some? then TrailerOf(a.suite, pa.out.value, a.header, a.data)
      else []);
    assert a.wire[..HEADER_LEN] == a.header;
    if b.errno == Ok {
      b.Unfinished(pb.back, pb.out);
      assert false;
    } else {
      assert b.header == a.wire[..|b.wire|] == a.header;
    }
  }

  lemma Agreed(a: Connection, b: Connection, pa: Peer, pb: Peer)
    requires Sane(a.suite) && a.suite == b.suite && InStep(pa, pb)
    requires Delivered(a, pa.out, pa.back) && b.Complete(pb.back, pb.out) && b.wire <= a.wire
    requires |a.header| == HEADER_LEN && Word(a.header, 12) == |a.data| && (pb.back == None ==> b.micOk)
    ensures b.header == a.header && b.data == a.data && b.micOk && InStep(PeerOf(a), PeerOf(b))
    ensures PeerOf(a) == Sent(a.suite, pa, a.header, a.data) && PeerOf(b) == Received(a.suite, pb, a.header, a.data)
    ensures b.maxlen == 0 || |a.data| <= b.maxlen
  {
    hide Sane, TrailerOf, Word;
    var trailer := if pa.out.Some? then TrailerOf(a.suite, pa.out.value, a.header, a.data) else seq(MIC_LEN, _ => 0);
    TrailerLen(a.suite, pa.out, a.header, a.data);
    Understood(a.header, a.data, pa.out.Some?, trailer, b.header, b.data, b.wire);
  }

  lemma TrailerLen(s: Suite, l: Option<Link>, header: seq<Byte>, data: seq<Byte>)
    requires Sane(s)
    ensures l.Some? ==> |TrailerOf(s, l.value, header, data)| == MIC_LEN
  {
    if l.Some? {
      SealLen(s, l.value.key, Digest(s, l.value, header, data));
    }
  }

  function Least(a: nat, b: nat, c: nat): nat {
    if a <= b && a <= c then a else if b <= c then b else c
  }

  /** The whole message went out, and the links are those of a sender that is done. */
  ghost predicate Delivered(c: Connection, out: Option<Link>, back: Option<Link>)
    requires Sane(c.suite)
    reads c
  {
    && c.wire == Message(c.header, c.data, out.Some?, if out.Some? then TrailerOf(c.suite, out.value, c.header, c.data)
      else [])
    && Peer(c.Out(), c.Back()) == Sent(c.suite, Peer(out, back), c.header, c.data)
  }

  predicate Accepted(header: seq<Byte>, maxlen: nat)
    requires |header| == HEADER_LEN
  {
    Word(header, 0) == CONN_MAGIC && !(maxlen != 0 && maxlen < Word(header, 12))
  }

  function Refusal(header: seq<Byte>): Errno
    requires |header| == HEADER_LEN
  {
    if Word(header, 0) != CONN_MAGIC then Magic else Size
  }
}
