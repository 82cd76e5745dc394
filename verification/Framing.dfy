/**
 The sliding window of libconn/conn.c. A message is a header, its data and, when a message
 integrity check is in use, a trailer. The window is the part of it offered to the next I/O.
 */
module Framing {
  import opened Basics

  const HEADER_LEN := 16
  const MIC_LEN := 16
  const PKT_LEN := 0x1000
  const MAX_COPY_SIZE := 4 * 1024 + 16

  datatype Part = Header | Data | Trailer

  /** One scatter-gather element: len bytes of a part of the message, from start on. */
  datatype Iov = Iov(part: Part, start: nat, len: nat)

  /** How much of the message has been transferred. */
  function Pos(hoff: nat, length: nat, offset: nat, mic: bool, toff: nat): nat {
    if hoff < HEADER_LEN then hoff
    else if offset < length then HEADER_LEN + offset
    else HEADER_LEN + length + if mic then toff else 0
  }

  function Total(length: nat, mic: bool): nat {
    HEADER_LEN + length + if mic then MIC_LEN else 0
  }

  function PartSize(part: Part, length: nat): nat {
    match part case Header => HEADER_LEN case Data => length case Trailer => MIC_LEN
  }

  /** Where a part's byte stands in the message. */
  function Place(part: Part, start: nat, length: nat): nat {
    match part case Header => start case Data => HEADER_LEN + start case Trailer => HEADER_LEN + length + start
  }

  /** Number of bytes of the first n elements. */
  function Len(iov: seq<Iov>, n: nat): nat
    requires n <= |iov|
  {
    if n == 0 then 0 else Len(iov, n - 1) + iov[n - 1].len
  }

  /** The window after the header, when `len` bytes of data are offered next; the trailer joins the last of them. */
  ghost predicate DataWindow(mic: bool, length: nat, offset: nat, toff: nat, iov: seq<Iov>, nvec: nat, first: nat) {
    && first < |iov| && iov[first].part == Data && iov[first].start == offset
    && 0 < iov[first].len <= PKT_LEN && offset + iov[first].len <= length
    && nvec == first + 1 + (if mic && offset + iov[first].len == length then 1 else 0)
    && (nvec == first + 2 ==> nvec <= |iov| && iov[first + 1] == Iov(Trailer, 0, MIC_LEN) && toff == 0)
  }

  ghost predicate TrailerWindow(mic: bool, toff: nat, iov: seq<Iov>, nvec: nat, first: nat) {
    && (mic ==> toff <= MIC_LEN)
    && nvec == first + (if mic && toff < MIC_LEN then 1 else 0)
    && (nvec == first + 1 ==> nvec <= |iov| && iov[first] == Iov(Trailer, toff, MIC_LEN - toff))
  }

  /** Data sent along with the header, so that both end on a packet boundary. */
  function FirstData(length: nat): nat {
    if length > PKT_LEN - HEADER_LEN then PKT_LEN - HEADER_LEN else length
  }

  /** Bytes of the first window after the header. */
  function FirstRest(length: nat, mic: bool): nat {
    FirstData(length) + if mic && length <= PKT_LEN - HEADER_LEN then MIC_LEN else 0
  }

  lemma FirstWindow(mic: bool, hoff: nat, length: nat, toff: nat, iov: seq<Iov>, nvec: nat)
    requires Window(true, mic, hoff, length, 0, toff, iov, nvec) && hoff < HEADER_LEN
    ensures Len(iov, nvec) == HEADER_LEN - hoff + FirstRest(length, mic)
  {
    assert Len(iov, 0) == 0 && Len(iov, 1) == iov[0].len && Len(iov, 2) == Len(iov, 1) + iov[1].len &&
      Len(iov, 3) == Len(iov, 2) + iov[2].len;
  }

  lemma DataLen(mic: bool, length: nat, toff: nat, iov: seq<Iov>, nvec: nat)
    requires |iov| == 3 && nvec <= 3
    requires if length > 0 then DataWindow(mic, length, 0, toff, iov, nvec, 0) && iov[0].len == FirstData(length)
      else TrailerWindow(mic, toff, iov, nvec, 0) && (mic ==> toff == 0)
    ensures Len(iov, nvec) == FirstRest(length, mic)
  {
    assert Len(iov, 0) == 0 && Len(iov, 1) == iov[0].len && Len(iov, 2) == Len(iov, 1) + iov[1].len;
  }

  /** The window offered at each point of the transfer. */
  ghost predicate Window(writing: bool, mic: bool, hoff: nat, length: nat, offset: nat, toff: nat, iov: seq<Iov>,
      nvec: nat) {
    && |iov| == 3 && nvec <= 3 && hoff <= HEADER_LEN && offset <= length
    && if hoff < HEADER_LEN then
         && iov[0] == Iov(Header, hoff, HEADER_LEN - hoff) && offset == 0
         && if !writing then nvec == 1
            else if length > 0 then DataWindow(mic, length, 0, toff, iov, nvec, 1) && iov[1].len == FirstData(length)
            else TrailerWindow(mic, toff, iov, nvec, 1) && (mic ==> toff == 0)
       else if offset < length then
         DataWindow(mic, length, offset, toff, iov, nvec, 0)
       else
         TrailerWindow(mic, toff, iov, nvec, 0)
  }

  /** The elements of the window follow one another in the message, starting where the transfer stands. */
  lemma Spans(writing: bool, mic: bool, hoff: nat, length: nat, offset: nat, toff: nat, iov: seq<Iov>, nvec: nat)
    requires Window(writing, mic, hoff, length, offset, toff, iov, nvec)
    ensures forall i :: 0 <= i < nvec ==> iov[i].start + iov[i].len <= PartSize(iov[i].part, length) && iov[i].len > 0
    ensures forall i :: 0 <= i < nvec ==>
      Place(iov[i].part, iov[i].start, length) == Pos(hoff, length, offset, mic, toff) + Len(iov, i)
    ensures Len(iov, nvec) <= MAX_COPY_SIZE
    ensures nvec > 0 <==> Len(iov, nvec) > 0
    ensures hoff == HEADER_LEN || writing ==>
      Pos(hoff, length, offset, mic, toff) + Len(iov, nvec) <= Total(length, mic)
    ensures hoff == HEADER_LEN || writing ==>
      (nvec == 0 <==> Pos(hoff, length, offset, mic, toff) == Total(length, mic))
  {
    assert Len(iov, 0) == 0 && Len(iov, 1) == iov[0].len && Len(iov, 2) == Len(iov, 1) + iov[1].len &&
      Len(iov, 3) == Len(iov, 2) + iov[2].len;
  }
}
