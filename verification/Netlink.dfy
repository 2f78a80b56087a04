/**
 Draining the route-netlink socket: the header walk over a received datagram and the decision
 whether anything relevant changed. Message headers are those of section 2.3.2 of RFC 3549, in the
 byte order of a little-endian host.
 */
module Netlink {
  import opened Basics

  const HEADER := 16
  const BUFFER := 8192

  const ERROR := 2
  const NEWLINK := 16
  const DELLINK := 17
  const NEWADDR := 20
  const DELADDR := 21

  predicate IsChange(kind: int) {
    kind == NEWLINK || kind == DELLINK || kind == NEWADDR || kind == DELADDR
  }

  function ReadU16(b: seq<Byte>, at: nat): nat
    requires at + 2 <= |b|
  {
    b[at] as int + 0x100 * b[at + 1] as int
  }

  function ReadU32(b: seq<Byte>, at: nat): nat
    requires at + 4 <= |b|
  {
    b[at] as int + 0x100 * b[at + 1] as int + 0x1_0000 * b[at + 2] as int + 0x100_0000 * b[at + 3] as int
  }

  /** NLMSG_ALIGN. */
  function Align(n: nat): (aligned: nat)
    ensures n <= aligned < n + 4 && aligned % 4 == 0
  {
    (n + 3) / 4 * 4
  }

  /** NLMSG_OK: a whole header at `offset`, and a length that covers it and stays inside the datagram. */
  predicate OkAt(b: seq<Byte>, offset: nat) {
    offset + HEADER <= |b| && HEADER <= ReadU32(b, offset) <= |b| - offset
  }

  /** NLMSG_NEXT; the padding of the last message may reach past the end. */
  function NextAt(b: seq<Byte>, offset: nat): (next: nat)
    requires OkAt(b, offset)
    ensures offset < next
  {
    offset + Align(ReadU32(b, offset))
  }

  /** The headers the walk comes by from `offset` on, each with its place and its message type. */
  function Walk(b: seq<Byte>, offset: nat): seq<(nat, nat)>
    decreases |b| - offset
  {
    if OkAt(b, offset) then [(offset, ReadU16(b, offset + 4))] + Walk(b, NextAt(b, offset)) else []
  }

  predicate HasChange(b: seq<Byte>) {
    AnyChange(Walk(b, 0))
  }

  predicate AnyChange(headers: seq<(nat, nat)>) {
    exists i :: 0 <= i < |headers| && IsChange(headers[i].1)
  }

  /** The error code of an error message is the four bytes behind its header. */
  const ERROR_END := HEADER + 4

  /** Every error code that the walk reads lies before `limit`. */
  predicate ErrorsInside(b: seq<Byte>, limit: nat) {
    CodesBefore(Walk(b, 0), limit)
  }

  predicate CodesBefore(headers: seq<(nat, nat)>, limit: nat) {
    forall i :: 0 <= i < |headers| && headers[i].1 == ERROR ==> headers[i].0 + ERROR_END <= limit
  }

  lemma ChangeUnfolds(header: (nat, nat), rest: seq<(nat, nat)>)
    ensures AnyChange([header] + rest) <==> IsChange(header.1) || AnyChange(rest)
  {
    var all := [header] + rest;
    assert all[0] == header;
    assert forall i :: 0 <= i < |rest| ==> all[i + 1] == rest[i];
  }

  lemma CodesUnfold(header: (nat, nat), rest: seq<(nat, nat)>, limit: nat)
    ensures CodesBefore([header] + rest, limit)
       <==> (header.1 == ERROR ==> header.0 + ERROR_END <= limit) && CodesBefore(rest, limit)
  {
    var all := [header] + rest;
    assert all[0] == header;
    assert forall i :: 0 <= i < |rest| ==> all[i + 1] == rest[i];
  }

  /**
   The walk of `drain_netlink` over one datagram. `reach` is the end of the farthest byte it reads:
   headers lie inside the datagram, and the error codes that are logged do exactly if each has its
   four bytes there.
   */
  method WalkDatagram(b: seq<Byte>) returns (changed: bool, reach: nat)
    ensures changed <==> HasChange(b)
    ensures var headers := Walk(b, 0); changed <==> exists i :: 0 <= i < |headers| && headers[i].1 in {16, 17, 20, 21}
    ensures forall limit: nat :: |b| <= limit ==> (reach <= limit <==> ErrorsInside(b, limit))
  {
    changed, reach := false, 0;
    var offset, length: int := 0, |b|;
    while length >= HEADER && HEADER <= ReadU32(b, offset) <= length
      invariant 0 <= offset && offset + length == |b|
      invariant HasChange(b) <==> changed || AnyChange(Walk(b, offset))
      invariant forall limit: nat :: |b| <= limit ==>
                  (ErrorsInside(b, limit) <==> reach <= limit && CodesBefore(Walk(b, offset), limit))
      decreases length
    {
      var kind := ReadU16(b, offset + 4);
      ChangeUnfolds((offset, kind), Walk(b, NextAt(b, offset)));
      forall limit: nat
        ensures CodesBefore(Walk(b, offset), limit)
           <==> (kind == ERROR ==> offset + ERROR_END <= limit) && CodesBefore(Walk(b, NextAt(b, offset)), limit)
      {
        CodesUnfold((offset, kind), Walk(b, NextAt(b, offset)), limit);
      }
      var end := offset + HEADER;
      if IsChange(kind) {
        changed := true;
      } else if kind == ERROR {
        end := offset + ERROR_END;
      }
      if reach < end {
        reach := end;
      }
      var size := Align(ReadU32(b, offset));
      offset, length := offset + size, length - size;
    }
    AnyChangeSaid(Walk(b, 0));
  }

  lemma AnyChangeSaid(headers: seq<(nat, nat)>)
    ensures AnyChange(headers) <==> exists i :: 0 <= i < |headers| && headers[i].1 in {16, 17, 20, 21}
  {
    if i :| 0 <= i < |headers| && headers[i].1 in {16, 17, 20, 21} {
      assert IsChange(headers[i].1);
    }
  }

  /** The error messages that the walk meets have type 2, and their codes end twenty bytes behind their start. */
  lemma ErrorsInsideSaid(b: seq<Byte>, limit: nat)
    ensures var headers := Walk(b, 0);
            ErrorsInside(b, limit)
            <==> forall i :: 0 <= i < |headers| && headers[i].1 == 2 ==> headers[i].0 + 20 <= limit
  {
  }

  /** The length field of the header at `at`, in the byte order of the host. */
  function LengthAt(b: seq<Byte>, at: nat): nat
    requires at + 4 <= |b|
  {
    b[at] as int + 0x100 * (b[at + 1] as int + 0x100 * (b[at + 2] as int + 0x100 * b[at + 3] as int))
  }

  /**
   The walk on any bytes, well-formed or not: it visits the header at an offset if and only if sixteen
   bytes are left there and the length field covers them and stays inside the datagram, and goes on at
   that length, rounded up to four.
   */
  lemma WalkVisits(b: seq<Byte>, offset: nat)
    ensures if offset + 16 <= |b| && 16 <= LengthAt(b, offset) <= |b| - offset
            then Walk(b, offset)
              == [(offset, b[offset + 4] as int + 0x100 * b[offset + 5] as int)]
                 + Walk(b, offset + (LengthAt(b, offset) + 3) / 4 * 4)
            else Walk(b, offset) == []
  {
    if offset + 16 <= |b| {
      assert ReadU32(b, offset) == LengthAt(b, offset);
    }
  }

  // ---------------------------------------------------------------- datagrams as the kernel writes them

  /** `flags`, sequence number and port id are the ten bytes `middle`. */
  datatype Message = Message(kind: nat, middle: seq<Byte>, payload: seq<Byte>, padding: seq<Byte>)

  predicate ValidMessage(m: Message) {
    && m.kind < 0x1_0000
    && |m.middle| == 10
    && HEADER + |m.payload| < 0x1_0000_0000
    && |m.padding| == Align(HEADER + |m.payload|) - (HEADER + |m.payload|)
  }

  function WriteU16(n: nat): seq<Byte>
    requires n < 0x1_0000
  {
    [n % 0x100, n / 0x100]
  }

  function WriteU32(n: nat): seq<Byte>
    requires n < 0x1_0000_0000
  {
    [n % 0x100, n / 0x100 % 0x100, n / 0x1_0000 % 0x100, n / 0x100_0000]
  }

  function Encode(m: Message): seq<Byte>
    requires ValidMessage(m)
  {
    WriteU32(HEADER + |m.payload|) + WriteU16(m.kind) + m.middle + m.payload + m.padding
  }

  function EncodeAll(ms: seq<Message>): seq<Byte>
    requires forall i :: 0 <= i < |ms| ==> ValidMessage(ms[i])
  {
    if ms == [] then [] else Encode(ms[0]) + EncodeAll(ms[1..])
  }

  /** Where the messages lie when the first one starts at `at`, with their types. */
  function Laid(ms: seq<Message>, at: nat): seq<(nat, nat)>
    requires forall i :: 0 <= i < |ms| ==> ValidMessage(ms[i])
  {
    if ms == [] then [] else [(at, ms[0].kind)] + Laid(ms[1..], at + |Encode(ms[0])|)
  }

  lemma WriteReadU32(n: nat)
    requires n < 0x1_0000_0000
    ensures ReadU32(WriteU32(n), 0) == n
  {
    var a, b, c := n / 0x100, n / 0x1_0000, n / 0x100_0000;
    assert b == a / 0x100;
    assert c == b / 0x100;
    assert n == 0x100 * a + n % 0x100;
    assert a == 0x100 * b + a % 0x100;
    assert b == 0x100 * c + b % 0x100;
  }

  /** The header fields of an encoded message, wherever it lies. */
  lemma HeaderFields(b: seq<Byte>, at: nat, m: Message)
    requires ValidMessage(m) && at + |Encode(m)| <= |b| && b[at..at + |Encode(m)|] == Encode(m)
    ensures OkAt(b, at) && ReadU16(b, at + 4) == m.kind && NextAt(b, at) == at + |Encode(m)|
  {
    var size := HEADER + |m.payload|;
    var bytes := Encode(m);
    WriteReadU32(size);
    assert forall j :: 0 <= j < |bytes| ==> b[at + j] == bytes[j];
    assert forall j :: 0 <= j < 4 ==> bytes[j] == WriteU32(size)[j];
    assert bytes[4] == WriteU16(m.kind)[0] && bytes[5] == WriteU16(m.kind)[1];
    assert ReadU32(b, at) == size;
  }

  lemma Regroup(before: seq<Byte>, first: seq<Byte>, rest: seq<Byte>, tail: seq<Byte>)
    ensures before + (first + rest) + tail == before + first + rest + tail
    ensures (before + (first + rest) + tail)[|before|..|before| + |first|] == first
  {
  }

  /**
   On a datagram of whole messages the walk sees every message in its place, in order, and nothing
   else; a tail too short for a header is ignored.
   */
  lemma {:induction false} WalkSeesEveryMessage(b: seq<Byte>, before: seq<Byte>, ms: seq<Message>, tail: seq<Byte>)
    requires forall i :: 0 <= i < |ms| ==> ValidMessage(ms[i])
    requires b == before + EncodeAll(ms) + tail && |tail| < HEADER
    ensures Walk(b, |before|) == Laid(ms, |before|)
    decreases |ms|
  {
    if ms == [] {
      assert !OkAt(b, |before|);
    } else {
      var first := Encode(ms[0]);
      Regroup(before, first, EncodeAll(ms[1..]), tail);
      HeaderFields(b, |before|, ms[0]);
      WalkSeesEveryMessage(b, before + first, ms[1..], tail);
    }
  }

  lemma NothingAround(b: seq<Byte>)
    ensures b == [] + b + []
  {
  }

  lemma WholeDatagram(ms: seq<Message>)
    requires forall i :: 0 <= i < |ms| ==> ValidMessage(ms[i])
    ensures Walk(EncodeAll(ms), 0) == Laid(ms, 0)
  {
    NothingAround(EncodeAll(ms));
    WalkSeesEveryMessage(EncodeAll(ms), [], ms, []);
  }

  lemma {:induction false} LaidAt(ms: seq<Message>, at: nat)
    requires forall i :: 0 <= i < |ms| ==> ValidMessage(ms[i])
    ensures |Laid(ms, at)| == |ms|
    ensures forall i :: 0 <= i < |ms| ==> Laid(ms, at)[i].1 == ms[i].kind
    ensures forall i :: 0 <= i < |ms| - 1 ==> Laid(ms, at)[i].0 + ERROR_END <= at + |EncodeAll(ms)|
    ensures ms != [] ==> Laid(ms, at)[|ms| - 1].0 + |Encode(ms[|ms| - 1])| == at + |EncodeAll(ms)|
    decreases |ms|
  {
    if ms != [] {
      LaidAt(ms[1..], at + |Encode(ms[0])|);
      assert |ms| > 1 ==> |EncodeAll(ms[1..])| >= |Encode(ms[1])|;
    }
  }

  // ---------------------------------------------------------------- the drain

  /** One answer of `recvmsg`. */
  datatype Receive =
    | Interrupted
    | WouldBlock
    | Overrun
    | Failure
    | Empty
    | Truncated
    | Datagram(bytes: seq<Byte>)

  predicate EndsDrain(r: Receive) {
    r.WouldBlock? || r.Failure? || r.Empty?
  }

  /** Lost, unreadable or relevant: each calls for a full reload. */
  predicate CallsForReload(r: Receive) {
    r.Overrun? || r.Truncated? || (r.Datagram? && HasChange(r.bytes))
  }

  /** Walking the datagram reads nothing behind it. */
  predicate ReadsInside(r: Receive) {
    r.Datagram? ==> ErrorsInside(r.bytes, |r.bytes|)
  }

  /** `drain_netlink`; the monitor leaves the running status after `stopAfter` rounds. */
  method DrainNetlink(answers: seq<Receive>, stopAfter: nat) returns (changed: bool, consumed: nat, inside: bool)
    ensures consumed <= |answers| && consumed <= stopAfter
    ensures forall i :: 0 <= i < consumed ==> !answers[i].WouldBlock? && !answers[i].Failure? && !answers[i].Empty?
    ensures || consumed == |answers| || consumed == stopAfter
            || answers[consumed].WouldBlock? || answers[consumed].Failure? || answers[consumed].Empty?
    ensures changed <==> exists i :: 0 <= i < consumed && CallsForReload(answers[i])
    ensures inside <==> forall i :: 0 <= i < consumed ==> ReadsInside(answers[i])
  {
    changed, consumed, inside := false, 0, true;
    while consumed < |answers| && consumed < stopAfter
      invariant consumed <= |answers| && consumed <= stopAfter
      invariant forall i :: 0 <= i < consumed ==> !EndsDrain(answers[i])
      invariant changed <==> exists i :: 0 <= i < consumed && CallsForReload(answers[i])
      invariant inside <==> forall i :: 0 <= i < consumed ==> ReadsInside(answers[i])
    {
      var answer := answers[consumed];
      if EndsDrain(answer) {
        break;
      }
      match answer {
        case Interrupted =>
        case Overrun => changed := true;
        case Truncated => changed := true;
        case Datagram(bytes) =>
          var relevant, reach := WalkDatagram(bytes);
          if relevant {
            changed := true;
          }
          inside := inside && reach <= |bytes|;
        case _ => assert false;
      }
      consumed := consumed + 1;
    }
  }

  /** What calls for a reload: lost events, a truncated datagram, or a message of the four types that the walk meets. */
  lemma ReloadCalledFor(r: Receive, headers: seq<(nat, nat)>)
    requires headers == if r.Datagram? then Walk(r.bytes, 0) else []
    ensures CallsForReload(r)
       <==> r == Overrun || r == Truncated || exists i :: 0 <= i < |headers| && headers[i].1 in {16, 17, 20, 21}
  {
    AnyChangeSaid(headers);
  }

  /** A datagram of whole messages calls for a reload exactly if some message is a link or address event. */
  lemma ChangeMeansLinkOrAddressEvent(ms: seq<Message>)
    requires forall i :: 0 <= i < |ms| ==> ValidMessage(ms[i])
    ensures CallsForReload(Datagram(EncodeAll(ms))) <==> exists i :: 0 <= i < |ms| && ms[i].kind in {16, 17, 20, 21}
  {
    WholeDatagram(ms);
    LaidAt(ms, 0);
    AnyChangeAmong(EncodeAll(ms), Laid(ms, 0), ms);
  }

  lemma AnyChangeAmong(b: seq<Byte>, headers: seq<(nat, nat)>, ms: seq<Message>)
    requires Walk(b, 0) == headers && |headers| == |ms| && forall i :: 0 <= i < |ms| ==> headers[i].1 == ms[i].kind
    ensures CallsForReload(Datagram(b)) <==> exists i :: 0 <= i < |ms| && ms[i].kind in {16, 17, 20, 21}
  {
    if i :| 0 <= i < |ms| && ms[i].kind in {16, 17, 20, 21} {
      assert IsChange(headers[i].1);
    }
    if i :| 0 <= i < |headers| && IsChange(headers[i].1) {
      assert ms[i].kind in {16, 17, 20, 21};
    }
  }

  /**
   Its error codes are read inside it, except exactly when its last message is an error message with
   nothing behind its header.
   */
  lemma ErrorsInsideIff(ms: seq<Message>)
    requires forall i :: 0 <= i < |ms| ==> ValidMessage(ms[i])
    ensures ReadsInside(Datagram(EncodeAll(ms)))
       <==> !(ms != [] && ms[|ms| - 1].kind == ERROR && ms[|ms| - 1].payload == [])
  {
    WholeDatagram(ms);
    LaidAt(ms, 0);
    if ms != [] {
      EncodedSize(ms[|ms| - 1]);
      LastCodeDecides(EncodeAll(ms), Laid(ms, 0), ms, |Encode(ms[|ms| - 1])|);
    }
  }

  /** Only a bare header is too short for an error code. */
  lemma EncodedSize(m: Message)
    requires ValidMessage(m)
    ensures if m.payload == [] then |Encode(m)| == HEADER else ERROR_END <= |Encode(m)|
  {
    assert |Encode(m)| == Align(HEADER + |m.payload|);
  }

  lemma LastCodeDecides(b: seq<Byte>, headers: seq<(nat, nat)>, ms: seq<Message>, size: nat)
    requires Walk(b, 0) == headers && |headers| == |ms| > 0
    requires forall i :: 0 <= i < |ms| ==> headers[i].1 == ms[i].kind
    requires forall i :: 0 <= i < |ms| - 1 ==> headers[i].0 + ERROR_END <= |b|
    requires headers[|ms| - 1].0 + size == |b|
    requires if ms[|ms| - 1].payload == [] then size == HEADER else ERROR_END <= size
    ensures ReadsInside(Datagram(b)) <==> !(ms[|ms| - 1].kind == ERROR && ms[|ms| - 1].payload == [])
  {
    CodesInside(headers, |b|);
  }

  lemma CodesInside(headers: seq<(nat, nat)>, limit: nat)
    requires headers != [] && forall i :: 0 <= i < |headers| - 1 ==> headers[i].0 + ERROR_END <= limit
    ensures CodesBefore(headers, limit)
       <==> (headers[|headers| - 1].1 == ERROR ==> headers[|headers| - 1].0 + ERROR_END <= limit)
  {
  }

  function Zeros(n: nat): (bytes: seq<Byte>)
    ensures |bytes| == n
  {
    seq(n, _ => 0)
  }

  /** An error message that is only a header. */
  const BARE_ERROR := Message(ERROR, Zeros(10), [], [])

  /** Sixteen bytes of which the walk reads twenty. */
  lemma BareErrorOverreads()
    ensures |EncodeAll([BARE_ERROR])| == HEADER && !ReadsInside(Datagram(EncodeAll([BARE_ERROR])))
  {
    assert ValidMessage(BARE_ERROR);
    ErrorsInsideIff([BARE_ERROR]);
    assert EncodeAll([BARE_ERROR]) == Encode(BARE_ERROR);
  }

  /** At the end of a full buffer such a message takes the read past the buffer. */
  lemma BareErrorLeavesBuffer()
    ensures var ms := [Message(0, Zeros(10), Zeros(BUFFER - 2 * HEADER), []), BARE_ERROR];
            && (forall i :: 0 <= i < |ms| ==> ValidMessage(ms[i]))
            && |EncodeAll(ms)| == BUFFER && !ErrorsInside(EncodeAll(ms), BUFFER)
  {
    var ms := [Message(0, Zeros(10), Zeros(BUFFER - 2 * HEADER), []), BARE_ERROR];
    assert ValidMessage(ms[0]) && ValidMessage(ms[1]);
    assert ms[1..] == [BARE_ERROR];
    assert |Encode(ms[0])| == BUFFER - HEADER;
    assert EncodeAll([BARE_ERROR]) == Encode(BARE_ERROR);
    ErrorsInsideIff(ms);
  }
}
