/**
 The bounded parser of the TC example program: an Ethernet header, at most three IEEE 802.1Q or
 802.1ad tags, and an IPv4 header (section 3.1 of RFC 791).
 */
module PacketParser {
  import opened Basics

  const ETH_HEADER := 14
  const IP_HEADER := 20
  const MAX_TAGS := 3

  const ETH_P_IP := 0x0800
  const ETH_P_8021Q := 0x8100
  const ETH_P_8021AD := 0x88A8

  predicate IsVlan(proto: int) {
    proto == ETH_P_8021Q || proto == ETH_P_8021AD
  }

  /** A 16-bit field in network byte order. */
  function Be16(b: seq<Byte>, at: nat): nat
    requires at + 2 <= |b|
  {
    0x100 * b[at] as int + b[at + 1] as int
  }

  function Version(b: seq<Byte>, at: nat): nat
    requires at < |b|
  {
    b[at] as int / 16
  }

  function HeaderWords(b: seq<Byte>, at: nat): nat
    requires at < |b|
  {
    b[at] as int % 16
  }

  // ---------------------------------------------------------------- the parser

  /** Skipping tags: `proto` is the type field just before `at`. */
  function SkipTags(b: seq<Byte>, at: nat, proto: nat, budget: nat): Option<(nat, nat)>
    requires at <= |b|
    decreases budget
  {
    if !IsVlan(proto) then Some((at, proto))
    else if budget == 0 || at + 4 > |b| then None
    else SkipTags(b, at + 4, Be16(b, at + 2), budget - 1)
  }

  /** `parse_iphdr` at offset `at`. */
  predicate IpHeaderAt(b: seq<Byte>, at: nat) {
    && at + IP_HEADER <= |b|
    && Version(b, at) == 4
    && HeaderWords(b, at) >= 5
    && at + 4 * HeaderWords(b, at) <= |b|
  }

  /** What the program reports of a packet. */
  datatype Report = Report(srcMac: seq<Byte>, dstMac: seq<Byte>, ethType: nat,
                           srcIp: seq<Byte>, dstIp: seq<Byte>, ipProto: Byte)

  datatype Parsed = Parsed(ipOffset: nat, report: Report)

  function ReportAt(b: seq<Byte>, at: nat): Report
    requires ETH_HEADER <= |b| && at + IP_HEADER <= |b|
  {
    Report(b[6..12], b[0..6], ETH_P_IP, b[at + 12..at + 16], b[at + 16..at + 20], b[at + 9])
  }

  function Parse(b: seq<Byte>): Option<Parsed> {
    if |b| < ETH_HEADER then None
    else
      match SkipTags(b, ETH_HEADER, Be16(b, 12), MAX_TAGS)
      case None => None
      case Some((at, proto)) =>
        if proto == ETH_P_IP && IpHeaderAt(b, at) then Some(Parsed(at, ReportAt(b, at))) else None
  }

  /** `parse_ether_type_and_next`: three bounded rounds, then a fourth tag is refused. */
  method ParseEtherTypeAndNext(b: seq<Byte>) returns (next: Option<(nat, nat)>)
    requires ETH_HEADER <= |b|
    ensures next == SkipTags(b, ETH_HEADER, Be16(b, 12), MAX_TAGS)
    ensures next.Some? ==> next.value.0 <= |b| && !IsVlan(next.value.1)
  {
    var proto, at: nat := Be16(b, 12), ETH_HEADER;
    var i := 0;
    while i < MAX_TAGS && IsVlan(proto)
      invariant 0 <= i <= MAX_TAGS && at <= |b|
      invariant SkipTags(b, at, proto, MAX_TAGS - i) == SkipTags(b, ETH_HEADER, Be16(b, 12), MAX_TAGS)
    {
      if at + 4 > |b| {
        return None;
      }
      proto := Be16(b, at + 2);
      at := at + 4;
      i := i + 1;
    }
    if IsVlan(proto) {
      return None;
    }
    return Some((at, proto));
  }

  /** The parsing part of `tc_mirroring`; a report goes out if monitoring is on and a slot is free. */
  method TcMirroring(b: seq<Byte>, monitored: bool, reserved: bool) returns (emitted: Option<Report>)
    ensures emitted.Some? <==> Parse(b).Some? && monitored && reserved
    ensures emitted.Some? ==> emitted.value == Parse(b).value.report
  {
    emitted := None;
    if |b| < ETH_HEADER {
      return;
    }
    var next := ParseEtherTypeAndNext(b);
    if next.None? || next.value.1 != ETH_P_IP {
      return;
    }
    var at := next.value.0;
    if at + IP_HEADER > |b| || Version(b, at) != 4 || HeaderWords(b, at) < 5 || at + 4 * HeaderWords(b, at) > |b| {
      return;
    }
    if monitored && reserved {
      emitted := Some(Report(b[6..12], b[0..6], next.value.1, b[at + 12..at + 16], b[at + 16..at + 20], b[at + 9]));
    }
  }

  // ---------------------------------------------------------------- header stacks

  datatype Tag = Tag(tpid: nat, tci: seq<Byte>)

  /** An Ethernet frame up to and including its IPv4 header. */
  datatype Stack = Stack(dst: seq<Byte>, src: seq<Byte>, tags: seq<Tag>, ip: seq<Byte>)

  predicate ValidTags(tags: seq<Tag>) {
    forall i :: 0 <= i < |tags| ==> IsVlan(tags[i].tpid) && |tags[i].tci| == 2
  }

  predicate ValidIp(ip: seq<Byte>) {
    IP_HEADER <= |ip| && Version(ip, 0) == 4 && |ip| == 4 * HeaderWords(ip, 0)
  }

  predicate ValidStack(s: Stack) {
    |s.dst| == 6 && |s.src| == 6 && |s.tags| <= MAX_TAGS && ValidTags(s.tags) && ValidIp(s.ip)
  }

  function WriteBe16(n: nat): (b: seq<Byte>)
    requires n < 0x1_0000
    ensures |b| == 2 && Be16(b, 0) == n
  {
    [n / 0x100, n % 0x100]
  }

  /** The type field, preceded by the tags: each tag's TPID takes the place of the type field before it. */
  function EncodeTags(tags: seq<Tag>, proto: nat): (b: seq<Byte>)
    requires ValidTags(tags) && proto < 0x1_0000
    ensures |b| == 2 + 4 * |tags|
  {
    if tags == [] then WriteBe16(proto)
    else WriteBe16(tags[0].tpid) + tags[0].tci + EncodeTags(tags[1..], proto)
  }

  function Encode(s: Stack): seq<Byte>
    requires ValidStack(s)
  {
    s.dst + s.src + EncodeTags(s.tags, ETH_P_IP) + s.ip
  }

  function ReportOf(s: Stack): Report
    requires ValidStack(s)
  {
    Report(s.src, s.dst, ETH_P_IP, s.ip[12..16], s.ip[16..20], s.ip[9])
  }

  // ---------------------------------------------------------------- exactness

  lemma {:induction false} SkipEncodedTags(front: seq<Byte>, tags: seq<Tag>, proto: nat, back: seq<Byte>, budget: nat)
    requires ValidTags(tags) && proto < 0x1_0000 && !IsVlan(proto) && |tags| <= budget
    ensures var b := front + EncodeTags(tags, proto) + back;
            SkipTags(b, |front| + 2, Be16(b, |front|), budget) == Some((|front| + 2 + 4 * |tags|, proto))
    decreases |tags|
  {
    var b := front + EncodeTags(tags, proto) + back;
    if tags == [] {
      assert b[|front|] == WriteBe16(proto)[0] && b[|front| + 1] == WriteBe16(proto)[1];
    } else {
      var tpid := WriteBe16(tags[0].tpid);
      assert b[|front|] == tpid[0] && b[|front| + 1] == tpid[1];
      var front' := front + tpid + tags[0].tci;
      assert b == front' + EncodeTags(tags[1..], proto) + back;
      SkipEncodedTags(front', tags[1..], proto, back, budget - 1);
    }
  }

  /** Encoding any header stack and parsing it gives back the offset of the IPv4 header and the reported fields. */
  lemma EncodeParseRoundTrip(s: Stack, payload: seq<Byte>)
    requires ValidStack(s)
    ensures Parse(Encode(s) + payload) == Some(Parsed(ETH_HEADER + 4 * |s.tags|, ReportOf(s)))
  {
    var b := Encode(s) + payload;
    var front, back := s.dst + s.src, s.ip + payload;
    assert b == front + EncodeTags(s.tags, ETH_P_IP) + back;
    SkipEncodedTags(front, s.tags, ETH_P_IP, back, MAX_TAGS);
    var at := ETH_HEADER + 4 * |s.tags|;
    assert b[at..] == back;
    IpFieldsAt(b, at, s.ip, payload);
    assert b[6..12] == s.src && b[0..6] == s.dst;
  }

  /** The fields of a header are where it lies. */
  lemma IpFieldsAt(b: seq<Byte>, at: nat, ip: seq<Byte>, payload: seq<Byte>)
    requires at <= |b| && b[at..] == ip + payload && IP_HEADER <= |ip|
    ensures b[at] == ip[0] && b[at + 9] == ip[9]
    ensures b[at + 12..at + 16] == ip[12..16] && b[at + 16..at + 20] == ip[16..20]
  {
    assert forall j :: 0 <= j < |ip| ==> b[at + j] == (ip + payload)[j] == ip[j];
  }

  lemma {:induction false} SkippedTagsAreEncoded(b: seq<Byte>, at: nat, budget: nat) returns (tags: seq<Tag>)
    requires 2 <= at <= |b| && SkipTags(b, at, Be16(b, at - 2), budget).Some?
    ensures var (end, proto) := SkipTags(b, at, Be16(b, at - 2), budget).value;
            && at <= end <= |b| && proto < 0x1_0000
            && ValidTags(tags) && |tags| <= budget
            && b[at - 2..end] == EncodeTags(tags, proto)
    decreases budget
  {
    var proto := Be16(b, at - 2);
    if !IsVlan(proto) {
      tags := [];
      assert b[at - 2..at] == WriteBe16(proto);
    } else {
      var more := SkippedTagsAreEncoded(b, at + 4, budget - 1);
      tags := [Tag(proto, b[at..at + 2])] + more;
      var (end, last) := SkipTags(b, at, proto, budget).value;
      assert tags[1..] == more;
      assert b[at - 2..at] == WriteBe16(proto);
      assert b[at - 2..end] == b[at - 2..at] + b[at..at + 2] + b[at + 2..end];
    }
  }

  /** Whatever the parser accepts is such a header stack. */
  lemma AcceptedIsStack(b: seq<Byte>) returns (s: Stack, payload: seq<Byte>)
    requires Parse(b).Some?
    ensures ValidStack(s) && b == Encode(s) + payload
  {
    var tags := SkippedTagsAreEncoded(b, ETH_HEADER, MAX_TAGS);
    var at := Parse(b).value.ipOffset;
    var end := at + 4 * HeaderWords(b, at);
    s := Stack(b[0..6], b[6..12], tags, b[at..end]);
    payload := b[end..];
    assert b[12..at] == EncodeTags(tags, ETH_P_IP);
    assert b == b[0..6] + b[6..12] + b[12..at] + b[at..end] + b[end..];
  }

  /** The parser accepts exactly the byte strings that start with a header stack. */
  lemma ParseAcceptsExactlyStacks(b: seq<Byte>)
    ensures Parse(b).Some? <==> exists s, payload :: ValidStack(s) && b == Encode(s) + payload
  {
    if Parse(b).Some? {
      var s, payload := AcceptedIsStack(b);
    }
    forall s, payload | ValidStack(s) && b == Encode(s) + payload
      ensures Parse(b).Some?
    {
      EncodeParseRoundTrip(s, payload);
    }
  }

  /**
   The accepted bytes written out. The parser finds the IPv4 header behind exactly k tags if and only if
   k is at most three, the k type fields from byte 12 on are 0x8100 or 0x88A8, the next one is 0x0800,
   and there follow twenty bytes whose first says version 4 and a header of at least five words that
   lies in the packet. What it then reports are these bytes.
   */
  lemma AcceptedBytes(b: seq<Byte>, k: nat)
    ensures var at := 14 + 4 * k;
            && (Parse(b).Some? && Parse(b).value.ipOffset == at
                <==> && k <= 3 && at + 20 <= |b|
                     && (forall i :: 0 <= i < k ==> TypeField(b, i) == 0x8100 || TypeField(b, i) == 0x88A8)
                     && TypeField(b, k) == 0x0800
                     && b[at] as int / 16 == 4 && b[at] as int % 16 >= 5 && at + 4 * (b[at] as int % 16) <= |b|)
            && (Parse(b).Some? && Parse(b).value.ipOffset == at ==>
                  && at + 20 <= |b|
                  && Parse(b).value.report.srcMac == b[6..12] && Parse(b).value.report.dstMac == b[0..6]
                  && Parse(b).value.report.ethType == 0x0800
                  && Parse(b).value.report.srcIp == b[at + 12..at + 16]
                  && Parse(b).value.report.dstIp == b[at + 16..at + 20]
                  && Parse(b).value.report.ipProto == b[at + 9])
    ensures Parse(b).Some? ==> exists n: nat :: n <= 3 && Parse(b).value.ipOffset == 14 + 4 * n
  {
    if |b| >= 14 {
      TagsSkipped(b, 14, 3, 0);
      if Parse(b).Some? {
        var n: nat := (Parse(b).value.ipOffset - 14) / 4;
        assert Parse(b).value.ipOffset == 14 + 4 * n;
      }
    }
  }

  /** The i-th type field of a frame, where each tag takes four bytes. */
  function TypeField(b: seq<Byte>, i: nat): nat
    requires 14 + 4 * i <= |b|
  {
    0x100 * b[12 + 4 * i] as int + b[13 + 4 * i] as int
  }

  /** Skipping tags from the i-th type field on stops at the first one that is no tag. */
  lemma {:induction false} TagsSkipped(b: seq<Byte>, at: nat, budget: nat, i: nat)
    requires at == 14 + 4 * i <= |b|
    ensures var r := SkipTags(b, at, TypeField(b, i), budget);
            && (r.Some? ==> exists k: nat :: StopsAt(b, i, budget, k, r.value))
            && (forall k: nat, end: (nat, nat) :: StopsAt(b, i, budget, k, end) ==> r == Some(end))
    decreases budget
  {
    var proto := TypeField(b, i);
    if proto != 0x8100 && proto != 0x88A8 {
      assert StopsAt(b, i, budget, i, (at, proto));
    } else if budget > 0 && at + 4 <= |b| {
      var next, left := i + 1, budget - 1;
      TagsSkipped(b, at + 4, left, next);
      forall k: nat, end: (nat, nat)
        ensures StopsAt(b, next, left, k, end) <==> StopsAt(b, i, budget, k, end)
      {
        TagSkipped(b, i, budget, k, end);
      }
      assert SkipTags(b, at, proto, budget) == SkipTags(b, at + 4, TypeField(b, next), left);
    }
  }

  lemma TagSkipped(b: seq<Byte>, i: nat, budget: nat, k: nat, end: (nat, nat))
    requires 14 + 4 * i <= |b| && budget > 0 && (TypeField(b, i) == 0x8100 || TypeField(b, i) == 0x88A8)
    ensures StopsAt(b, i + 1, budget - 1, k, end) <==> StopsAt(b, i, budget, k, end)
  {
  }

  /** From field `i` on, fields up to `k` are tags, `k` is none, and at most `budget` were skipped. */
  ghost predicate StopsAt(b: seq<Byte>, i: nat, budget: nat, k: nat, end: (nat, nat)) {
    && i <= k <= i + budget && 14 + 4 * k <= |b|
    && (forall j :: i <= j < k ==> TypeField(b, j) == 0x8100 || TypeField(b, j) == 0x88A8)
    && TypeField(b, k) != 0x8100 && TypeField(b, k) != 0x88A8
    && end == (14 + 4 * k, TypeField(b, k))
  }
}
