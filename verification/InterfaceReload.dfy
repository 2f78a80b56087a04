/**
 Rebuilding the interface snapshot from the `getifaddrs` list, which holds one entry per interface
 and address family, in no promised order.
 */
module InterfaceReload {
  import opened Basics

  datatype Family = Inet | Packet | OtherFamily

  /**
   One list entry. `family` is None when the entry has no address. The texts are the conversions of
   its address, netmask and broadcast address, empty when a conversion fails.
   */
  datatype Entry = Entry(name: string, family: Option<Family>, loopback: bool, broadcast: bool,
                         ipText: string, netmaskText: string, broadcastText: string)

  /** What the kernel answers for a name during this reload; ifindex 0 and an empty MAC are failures. */
  datatype Link = Link(ifindex: nat, mac: string)

  type Links = map<string, Link>

  datatype Triple = Triple(ip: string, netmask: string, broadcast: string)

  datatype Info = Info(name: string, ifindex: nat, mac: string, addresses: Triple)

  const NO_ADDRESS := "N/A"
  const NO_TRIPLE := Triple(NO_ADDRESS, NO_ADDRESS, NO_ADDRESS)

  predicate Eligible(e: Entry) {
    e.family.Some? && !e.loopback && (e.family.value.Inet? || e.family.value.Packet?)
  }

  predicate Resolves(links: Links, name: string) {
    name in links && links[name].ifindex != 0 && links[name].mac != ""
  }

  /** The IPv4 triple of an entry, if all of it converts; without a broadcast flag its third part is N/A. */
  function TripleOf(e: Entry): Option<Triple> {
    var broadcast := if e.broadcast then e.broadcastText else NO_ADDRESS;
    if e.ipText == "" || e.netmaskText == "" || broadcast == "" then None
    else Some(Triple(e.ipText, e.netmaskText, broadcast))
  }

  predicate IsInetOf(e: Entry, name: string) {
    Eligible(e) && e.family.value.Inet? && e.name == name
  }

  // ---------------------------------------------------------------- the snapshot, declaratively

  function Names(entries: seq<Entry>): set<string> {
    set e | e in entries && Eligible(e) :: e.name
  }

  /** The AF_INET entries of one interface, in list order. */
  function InetOf(entries: seq<Entry>, name: string): seq<Entry> {
    if entries == [] then []
    else
      var last := entries[|entries| - 1];
      InetOf(entries[..|entries| - 1], name) + if IsInetOf(last, name) then [last] else []
  }

  /** The first fully convertible triple. */
  function FirstTriple(entries: seq<Entry>): Option<Triple> {
    if entries == [] then None
    else
      var before := FirstTriple(entries[..|entries| - 1]);
      if before.Some? then before else TripleOf(entries[|entries| - 1])
  }

  function AddressesOf(entries: seq<Entry>, name: string): Triple {
    var first := FirstTriple(InetOf(entries, name));
    if first.Some? then first.value else NO_TRIPLE
  }

  /** Exactly the eligible names that resolve, each with its first convertible triple or N/A. */
  function SnapshotOf(entries: seq<Entry>, links: Links): map<string, Info> {
    map name | name in Names(entries) && Resolves(links, name) ::
      Info(name, links[name].ifindex, links[name].mac, AddressesOf(entries, name))
  }

  function WithIpv4(snapshot: map<string, Info>): set<string> {
    set name | name in snapshot && snapshot[name].addresses.ip != NO_ADDRESS
  }

  // ---------------------------------------------------------------- one more entry

  lemma NamesGrow(entries: seq<Entry>, e: Entry)
    ensures Names(entries + [e]) == Names(entries) + if Eligible(e) then {e.name} else {}
  {
    var more := entries + [e];
    assert forall x :: x in more <==> x in entries || x == e;
  }

  lemma AddressesGrow(entries: seq<Entry>, e: Entry, name: string)
    ensures AddressesOf(entries + [e], name)
         == if IsInetOf(e, name) && FirstTriple(InetOf(entries, name)).None? && TripleOf(e).Some?
            then TripleOf(e).value else AddressesOf(entries, name)
  {
    var more := entries + [e];
    assert more[..|more| - 1] == entries;
    if IsInetOf(e, name) {
      var found := InetOf(entries, name) + [e];
      assert found[..|found| - 1] == InetOf(entries, name);
    } else {
      assert InetOf(entries, name) + [] == InetOf(entries, name);
    }
  }

  /** A conversion never yields the N/A text, so N/A marks exactly the interfaces without an address. */
  lemma {:induction false} FirstTripleIsReal(entries: seq<Entry>)
    requires forall e :: e in entries ==> e.ipText != NO_ADDRESS
    ensures FirstTriple(entries).Some? ==> FirstTriple(entries).value.ip != NO_ADDRESS
    decreases |entries|
  {
    if entries != [] {
      FirstTripleIsReal(entries[..|entries| - 1]);
      assert entries[|entries| - 1] in entries;
    }
  }

  lemma {:induction false} InetOfIsPart(entries: seq<Entry>, name: string, e: Entry)
    ensures e in InetOf(entries, name) <==> e in entries && IsInetOf(e, name)
    decreases |entries|
  {
    if entries != [] {
      var front := entries[..|entries| - 1];
      InetOfIsPart(front, name, e);
      assert entries == front + [entries[|entries| - 1]];
    }
  }

  /** In the code, an address other than N/A stands for "already has a triple". */
  lemma FilledMeansFirst(entries: seq<Entry>, name: string)
    requires forall e :: e in entries ==> e.ipText != NO_ADDRESS
    ensures AddressesOf(entries, name).ip != NO_ADDRESS <==> FirstTriple(InetOf(entries, name)).Some?
  {
    forall e | e in InetOf(entries, name)
      ensures e in entries
    {
      InetOfIsPart(entries, name, e);
    }
    FirstTripleIsReal(InetOf(entries, name));
  }

  lemma SkippedEntry(entries: seq<Entry>, e: Entry, links: Links)
    requires !Eligible(e) || !Resolves(links, e.name)
    ensures SnapshotOf(entries + [e], links) == SnapshotOf(entries, links)
  {
    NamesGrow(entries, e);
    forall name | name in Names(entries) && Resolves(links, name)
      ensures AddressesOf(entries + [e], name) == AddressesOf(entries, name)
    {
      AddressesGrow(entries, e, name);
    }
  }

  lemma TakenEntry(entries: seq<Entry>, e: Entry, links: Links)
    requires Eligible(e) && Resolves(links, e.name)
    ensures SnapshotOf(entries + [e], links)
         == SnapshotOf(entries, links)[e.name := Info(e.name, links[e.name].ifindex, links[e.name].mac,
                                                      AddressesOf(entries + [e], e.name))]
  {
    NamesGrow(entries, e);
    forall name | name in Names(entries) && name != e.name
      ensures AddressesOf(entries + [e], name) == AddressesOf(entries, name)
    {
      AddressesGrow(entries, e, name);
    }
  }

  /** A name no eligible entry has mentioned has no addresses yet. */
  lemma UnseenHasNoAddresses(entries: seq<Entry>, name: string)
    requires name !in Names(entries)
    ensures InetOf(entries, name) == []
  {
    if InetOf(entries, name) != [] {
      InetOfIsPart(entries, name, InetOf(entries, name)[0]);
      assert false;
    }
  }

  // ---------------------------------------------------------------- the loop

  /** The loop over the list. */
  method FoldEntries(entries: seq<Entry>, links: Links)
    returns (processed: map<string, Info>, withIpv4: nat, skipped: nat)
    requires forall e :: e in entries ==> e.ipText != NO_ADDRESS
    ensures processed == SnapshotOf(entries, links)
    ensures withIpv4 == |WithIpv4(processed)|
    ensures skipped == SkippedIn(entries, links)
  {
    processed, withIpv4, skipped := map[], 0, 0;
    var i := 0;
    assert SnapshotOf(entries[..0], links) == map[];
    while i < |entries|
      invariant 0 <= i <= |entries|
      invariant processed == SnapshotOf(entries[..i], links)
      invariant withIpv4 == |WithIpv4(processed)|
      invariant skipped == SkippedIn(entries[..i], links)
    {
      assert entries[..i + 1] == entries[..i] + [entries[i]];
      assert entries[..i + 1][..i] == entries[..i];
      VisitedIsSnapshot(entries[..i], entries[i], links);
      processed, withIpv4, skipped := VisitEntry(entries[i], links, processed, withIpv4, skipped);
      i := i + 1;
    }
    assert entries[..i] == entries;
  }

  /** `reload_snapshot`, from the list to the new map and the counters of its log line. */
  method ReloadSnapshot(entries: seq<Entry>, links: Links)
    returns (processed: map<string, Info>, withIpv4: nat, skipped: nat)
    requires forall e :: e in entries ==> e.ipText != NO_ADDRESS
    ensures processed == SnapshotOf(entries, links)
    // the interfaces: those with an AF_INET or AF_PACKET entry that is no loopback, if the kernel knows them
    ensures forall name ::
              name in processed <==>
                && name in links && links[name].ifindex != 0 && links[name].mac != ""
                && exists i :: 0 <= i < |entries| && entries[i].name == name && !entries[i].loopback
                               && (entries[i].family == Some(Inet) || entries[i].family == Some(Packet))
    // what the kernel says of them
    ensures forall name :: name in processed ==>
              && processed[name].name == name
              && processed[name].ifindex == links[name].ifindex && processed[name].mac == links[name].mac
    // no addresses, if each of their AF_INET entries lacks a text it needs
    ensures forall name :: name in processed && processed[name].addresses.ip == "N/A" ==>
              && processed[name].addresses == Triple("N/A", "N/A", "N/A")
              && forall i :: 0 <= i < |entries| && entries[i].name == name && !entries[i].loopback
                             && entries[i].family == Some(Inet) ==>
                   || entries[i].ipText == "" || entries[i].netmaskText == ""
                   || (entries[i].broadcast && entries[i].broadcastText == "")
    // otherwise those of the first AF_INET entry that lacks none
    ensures forall name :: name in processed && processed[name].addresses.ip != "N/A" ==>
              exists i :: 0 <= i < |entries| && entries[i].name == name && !entries[i].loopback
                && entries[i].family == Some(Inet)
                && entries[i].ipText != "" && entries[i].netmaskText != ""
                && (entries[i].broadcast ==> entries[i].broadcastText != "")
                && processed[name].addresses.ip == entries[i].ipText
                && processed[name].addresses.netmask == entries[i].netmaskText
                && processed[name].addresses.broadcast
                   == (if entries[i].broadcast then entries[i].broadcastText else "N/A")
                && forall j :: 0 <= j < i && entries[j].name == name && !entries[j].loopback
                               && entries[j].family == Some(Inet) ==>
                     || entries[j].ipText == "" || entries[j].netmaskText == ""
                     || (entries[j].broadcast && entries[j].broadcastText == "")
    // the counters of the log line
    ensures withIpv4 == |set name | name in processed && processed[name].addresses.ip != "N/A"|
    ensures skipped
         == |set i: nat | i < |entries| && !entries[i].loopback
                          && (entries[i].family == Some(Inet) || entries[i].family == Some(Packet))
                          && (entries[i].name in links ==>
                                links[entries[i].name].ifindex == 0 || links[entries[i].name].mac == "")|
  {
    processed, withIpv4, skipped := FoldEntries(entries, links);
    SnapshotNames(entries, links);
    forall name | name in processed
      ensures SaysAddresses(entries, name, processed[name].addresses)
    {
      AddressesSaid(entries, name);
    }
    SkippedSaid(entries, links);
    assert WithIpv4(processed) == set name | name in processed && processed[name].addresses.ip != "N/A";
  }

  lemma SnapshotNames(entries: seq<Entry>, links: Links)
    ensures forall name ::
              name in SnapshotOf(entries, links) <==>
                && name in links && links[name].ifindex != 0 && links[name].mac != ""
                && exists i :: 0 <= i < |entries| && entries[i].name == name && !entries[i].loopback
                               && (entries[i].family == Some(Inet) || entries[i].family == Some(Packet))
  {
    forall name
      ensures name in Names(entries) <==>
                exists i :: 0 <= i < |entries| && entries[i].name == name && !entries[i].loopback
                            && (entries[i].family == Some(Inet) || entries[i].family == Some(Packet))
    {
      if name in Names(entries) {
        var e :| e in entries && Eligible(e) && e.name == name;
        var i :| 0 <= i < |entries| && entries[i] == e;
        assert entries[i].name == name;
      }
      if i :| 0 <= i < |entries| && entries[i].name == name && !entries[i].loopback
              && (entries[i].family == Some(Inet) || entries[i].family == Some(Packet)) {
        assert entries[i] in entries && Eligible(entries[i]);
      }
    }
  }

  /** The entry is an AF_INET entry of the name, and lacks no text that it needs. */
  predicate Gives(e: Entry, name: string) {
    && e.name == name && !e.loopback && e.family == Some(Inet)
    && e.ipText != "" && e.netmaskText != "" && (e.broadcast ==> e.broadcastText != "")
  }

  ghost predicate GivesFirst(entries: seq<Entry>, name: string, i: nat, addresses: Triple) {
    && i < |entries| && Gives(entries[i], name) && (forall j :: 0 <= j < i ==> !Gives(entries[j], name))
    && addresses.ip == entries[i].ipText && addresses.netmask == entries[i].netmaskText
    && addresses.broadcast == if entries[i].broadcast then entries[i].broadcastText else "N/A"
  }

  ghost predicate SaysAddresses(entries: seq<Entry>, name: string, addresses: Triple) {
    if addresses.ip == "N/A"
    then addresses == Triple("N/A", "N/A", "N/A") && forall i :: 0 <= i < |entries| ==> !Gives(entries[i], name)
    else exists i: nat :: GivesFirst(entries, name, i, addresses)
  }

  lemma {:induction false} AddressesSaid(entries: seq<Entry>, name: string)
    requires forall e :: e in entries ==> e.ipText != NO_ADDRESS
    ensures SaysAddresses(entries, name, AddressesOf(entries, name))
    decreases |entries|
  {
    if entries != [] {
      var n := |entries| - 1;
      var front, last := entries[..n], entries[n];
      assert entries == front + [last];
      AddressesSaid(front, name);
      AddressesGrow(front, last, name);
      FilledMeansFirst(front, name);
      var addresses := AddressesOf(entries, name);
      assert Gives(last, name) <==> IsInetOf(last, name) && TripleOf(last).Some?;
      if AddressesOf(front, name).ip != "N/A" {
        var i: nat :| GivesFirst(front, name, i, AddressesOf(front, name));
        assert GivesFirst(entries, name, i, addresses);
      } else if Gives(last, name) {
        assert GivesFirst(entries, name, n, addresses);
      }
    }
  }

  predicate IsSkipped(e: Entry, links: Links) {
    Eligible(e) && !Resolves(links, e.name)
  }

  function SkippedSet(entries: seq<Entry>, links: Links): set<nat> {
    set i: nat | i < |entries| && IsSkipped(entries[i], links)
  }

  lemma {:induction false} SkippedCount(entries: seq<Entry>, links: Links)
    ensures SkippedIn(entries, links) == |SkippedSet(entries, links)|
    decreases |entries|
  {
    if entries != [] {
      var n := |entries| - 1;
      SkippedCount(entries[..n], links);
      assert SkippedSet(entries, links)
          == SkippedSet(entries[..n], links) + if IsSkipped(entries[n], links) then {n} else {};
    }
  }

  lemma SkippedSaid(entries: seq<Entry>, links: Links)
    ensures SkippedIn(entries, links)
         == |set i: nat | i < |entries| && !entries[i].loopback
                          && (entries[i].family == Some(Inet) || entries[i].family == Some(Packet))
                          && (entries[i].name in links ==>
                                links[entries[i].name].ifindex == 0 || links[entries[i].name].mac == "")|
  {
    SkippedCount(entries, links);
    assert SkippedSet(entries, links)
        == set i: nat | i < |entries| && !entries[i].loopback
                        && (entries[i].family == Some(Inet) || entries[i].family == Some(Packet))
                        && (entries[i].name in links ==>
                              links[entries[i].name].ifindex == 0 || links[entries[i].name].mac == "");
  }

  function SkippedIn(entries: seq<Entry>, links: Links): nat {
    if entries == [] then 0
    else
      var last := entries[|entries| - 1];
      SkippedIn(entries[..|entries| - 1], links) + if Eligible(last) && !Resolves(links, last.name) then 1 else 0
  }

  /** What one entry makes of the map built so far. */
  function Visited(processed: map<string, Info>, e: Entry, links: Links): map<string, Info> {
    if !Eligible(e) || (e.name !in processed && !Resolves(links, e.name)) then processed
    else
      var known := if e.name in processed then processed[e.name]
                   else Info(e.name, links[e.name].ifindex, links[e.name].mac, NO_TRIPLE);
      processed[e.name := if e.family.value.Inet? && known.addresses.ip == NO_ADDRESS && TripleOf(e).Some?
                          then known.(addresses := TripleOf(e).value) else known]
  }

  lemma VisitedIsSnapshot(before: seq<Entry>, e: Entry, links: Links)
    requires forall x :: x in before ==> x.ipText != NO_ADDRESS
    ensures Visited(SnapshotOf(before, links), e, links) == SnapshotOf(before + [e], links)
  {
    if !Eligible(e) || !Resolves(links, e.name) {
      SkippedEntry(before, e, links);
    } else {
      TakenEntry(before, e, links);
      AddressesGrow(before, e, e.name);
      FilledMeansFirst(before, e.name);
      if e.name !in Names(before) {
        UnseenHasNoAddresses(before, e.name);
      }
    }
  }

  /** The loop body. */
  method VisitEntry(e: Entry, links: Links, processed: map<string, Info>, withIpv4: nat, skipped: nat)
    returns (processed': map<string, Info>, withIpv4': nat, skipped': nat)
    requires e.ipText != NO_ADDRESS && withIpv4 == |WithIpv4(processed)|
    requires forall name :: name in processed ==> Resolves(links, name)
    ensures processed' == Visited(processed, e, links) && withIpv4' == |WithIpv4(processed')|
    ensures skipped' == skipped + if Eligible(e) && !Resolves(links, e.name) then 1 else 0
  {
    processed', withIpv4', skipped' := processed, withIpv4, skipped;
    if !Eligible(e) {
      return;
    }
    if e.name !in processed {
      if !Resolves(links, e.name) {
        skipped' := skipped + 1;
        return;
      }
      processed' := processed[e.name := Info(e.name, links[e.name].ifindex, links[e.name].mac, NO_TRIPLE)];
      RegisteredUncounted(processed, e.name, processed'[e.name]);
    }
    if !e.family.value.Inet? || processed'[e.name].addresses.ip != NO_ADDRESS || TripleOf(e).None? {
      assert processed' == Visited(processed, e, links);
      return;
    }
    FilledCounted(processed', e.name, TripleOf(e).value);
    processed' := processed'[e.name := processed'[e.name].(addresses := TripleOf(e).value)];
    withIpv4' := withIpv4 + 1;
  }

  lemma RegisteredUncounted(processed: map<string, Info>, name: string, info: Info)
    requires name !in processed && info.addresses == NO_TRIPLE
    ensures WithIpv4(processed[name := info]) == WithIpv4(processed)
  {
  }

  lemma FilledCounted(processed: map<string, Info>, name: string, addresses: Triple)
    requires name in processed && processed[name].addresses.ip == NO_ADDRESS && addresses.ip != NO_ADDRESS
    ensures |WithIpv4(processed[name := processed[name].(addresses := addresses)])| == |WithIpv4(processed)| + 1
  {
    assert WithIpv4(processed[name := processed[name].(addresses := addresses)]) == WithIpv4(processed) + {name};
  }

  // ---------------------------------------------------------------- order

  /** Interleaving the families differently changes nothing, as long as each name keeps its AF_INET order. */
  lemma FamilyOrderIrrelevant(a: seq<Entry>, b: seq<Entry>, links: Links)
    requires forall name :: Resolves(links, name) ==> (name in Names(a) <==> name in Names(b))
    requires forall name :: Resolves(links, name) ==> InetOf(a, name) == InetOf(b, name)
    ensures SnapshotOf(a, links) == SnapshotOf(b, links)
  {
    forall name | Resolves(links, name)
      ensures name in Names(a) <==> name in Names(b)
      ensures AddressesOf(a, name) == AddressesOf(b, name)
    {
    }
  }

  /** All convertible triples of IPv4 addresses that a resolving interface has are the same one. */
  ghost predicate OneTripleEach(entries: seq<Entry>, links: Links) {
    forall x, y, name :: (x in entries && y in entries && Resolves(links, name)
                          && IsInetOf(x, name) && IsInetOf(y, name) && TripleOf(x).Some? && TripleOf(y).Some?) ==>
                           TripleOf(x) == TripleOf(y)
  }

  lemma {:induction false} FirstTripleIsOne(entries: seq<Entry>) returns (e: Option<Entry>)
    ensures FirstTriple(entries).Some? ==> e.Some? && e.value in entries && TripleOf(e.value) == FirstTriple(entries)
    ensures FirstTriple(entries).None? ==> forall x :: x in entries ==> TripleOf(x).None?
    decreases |entries|
  {
    e := None;
    if entries != [] {
      var front, last := entries[..|entries| - 1], entries[|entries| - 1];
      assert entries == front + [last];
      e := FirstTripleIsOne(front);
      if FirstTriple(front).None? {
        e := Some(last);
      }
    }
  }

  lemma OneTripleFixesAddresses(a: seq<Entry>, b: seq<Entry>, links: Links, name: string)
    requires OneTripleEach(a, links) && Resolves(links, name)
    requires forall e :: e in a <==> e in b
    ensures AddressesOf(a, name) == AddressesOf(b, name)
  {
    var x := FirstTripleIsOne(InetOf(a, name));
    var y := FirstTripleIsOne(InetOf(b, name));
    forall e
      ensures e in InetOf(a, name) <==> e in a && IsInetOf(e, name)
      ensures e in InetOf(b, name) <==> e in b && IsInetOf(e, name)
    {
      InetOfIsPart(a, name, e);
      InetOfIsPart(b, name, e);
    }
  }

  lemma {:induction false} FirstEntryWins(e: Entry, rest: seq<Entry>, name: string)
    requires IsInetOf(e, name) && TripleOf(e).Some?
    ensures InetOf([e] + rest, name) != [] && FirstTriple(InetOf([e] + rest, name)) == TripleOf(e)
    decreases |rest|
  {
    var all := [e] + rest;
    if rest == [] {
      assert all == [e];
      assert InetOf(all[..0], name) == [];
      assert InetOf(all, name) == [e];
    } else {
      var front := rest[..|rest| - 1];
      assert all[..|all| - 1] == [e] + front;
      FirstEntryWins(e, front, name);
      var known := InetOf([e] + front, name);
      var last := rest[|rest| - 1];
      if IsInetOf(last, name) {
        assert (known + [last])[..|known|] == known;
      } else {
        assert known + [] == known;
      }
    }
  }

  /** Moving an entry to the front makes its triple the interface's. */
  lemma MovedToFront(entries: seq<Entry>, links: Links, e: Entry) returns (moved: seq<Entry>)
    requires e in entries && Resolves(links, e.name) && IsInetOf(e, e.name) && TripleOf(e).Some?
    ensures multiset(moved) == multiset(entries)
    ensures e.name in SnapshotOf(moved, links) && SnapshotOf(moved, links)[e.name].addresses == TripleOf(e).value
  {
    var k :| 0 <= k < |entries| && entries[k] == e;
    var rest := entries[..k] + entries[k + 1..];
    moved := [e] + rest;
    assert entries == entries[..k] + [e] + entries[k + 1..];
    FirstEntryWins(e, rest, e.name);
    assert e in moved;
  }

  /**
   The order of the list is irrelevant exactly for the machines on which no resolving interface has
   two different IPv4 addresses. Otherwise whichever is listed first is the one that is kept.
   */
  lemma OrderIrrelevantIff(entries: seq<Entry>, links: Links)
    ensures (forall other: seq<Entry> :: multiset(other) == multiset(entries) ==>
                                           SnapshotOf(other, links) == SnapshotOf(entries, links))
       <==> OneTripleEach(entries, links)
  {
    if OneTripleEach(entries, links) {
      forall other: seq<Entry> | multiset(other) == multiset(entries)
        ensures SnapshotOf(other, links) == SnapshotOf(entries, links)
      {
        SameEntries(entries, other);
        SameEntriesSameSnapshot(entries, other, links);
      }
    } else {
      var x, y, name :| x in entries && y in entries && Resolves(links, name) && IsInetOf(x, name) && IsInetOf(y, name)
                        && TripleOf(x).Some? && TripleOf(y).Some? && TripleOf(x) != TripleOf(y);
      var a := MovedToFront(entries, links, x);
      var b := MovedToFront(entries, links, y);
      assert SnapshotOf(a, links) != SnapshotOf(b, links);
    }
  }

  lemma SameEntries(a: seq<Entry>, b: seq<Entry>)
    requires multiset(a) == multiset(b)
    ensures forall e :: e in a <==> e in b
  {
    forall e: Entry
      ensures e in a <==> e in b
    {
      assert e in a <==> e in multiset(a);
      assert e in b <==> e in multiset(b);
    }
  }

  lemma SameEntriesSameSnapshot(a: seq<Entry>, b: seq<Entry>, links: Links)
    requires OneTripleEach(a, links)
    requires forall e :: e in a <==> e in b
    ensures SnapshotOf(b, links) == SnapshotOf(a, links)
  {
    assert Names(a) == Names(b);
    forall name | Resolves(links, name)
      ensures AddressesOf(a, name) == AddressesOf(b, name)
    {
      OneTripleFixesAddresses(a, b, links, name);
    }
  }

  /** A machine with two addresses on one interface, where swapping their entries changes the snapshot. */
  lemma SwappedAddressesDiffer() returns (entries: seq<Entry>, swapped: seq<Entry>, links: Links)
    ensures multiset(swapped) == multiset(entries)
    ensures SnapshotOf(swapped, links) != SnapshotOf(entries, links)
  {
    var x := Entry("eth0", Some(Inet), false, false, "10.0.0.1", "255.0.0.0", "");
    var y := x.(ipText := "10.0.0.20");
    links := map["eth0" := Link(2, "02:00:00:00:00:01")];
    entries, swapped := [x, y], [y, x];
    AddressesOfFirst(x, y, links);
    AddressesOfFirst(y, x, links);
    assert |x.ipText| != |y.ipText|;
  }

  lemma AddressesOfFirst(e: Entry, other: Entry, links: Links)
    requires IsInetOf(e, e.name) && TripleOf(e).Some? && Resolves(links, e.name)
    ensures e.name in SnapshotOf([e, other], links)
    ensures SnapshotOf([e, other], links)[e.name].addresses.ip == e.ipText
  {
    FirstEntryWins(e, [other], e.name);
    assert [e] + [other] == [e, other];
    assert e in [e, other];
  }
}
