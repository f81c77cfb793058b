/** Building the groups of a whole stream of records, and what the stream's order and repetitions may change. */
module Streams {
  import opened Ordering
  import opened Wrappers
  import opened GroupDefinition
  import opened Zone
  import opened References
  import opened AddressLists
  import opened Collecting

  /** Whether a record is taken without an error: all texts of a group definition must parse. */
  predicate Accepted(domain: Text, rr: RR) {
    rr.TXT? && rr.name == domain ==> forall t :: t in rr.txt ==> ParseGroupDefinition(t).Ok?
  }

  ghost predicate IsAddress(rr: RR) { rr.A? || rr.AAAA? }

  /** The addresses that a stream gives a target, in the order of the stream. */
  ghost function Given(records: seq<RR>, target: Text, v6: bool): seq<Addr> {
    if records == [] then []
    else
      var last := |records| - 1;
      var rr := records[last];
      Given(records[..last], target, v6) +
      if IsAddress(rr) && rr.name == target && rr.AAAA? == v6 then [rr.addr] else []
  }

  ghost function AddressRecord(target: Text, v6: bool, addr: Addr): RR {
    if v6 then AAAA(target, addr) else A(target, addr)
  }

  lemma {:induction false} TextsAccepted(groups: map<Text, seq<Text>>, texts: seq<Text>)
    ensures AddTexts(groups, texts).1.None? <==> forall t :: t in texts ==> ParseGroupDefinition(t).Ok?
    decreases texts
  {
    if texts != [] {
      assert texts[0] in texts;
      match ParseGroupDefinition(texts[0])
      case Err(_) =>
      case Ok(def) =>
        TextsAccepted(AddDefinition(groups, def), texts[1..]);
        assert forall t :: t in texts <==> t == texts[0] || t in texts[1..];
    }
  }

  /** A stream is accepted whatever its order, if each of its records is. */
  lemma {:induction false} StreamAccepted(c: Collected, domain: Text, records: seq<RR>)
    ensures AddRecords(c, domain, records).1.None? <==> forall r :: r in records ==> Accepted(domain, r)
    decreases records
  {
    if records != [] {
      assert records[0] in records;
      if records[0].TXT? {
        TextsAccepted(c.groups, records[0].txt);
      }
      var next := AddRecord(c, domain, records[0]);
      if next.1.None? {
        StreamAccepted(next.0, domain, records[1..]);
        assert forall r :: r in records <==> r == records[0] || r in records[1..];
      }
    }
  }

  lemma {:induction false} FromLast(c: Collected, domain: Text, records: seq<RR>)
    requires records != [] && AddRecords(c, domain, records).1.None?
    ensures var last := |records| - 1;
      && AddRecords(c, domain, records[..last]).1.None?
      && AddRecords(c, domain, records).0 ==
         AddRecord(AddRecords(c, domain, records[..last]).0, domain, records[last]).0
    decreases records
  {
    if |records| > 1 {
      var next := AddRecord(c, domain, records[0]).0;
      FromLast(next, domain, records[1..]);
      var last := |records| - 1;
      assert records[1..][..last - 1] == records[..last][1..];
    } else {
      assert AddRecords(c, domain, records) == AddRecords(AddRecord(c, domain, records[0]).0, domain, []);
    }
  }

  lemma {:induction false} ListsAreGiven(domain: Text, records: seq<RR>, target: Text)
    requires AddRecords(NOTHING, domain, records).1.None?
    ensures ListsAt(AddRecords(NOTHING, domain, records).0.endpoints, target) ==
            Lists(Given(records, target, false), Given(records, target, true))
  {
    if records != [] {
      FromLast(NOTHING, domain, records);
      ListsAreGiven(domain, records[..|records| - 1], target);
    }
  }

  lemma {:induction false} GivenRecords(records: seq<RR>, target: Text, v6: bool, addr: Addr)
    ensures addr in Given(records, target, v6) <==> AddressRecord(target, v6, addr) in records
  {
    if records != [] {
      var last := |records| - 1;
      GivenRecords(records[..last], target, v6, addr);
      assert records == records[..last] + [records[last]];
    }
  }

  /** Some address record of the given kind occurs at two places. */
  ghost predicate Twice(records: seq<RR>, target: Text, v6: bool) {
    exists i, j :: 0 <= i < j < |records| && records[i] == records[j]
                   && IsAddress(records[i]) && records[i].name == target && records[i].AAAA? == v6
  }

  lemma {:induction false} GivenTwice(records: seq<RR>, target: Text, v6: bool)
    ensures NoDup(Given(records, target, v6)) <==> !Twice(records, target, v6)
  {
    if records != [] {
      var last := |records| - 1;
      var rr, before := records[last], records[..last];
      var given, all := Given(before, target, v6), Given(records, target, v6);
      GivenTwice(before, target, v6);
      TwiceByLast(records, target, v6);
      if IsAddress(rr) && rr.name == target && rr.AAAA? == v6 {
        GivenRecords(before, target, v6, rr.addr);
        assert rr == AddressRecord(target, v6, rr.addr) && all == given + [rr.addr];
        NoDupByLast(given, rr.addr);
      } else {
        assert all == given;
      }
    }
  }

  lemma TwiceByLast(records: seq<RR>, target: Text, v6: bool)
    requires records != []
    ensures var last := |records| - 1;
      var rr, before := records[last], records[..last];
      Twice(records, target, v6) <==>
        Twice(before, target, v6) || (rr in before && IsAddress(rr) && rr.name == target && rr.AAAA? == v6)
  {
    var last := |records| - 1;
    var before := records[..last];
    assert forall i :: 0 <= i < last ==> before[i] == records[i];
    if Twice(before, target, v6) {
      var i, j :| 0 <= i < j < last && before[i] == before[j]
                  && IsAddress(before[i]) && before[i].name == target && before[i].AAAA? == v6;
      assert records[i] == records[j];
    }
    if records[last] in before {
      var i :| 0 <= i < last && before[i] == records[last];
      assert records[i] == records[last];
    }
  }

  // ---- the streams for which the addresses come out right

  /** No address record of the target occurs twice. */
  ghost predicate NoRepeatsOf(records: seq<RR>, target: Text) {
    !Twice(records, target, false) && !Twice(records, target, true)
  }

  /** That goes for every target that a group reaches. */
  ghost predicate NoRepeatsIn(domain: Text, records: seq<RR>, group: Text) {
    forall t :: t in Reached(ZoneFacts(domain, Elems(records)), group) ==> NoRepeatsOf(records, t)
  }

  ghost predicate NoRepeats(domain: Text, records: seq<RR>) {
    forall g :: g in GroupNames(ZoneFacts(domain, Elems(records))) ==> NoRepeatsIn(domain, records, g)
  }

  /** What was collected from a stream that was taken without an error. */
  function CollectedFrom(domain: Text, records: seq<RR>): Collected {
    AddRecords(NOTHING, domain, records).0
  }

  /** The facts collected from a stream are those of its records. */
  lemma CollectedStream(domain: Text, records: seq<RR>)
    requires AddRecords(NOTHING, domain, records).1.None?
    ensures CollectedFacts(CollectedFrom(domain, records)) == ZoneFacts(domain, Elems(records))
    ensures NoBareEndpoint(CollectedFrom(domain, records).endpoints)
  {
    AddRecordsFacts(NOTHING, domain, records);
    assert CollectedFacts(NOTHING) == {};
  }

  /** A target has a repeated address exactly if the stream repeats the record. */
  lemma CollectedLists(domain: Text, records: seq<RR>, target: Text)
    requires AddRecords(NOTHING, domain, records).1.None? && target in CollectedFrom(domain, records).endpoints
    ensures var lists := CollectedFrom(domain, records).endpoints[target];
      && lists == Lists(Given(records, target, false), Given(records, target, true))
      && (NoDup(lists.ip4) <==> !Twice(records, target, false))
      && (NoDup(lists.ip6) <==> !Twice(records, target, true))
  {
    ListsAreGiven(domain, records, target);
    GivenTwice(records, target, false);
    GivenTwice(records, target, true);
  }

  lemma CleanIffNoRepeats(domain: Text, records: seq<RR>, group: Text)
    requires AddRecords(NOTHING, domain, records).1.None?
    ensures CleanGroup(CollectedFrom(domain, records), group) <==> NoRepeatsIn(domain, records, group)
  {
    var c := CollectedFrom(domain, records);
    CollectedStream(domain, records);
    CollectedAddressed(c);
    forall t | t in Reached(CollectedFacts(c), group)
        ensures t in c.endpoints && (Clean(c.endpoints[t]) <==> NoRepeatsOf(records, t)) {
      assert t in Addressed(CollectedFacts(c));
      CollectedLists(domain, records, t);
    }
  }

  // ---- building

  /** Groups that may be built from a stream. */
  ghost predicate Builds(domain: Text, records: seq<RR>, built: seq<Group>) {
    AddRecords(NOTHING, domain, records).1.None? && IsBuilt(CollectedFrom(domain, records), built)
  }

  ghost function Joined(domain: Text, records: seq<RR>): seq<Group> {
    Join(ZoneFacts(domain, Elems(records)))
  }

  /** Collects a stream and builds its groups. */
  method BuildZone(domain: Text, records: seq<RR>)
    returns (err: Option<DefinitionError>, gps: GroupsRef, rrc: RRCollector)
    ensures rrc.Valid() && (err.None? <==> forall r :: r in records ==> Accepted(domain, r))
    ensures err.None? ==>
      && Indexes(gps.byName, RefNames(gps.all))
      && AllReadable(rrc.groups.cells, rrc.endpoints.cells, gps.all)
      && Builds(domain, records, ReadGroups(rrc.groups.cells, rrc.endpoints.cells, gps.all))
  {
    rrc := new RRCollector(domain);
    gps := GroupsRef(map[], []);
    err := rrc.AddAll(records);
    StreamAccepted(NOTHING, domain, records);
    if err.None? {
      gps := rrc.Build();
    }
  }

  /**
   * Names, services and endpoints are always those of the join. So is each list of addresses of an endpoint, exactly
   * if no such address record of that endpoint's target is repeated, whatever goes for other targets.
   */
  lemma BuiltEndpoint(domain: Text, records: seq<RR>, built: seq<Group>, i: nat, k: nat)
    requires Builds(domain, records, built) && i < |built| && k < |built[i].endpoints|
    ensures SameButAddresses(built, Joined(domain, records))
    ensures var e, joined := built[i].endpoints[k], Joined(domain, records)[i].endpoints[k];
      && (e.ip4 == joined.ip4 <==> !Twice(records, e.originalName, false))
      && (e.ip6 == joined.ip6 <==> !Twice(records, e.originalName, true))
  {
    CollectedStream(domain, records);
    ListsRightIff(CollectedFrom(domain, records), built, i, k);
    CollectedLists(domain, records, built[i].endpoints[k].originalName);
  }

  /** However the arrays are shared: an endpoint shows no address that no record gives its own target, but zero ones. */
  lemma BuiltAddresses(domain: Text, records: seq<RR>, built: seq<Group>, i: nat, k: nat)
    requires Builds(domain, records, built) && i < |built| && k < |built[i].endpoints|
    ensures var e := built[i].endpoints[k];
      && (forall a :: a in e.ip4 && a != NoAddr ==> A(e.originalName, a) in records)
      && (forall a :: a in e.ip6 && a != NoAddr ==> AAAA(e.originalName, a) in records)
  {
    var e := built[i].endpoints[k];
    BuiltValues(CollectedFrom(domain, records), built, i, k);
    CollectedLists(domain, records, e.originalName);
    OnlyGiven(records, e.originalName, false, e.ip4);
    OnlyGiven(records, e.originalName, true, e.ip6);
  }

  lemma OnlyGiven(records: seq<RR>, target: Text, v6: bool, shown: seq<Addr>)
    requires Elems(shown) <= Elems(Given(records, target, v6)) + {NoAddr}
    ensures forall a :: a in shown && a != NoAddr ==> AddressRecord(target, v6, a) in records
  {
    forall a | a in shown && a != NoAddr ensures AddressRecord(target, v6, a) in records {
      assert a in Elems(shown);
      GivenFrom(records, target, v6, a);
    }
  }

  /** What a stream gives a target is in one of its records. */
  lemma {:induction false} GivenFrom(records: seq<RR>, target: Text, v6: bool, a: Addr)
    ensures a in Given(records, target, v6) <==> AddressRecord(target, v6, a) in records
  {
    if records != [] {
      var last := |records| - 1;
      GivenFrom(records[..last], target, v6, a);
      assert records == records[..last] + [records[last]];
    }
  }

  /** A group is that of the join exactly if no address record of its own targets is repeated. */
  lemma BuiltGroup(domain: Text, records: seq<RR>, built: seq<Group>, i: nat)
    requires Builds(domain, records, built) && i < |built|
    ensures SameButAddresses(built, Joined(domain, records))
    ensures built[i] == Joined(domain, records)[i] <==> NoRepeatsIn(domain, records, built[i].name)
  {
    CollectedStream(domain, records);
    GroupRightIff(CollectedFrom(domain, records), built, i);
    CleanIffNoRepeats(domain, records, built[i].name);
  }

  /** All groups are those of the join exactly if no address record of a target that some group reaches is. */
  lemma BuiltZone(domain: Text, records: seq<RR>, built: seq<Group>)
    requires Builds(domain, records, built)
    ensures SameButAddresses(built, Joined(domain, records))
    ensures built == Joined(domain, records) <==> NoRepeats(domain, records)
  {
    var c := CollectedFrom(domain, records);
    CollectedStream(domain, records);
    BuiltRightIff(c, built);
    CollectedNames(c);
    forall g ensures CleanGroup(c, g) <==> NoRepeatsIn(domain, records, g) {
      CleanIffNoRepeats(domain, records, g);
    }
  }

  // ---- order and repetition

  lemma {:induction false} CountedTwice(records: seq<RR>, r: RR)
    ensures multiset(records)[r] >= 1 <==> r in records
    ensures multiset(records)[r] >= 2 <==> exists i, j :: 0 <= i < j < |records| && records[i] == records[j] == r
  {
    if records != [] {
      var last := |records| - 1;
      CountedTwice(records[..last], r);
      assert records == records[..last] + [records[last]];
      assert forall i :: 0 <= i < last ==> records[..last][i] == records[i];
      if records[last] == r && r in records[..last] {
        var i :| 0 <= i < last && records[..last][i] == r;
        assert records[i] == records[last] == r;
      }
    }
  }

  /** Two streams of the same records, however ordered, are both taken or both refused. */
  lemma OrderIsAccepted(domain: Text, records: seq<RR>, others: seq<RR>)
    requires Elems(records) == Elems(others)
    ensures AddRecords(NOTHING, domain, records).1.None? <==> AddRecords(NOTHING, domain, others).1.None?
  {
    StreamAccepted(NOTHING, domain, records);
    StreamAccepted(NOTHING, domain, others);
    assert forall r :: r in records <==> r in Elems(records);
    assert forall r :: r in others <==> r in Elems(others);
  }

  /**
   * Repeating a record never changes what the zone says. It spoils a group exactly if it is an address record of a
   * target that the group reaches.
   */
  lemma RepetitionMatters(domain: Text, records: seq<RR>, r: RR, group: Text)
    requires r in records
    ensures Joined(domain, records + [r]) == Joined(domain, records)
    ensures var reached := IsAddress(r) && r.name in Reached(ZoneFacts(domain, Elems(records)), group);
      NoRepeatsIn(domain, records + [r], group) <==> NoRepeatsIn(domain, records, group) && !reached
  {
    var more := records + [r];
    assert Elems(more) == Elems(records);
    assert more[..|records|] == records;
    forall t, v6 ensures Twice(more, t, v6) <==>
        Twice(records, t, v6) || (IsAddress(r) && r.name == t && r.AAAA? == v6) {
      TwiceByLast(more, t, v6);
    }
  }

  lemma JoinedAt(domain: Text, records: seq<RR>, group: Text) returns (j: nat)
    requires group in GroupNames(ZoneFacts(domain, Elems(records)))
    ensures j < |Joined(domain, records)| &&
        Joined(domain, records)[j] == GroupOf(ZoneFacts(domain, Elems(records)), group)
  {
    var names := GroupNames(ZoneFacts(domain, Elems(records)));
    TextListingLists(names);
    assert group in Elems(TextListing(names));
    j :| 0 <= j < |TextListing(names)| && TextListing(names)[j] == group;
  }
}
