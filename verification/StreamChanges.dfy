/** What another order of a stream, and records that concern other groups, can change about a built group. */
module StreamChanges {
  import opened Ordering
  import opened Wrappers
  import opened Zone
  import opened AddressLists
  import opened SettledLists
  import opened Collecting
  import opened Streams

  // ---- what endpoints show

  lemma CollectedList(domain: Text, records: seq<RR>, t: Text, v6: bool)
    requires AddRecords(NOTHING, domain, records).1.None? && t in CollectedFrom(domain, records).endpoints
    ensures ListOf(CollectedFrom(domain, records).endpoints[t], v6) == Given(records, t, v6)
  {
    CollectedLists(domain, records, t);
  }

  /** A settled list is shown the same by every endpoint of its target, in every build. */
  lemma BuiltSettled(domain: Text, records: seq<RR>, built: seq<Group>, i: nat, k: nat, v6: bool)
    requires Builds(domain, records, built) && i < |built| && k < |built[i].endpoints|
    requires Settled(Given(records, built[i].endpoints[k].originalName, v6))
    ensures AddressesIn(built[i].endpoints[k], v6) == Got(Given(records, built[i].endpoints[k].originalName, v6))
  {
    var orig := CollectedFrom(domain, records).endpoints;
    var at := EndpointAt(built, i, k);
    var visits := VisitsOf(domain, records, built);
    OutcomeRightIff(orig, visits, AllEndpoints(built), at);
    CollectedList(domain, records, built[i].endpoints[k].originalName, v6);
    SettledOutcome(orig, visits, AllEndpoints(built), at, v6);
  }

  lemma VisitsOf(domain: Text, records: seq<RR>, built: seq<Group>) returns (visits: seq<Visit>)
    requires Builds(domain, records, built)
    ensures Outcome(CollectedFrom(domain, records).endpoints, visits, AllEndpoints(built))
  {
    visits :| Outcome(CollectedFrom(domain, records).endpoints, visits, AllEndpoints(built));
  }

  /** No other group reaches the target. */
  ghost predicate OnlyGroup(domain: Text, records: seq<RR>, t: Text, group: Text) {
    var facts := ZoneFacts(domain, Elems(records));
    forall g :: g in GroupNames(facts) && t in Reached(facts, g) ==> g == group
  }

  /** A target that only one group reaches shows what one turn gives, settled or not. */
  lemma BuiltOnce(domain: Text, records: seq<RR>, built: seq<Group>, i: nat, k: nat, v6: bool)
    requires Builds(domain, records, built) && i < |built| && k < |built[i].endpoints|
    requires OnlyGroup(domain, records, built[i].endpoints[k].originalName, built[i].name)
    ensures AddressesIn(built[i].endpoints[k], v6) == Got(Given(records, built[i].endpoints[k].originalName, v6))
  {
    var orig := CollectedFrom(domain, records).endpoints;
    var es := AllEndpoints(built);
    var at := EndpointAt(built, i, k);
    var visits := VisitsOf(domain, records, built);
    forall j | 0 <= j < |es| && es[j].originalName == es[at].originalName ensures j == at {
      OnlyFlatPlace(domain, records, built, i, k, j);
    }
    OnceOutcome(orig, visits, es, at, v6);
    CollectedList(domain, records, es[at].originalName, v6);
  }

  lemma OnlyFlatPlace(domain: Text, records: seq<RR>, built: seq<Group>, i: nat, k: nat, j: nat)
    requires Builds(domain, records, built) && i < |built| && k < |built[i].endpoints| && j < |AllEndpoints(built)|
    requires AllEndpoints(built)[j].originalName == built[i].endpoints[k].originalName
    requires OnlyGroup(domain, records, built[i].endpoints[k].originalName, built[i].name)
    ensures j == |AllEndpoints(built[..i])| + k
  {
    var i', k' := EndpointFrom(built, j);
    OnlyPlace(domain, records, built, i, k, i', k');
  }

  lemma EndpointFrom(built: seq<Group>, j: nat) returns (i: nat, k: nat)
    requires j < |AllEndpoints(built)|
    ensures i < |built| && k < |built[i].endpoints|
    ensures j == |AllEndpoints(built[..i])| + k && AllEndpoints(built)[j] == built[i].endpoints[k]
  {
    i, k := FlatFrom(EndpointLists(built), j);
    assert EndpointLists(built)[..i] == EndpointLists(built[..i]);
  }

  lemma OnlyPlace(domain: Text, records: seq<RR>, built: seq<Group>, i: nat, k: nat, i': nat, k': nat)
    requires Builds(domain, records, built) && i < |built| && k < |built[i].endpoints|
    requires i' < |built| && k' < |built[i'].endpoints|
    requires built[i].endpoints[k].originalName == built[i'].endpoints[k'].originalName
    requires OnlyGroup(domain, records, built[i].endpoints[k].originalName, built[i].name)
    ensures i == i' && k == k'
  {
    var facts := ZoneFacts(domain, Elems(records));
    InPlace(domain, records, built, i, k);
    InPlace(domain, records, built, i', k');
    TextListingLists(GroupNames(facts));
    TextListingLists(Reached(facts, built[i].name));
  }

  /** Groups and endpoints stand where their names stand in the listings. */
  lemma InPlace(domain: Text, records: seq<RR>, built: seq<Group>, i: nat, k: nat)
    requires Builds(domain, records, built) && i < |built| && k < |built[i].endpoints|
    ensures
      var facts := ZoneFacts(domain, Elems(records));
      var names, targets := TextListing(GroupNames(facts)), TextListing(Reached(facts, built[i].name));
      && i < |names| && names[i] == built[i].name && built[i].name in GroupNames(facts)
      && k < |targets| && targets[k] == built[i].endpoints[k].originalName && targets[k] in Reached(facts, names[i])
  {
    var facts := ZoneFacts(domain, Elems(records));
    var names, targets := TextListing(GroupNames(facts)), TextListing(Reached(facts, built[i].name));
    BuiltZone(domain, records, built);
    TextListingLists(GroupNames(facts));
    assert SameGroupButAddresses(built[i], Joined(domain, records)[i]);
    assert names[i] in Elems(names);
    TextListingLists(Reached(facts, built[i].name));
    assert targets[k] in Elems(targets);
  }

  // ---- two streams

  /** The lists of the targets of a group are settled in both streams, and turns on them give the same. */
  ghost predicate Undisturbed(domain: Text, records: seq<RR>, others: seq<RR>, group: Text) {
    forall t, v6 :: t in Reached(ZoneFacts(domain, Elems(records)), group) ==>
      SameReading(Given(records, t, v6), Given(others, t, v6))
  }

  ghost predicate SameReading(was: seq<Addr>, other: seq<Addr>) {
    Settled(was) && Settled(other) && Got(was) == Got(other)
  }

  lemma PermutedReading(was: seq<Addr>, other: seq<Addr>)
    requires multiset(was) == multiset(other) && NoDup(was)
    ensures SameReading(was, other)
  {
    SameMultisetSameElems(was, other);
  }

  /** A group that both streams join to the same is built the same, if it is undisturbed. */
  lemma BuiltTheSame(
    domain: Text, records: seq<RR>, others: seq<RR>, built: seq<Group>, after: seq<Group>, i: nat, j: nat)
    requires Builds(domain, records, built) && Builds(domain, others, after) && i < |built| && j < |after|
    requires SameGroupButAddresses(built[i], after[j]) && Undisturbed(domain, records, others, built[i].name)
    ensures built[i] == after[j]
  {
    forall k | 0 <= k < |built[i].endpoints| ensures built[i].endpoints[k] == after[j].endpoints[k] {
      var t := built[i].endpoints[k].originalName;
      BuiltIsReached(domain, records, built, i, k);
      assert SameReading(Given(records, t, false), Given(others, t, false));
      assert SameReading(Given(records, t, true), Given(others, t, true));
      BuiltSettled(domain, records, built, i, k, false);
      BuiltSettled(domain, records, built, i, k, true);
      BuiltSettled(domain, others, after, j, k, false);
      BuiltSettled(domain, others, after, j, k, true);
    }
    assert built[i].endpoints == after[j].endpoints;
  }

  lemma BuiltIsReached(domain: Text, records: seq<RR>, built: seq<Group>, i: nat, k: nat)
    requires Builds(domain, records, built) && i < |built| && k < |built[i].endpoints|
    ensures built[i].endpoints[k].originalName in Reached(ZoneFacts(domain, Elems(records)), built[i].name)
  {
    BuiltZone(domain, records, built);
    assert SameGroupButAddresses(built[i], Joined(domain, records)[i]);
    CollectedStream(domain, records);
    JoinedEndpoint(CollectedFrom(domain, records), i, k);
  }

  lemma {:induction false} GivenCount(records: seq<RR>, t: Text, v6: bool, addr: Addr)
    ensures multiset(Given(records, t, v6))[addr] == multiset(records)[AddressRecord(t, v6, addr)]
  {
    if records != [] {
      var last := |records| - 1;
      GivenCount(records[..last], t, v6, addr);
      CountByLast(records, AddressRecord(t, v6, addr));
      GivenByLast(records, t, v6, addr);
    }
  }

  lemma CountByLast<T>(xs: seq<T>, x: T)
    requires xs != []
    ensures multiset(xs)[x] == multiset(xs[..|xs| - 1])[x] + if xs[|xs| - 1] == x then 1 else 0
  {
    assert xs == xs[..|xs| - 1] + [xs[|xs| - 1]];
  }

  lemma GivenByLast(records: seq<RR>, t: Text, v6: bool, addr: Addr)
    requires records != []
    ensures
      var last := |records| - 1;
      multiset(Given(records, t, v6))[addr] ==
        multiset(Given(records[..last], t, v6))[addr] + if records[last] == AddressRecord(t, v6, addr) then 1 else 0
  {
  }

  /** The same address records of the target, in some order. */
  ghost predicate SameGiven(records: seq<RR>, others: seq<RR>, t: Text) {
    forall v6 :: multiset(Given(records, t, v6)) == multiset(Given(others, t, v6))
  }

  lemma SameGivenByCount(records: seq<RR>, others: seq<RR>, t: Text)
    requires forall v6, addr ::
      multiset(records)[AddressRecord(t, v6, addr)] == multiset(others)[AddressRecord(t, v6, addr)]
    ensures SameGiven(records, others, t)
  {
    forall v6, addr ensures multiset(Given(records, t, v6))[addr] == multiset(Given(others, t, v6))[addr] {
      GivenCount(records, t, v6, addr);
      GivenCount(others, t, v6, addr);
    }
  }

  /** A group is undisturbed, in particular, if no address record of its targets is repeated. */
  lemma NoRepeatsUndisturbed(domain: Text, records: seq<RR>, others: seq<RR>, group: Text)
    requires NoRepeatsIn(domain, records, group)
    requires forall t :: t in Reached(ZoneFacts(domain, Elems(records)), group) ==> SameGiven(records, others, t)
    ensures Undisturbed(domain, records, others, group)
  {
    forall t, v6 | t in Reached(ZoneFacts(domain, Elems(records)), group)
      ensures SameReading(Given(records, t, v6), Given(others, t, v6))
    {
      assert NoRepeatsOf(records, t) && SameGiven(records, others, t);
      GivenTwice(records, t, v6);
      PermutedReading(Given(records, t, v6), Given(others, t, v6));
    }
  }

  // ---- another order

  lemma SameElems(records: seq<RR>, others: seq<RR>)
    requires multiset(records) == multiset(others)
    ensures Elems(records) == Elems(others)
  {
    SameMultisetSameElems(records, others);
  }

  /**
   * Groups built from a stream and from a permutation of it, whatever the order of every map iteration: always the
   * same names, services and endpoints, and the very same group if it is undisturbed, as it is without repetitions.
   */
  lemma OrderIsErased(domain: Text, records: seq<RR>, others: seq<RR>, built: seq<Group>, rebuilt: seq<Group>)
    requires Builds(domain, records, built) && Builds(domain, others, rebuilt) && multiset(records) == multiset(others)
    ensures SameButAddresses(built, rebuilt)
    ensures forall i :: 0 <= i < |built| && Undisturbed(domain, records, others, built[i].name) ==>
        built[i] == rebuilt[i]
    ensures forall i :: 0 <= i < |built| && NoRepeatsIn(domain, records, built[i].name) ==> built[i] == rebuilt[i]
  {
    SameElems(records, others);
    BuiltZone(domain, records, built);
    BuiltZone(domain, others, rebuilt);
    var joined := Joined(domain, records);
    assert joined == Joined(domain, others);
    forall i | 0 <= i < |built|
      ensures SameGroupButAddresses(built[i], rebuilt[i])
      ensures NoRepeatsIn(domain, records, built[i].name) ==> Undisturbed(domain, records, others, built[i].name)
      ensures Undisturbed(domain, records, others, built[i].name) ==> built[i] == rebuilt[i]
    {
      assert SameGroupButAddresses(built[i], joined[i]) && SameGroupButAddresses(rebuilt[i], joined[i]);
      if NoRepeatsIn(domain, records, built[i].name) {
        forall t ensures SameGiven(records, others, t) { SameGivenByCount(records, others, t); }
        NoRepeatsUndisturbed(domain, records, others, built[i].name);
      }
      if Undisturbed(domain, records, others, built[i].name) {
        BuiltTheSame(domain, records, others, built, rebuilt, i, i);
      }
    }
  }

  /**
   * For a target that only one group reaches, the exact condition: another order of the stream gives other addresses
   * exactly if an address record is repeated and the first records, as many as there are unique ones, are others.
   */
  lemma OrderMattersOnce(
    domain: Text, records: seq<RR>, others: seq<RR>, built: seq<Group>, rebuilt: seq<Group>, i: nat, k: nat, v6: bool)
    requires Builds(domain, records, built) && Builds(domain, others, rebuilt) && multiset(records) == multiset(others)
    requires i < |built| && k < |built[i].endpoints|
    requires OnlyGroup(domain, records, built[i].endpoints[k].originalName, built[i].name)
    ensures i < |rebuilt| && k < |rebuilt[i].endpoints|
    ensures
      var was, other := Given(records, built[i].endpoints[k].originalName, v6),
                        Given(others, built[i].endpoints[k].originalName, v6);
      && Unique(was) <= |was| == |other|
      && (AddressesIn(built[i].endpoints[k], v6) == AddressesIn(rebuilt[i].endpoints[k], v6) <==>
          NoDup(was) || multiset(was[..Unique(was)]) == multiset(other[..Unique(was)]))
  {
    var t := built[i].endpoints[k].originalName;
    OrderIsErased(domain, records, others, built, rebuilt);
    assert SameGroupButAddresses(built[i], rebuilt[i]);
    SameElems(records, others);
    SameGivenByCount(records, others, t);
    BuiltOnce(domain, records, built, i, k, v6);
    BuiltOnce(domain, others, rebuilt, i, k, v6);
    OrderMattersIff(Given(records, t, v6), Given(others, t, v6));
  }

  // ---- non-interference

  /** No fact that the records state says anything about the group. */
  ghost predicate Unconcerned(domain: Text, records: seq<RR>, more: seq<RR>, group: Text) {
    forall r, f :: r in more && f in RecordFacts(domain, r) ==> !Concerns(ZoneFacts(domain, Elems(records)), group, f)
  }

  lemma MoreFacts(domain: Text, records: seq<RR>, more: seq<RR>, others: seq<RR>)
    requires multiset(others) == multiset(records) + multiset(more)
    ensures ZoneFacts(domain, Elems(others)) == ZoneFacts(domain, Elems(records)) + ZoneFacts(domain, Elems(more))
  {
    assert Elems(others) == Elems(records) + Elems(more) by {
      forall r ensures r in others <==> r in records || r in more {
        CountedTwice(records, r);
        CountedTwice(more, r);
        CountedTwice(others, r);
      }
    }
  }

  lemma NoneOfItsAddresses(domain: Text, records: seq<RR>, more: seq<RR>, group: Text, t: Text, v6: bool, addr: Addr)
    requires Unconcerned(domain, records, more, group) && t in Reached(ZoneFacts(domain, Elems(records)), group)
    ensures AddressRecord(t, v6, addr) !in more
  {
    var f := if v6 then HasIP6(t, addr) else HasIP4(t, addr);
    assert f in RecordFacts(domain, AddressRecord(t, v6, addr));
    assert Concerns(ZoneFacts(domain, Elems(records)), group, f);
  }

  lemma StillGiven(domain: Text, records: seq<RR>, more: seq<RR>, others: seq<RR>, group: Text, t: Text)
    requires multiset(others) == multiset(records) + multiset(more)
    requires Unconcerned(domain, records, more, group) && t in Reached(ZoneFacts(domain, Elems(records)), group)
    ensures SameGiven(records, others, t)
  {
    forall v6, addr
      ensures multiset(records)[AddressRecord(t, v6, addr)] == multiset(others)[AddressRecord(t, v6, addr)]
    {
      NoneOfItsAddresses(domain, records, more, group, t, v6, addr);
      CountedTwice(more, AddressRecord(t, v6, addr));
    }
    SameGivenByCount(records, others, t);
  }

  /**
   * Records that do not concern a group, put anywhere in a stream, leave the built group exactly as it was, if it is
   * undisturbed, as it is if no address record of its own targets is repeated.
   */
  lemma BuiltDoesNotInterfere(
    domain: Text, records: seq<RR>, more: seq<RR>, others: seq<RR>, built: seq<Group>, after: seq<Group>, i: nat)
    requires Builds(domain, records, built) && Builds(domain, others, after)
    requires multiset(others) == multiset(records) + multiset(more)
    requires i < |built| && Unconcerned(domain, records, more, built[i].name)
    requires Undisturbed(domain, records, others, built[i].name) || NoRepeatsIn(domain, records, built[i].name)
    ensures built[i] in after
  {
    var group := built[i].name;
    if NoRepeatsIn(domain, records, group) {
      UnconcernedUndisturbed(domain, records, more, others, group);
    }
    var j := StillThere(domain, records, more, others, built, after, i);
    BuiltTheSame(domain, records, others, built, after, i, j);
  }

  lemma UnconcernedUndisturbed(domain: Text, records: seq<RR>, more: seq<RR>, others: seq<RR>, group: Text)
    requires multiset(others) == multiset(records) + multiset(more)
    requires Unconcerned(domain, records, more, group) && NoRepeatsIn(domain, records, group)
    ensures Undisturbed(domain, records, others, group)
  {
    forall t | t in Reached(ZoneFacts(domain, Elems(records)), group) ensures SameGiven(records, others, t) {
      StillGiven(domain, records, more, others, group, t);
    }
    NoRepeatsUndisturbed(domain, records, others, group);
  }

  /** The group is still there, and the same but for its addresses. */
  lemma StillThere(
    domain: Text, records: seq<RR>, more: seq<RR>, others: seq<RR>, built: seq<Group>, after: seq<Group>, i: nat)
    returns (j: nat)
    requires Builds(domain, records, built) && Builds(domain, others, after)
    requires multiset(others) == multiset(records) + multiset(more)
    requires i < |built| && Unconcerned(domain, records, more, built[i].name)
    ensures j < |after| && SameGroupButAddresses(built[i], after[j])
  {
    var facts := ZoneFacts(domain, Elems(records));
    MoreFacts(domain, records, more, others);
    NonInterference(facts, ZoneFacts(domain, Elems(more)), built[i].name);
    BuiltZone(domain, records, built);
    assert SameGroupButAddresses(built[i], Joined(domain, records)[i]);
    TextListingLists(GroupNames(facts));
    assert built[i].name in Elems(TextListing(GroupNames(facts)));
    j := JoinedAt(domain, others, built[i].name);
    BuiltZone(domain, others, after);
    assert SameGroupButAddresses(after[j], Joined(domain, others)[j]);
  }

  /** The lists of all its targets are settled. */
  ghost predicate SettledGroup(domain: Text, records: seq<RR>, group: Text) {
    forall t, v6 :: t in Reached(ZoneFacts(domain, Elems(records)), group) ==> Settled(Given(records, t, v6))
  }

  /** Records that come behind the others change no list of the group's targets: settled ones are undisturbed. */
  lemma BehindUndisturbed(domain: Text, records: seq<RR>, more: seq<RR>, group: Text)
    requires Unconcerned(domain, records, more, group)
    ensures Undisturbed(domain, records, records + more, group) <==> SettledGroup(domain, records, group)
  {
    var reached := Reached(ZoneFacts(domain, Elems(records)), group);
    forall t, v6 | t in reached ensures Given(records + more, t, v6) == Given(records, t, v6) {
      forall addr ensures AddressRecord(t, v6, addr) !in more {
        NoneOfItsAddresses(domain, records, more, group, t, v6, addr);
      }
      GivenBehind(records, more, t, v6);
    }
    if Undisturbed(domain, records, records + more, group) {
      forall t, v6 | t in reached ensures Settled(Given(records, t, v6)) {
        assert SameReading(Given(records, t, v6), Given(records + more, t, v6));
      }
    }
    if SettledGroup(domain, records, group) {
      forall t, v6 | t in reached ensures SameReading(Given(records, t, v6), Given(records + more, t, v6)) {
        assert Settled(Given(records, t, v6));
      }
    }
  }

  lemma {:induction false} GivenBehind(records: seq<RR>, more: seq<RR>, t: Text, v6: bool)
    requires forall addr :: AddressRecord(t, v6, addr) !in more
    ensures Given(records + more, t, v6) == Given(records, t, v6)
  {
    if more == [] {
      assert records + more == records;
    } else {
      var last := |more| - 1;
      assert (records + more)[..|records + more| - 1] == records + more[..last];
      GivenBehind(records, more[..last], t, v6);
      var r := more[last];
      assert r in more;
      assert IsAddress(r) && r.name == t && r.AAAA? == v6 ==> r == AddressRecord(t, v6, r.addr);
    }
  }
}
