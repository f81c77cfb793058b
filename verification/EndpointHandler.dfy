/** server/endpointHandler.go: the answer to an endpoint question. */
module EndpointHandling {
  import opened Ordering
  import opened Wrappers
  import opened Slices
  import opened Zone
  import opened Locating
  import opened Collecting
  import opened Streams
  import opened LocatedEndpoints
  import opened Jitter
  import opened Shuffling
  import EndpointNames
  import Groups

  const NO_RECORD := Record(Header([], 0, 0), Groups.OtherType, NoAddr)

  /** Every lookup found an endpoint: the source follows the pointers. */
  ghost predicate AllFound(found: seq<Option<Endpoint>>) {
    forall i :: 0 <= i < |found| ==> found[i].Some?
  }

  function Endpoints(found: seq<Option<Endpoint>>): seq<Endpoint>
    requires AllFound(found)
  {
    seq(|found|, i requires 0 <= i < |found| => found[i].value)
  }

  /** No group that a request looks into is empty: none that it names, or none at all if it names none. */
  ghost predicate NoneEmpty(gps: Groups.Groups, names: seq<Text>) {
    forall i :: 0 <= i < |gps.all| && (names == [] || gps.all[i].name in names) ==> gps.all[i].endpoints != []
  }

  /** That is when every lookup finds an endpoint. */
  lemma AllFoundIff(hash: Hash, gps: Groups.Groups, key: Text, names: seq<Text>)
    requires Groups.Indexed(gps)
    ensures AllFound(Answer(hash, gps, key, names)) <==> NoneEmpty(gps, names)
  {
    if names == [] {
      var found := Answer(hash, gps, key, names);
      forall i | 0 <= i < |gps.all| ensures found[i].Some? <==> gps.all[i].endpoints != [] {
        assert found[i] == NearestIn(hash, gps.all[i], key);
      }
    } else {
      NamedFoundIff(hash, gps, key, names);
    }
  }

  lemma {:induction false} NamedFoundIff(hash: Hash, gps: Groups.Groups, key: Text, names: seq<Text>)
    requires Groups.Indexed(gps)
    ensures AllFound(AnswerFor(hash, gps, key, names)) <==>
            forall i :: 0 <= i < |gps.all| && gps.all[i].name in names ==> gps.all[i].endpoints != []
  {
    if names != [] {
      var last := |names| - 1;
      var before, name := AnswerFor(hash, gps, key, names[..last]), names[last];
      NamedFoundIff(hash, gps, key, names[..last]);
      assert names == names[..last] + [name];
      forall i | 0 <= i < |gps.all| && gps.all[i].name == name ensures Groups.Get(gps, name) == Some(gps.all[i]) {
        OnlyOne(gps, gps.all[i]);
      }
      if Groups.Get(gps, name).Some? {
        var g := Groups.Get(gps, name).value;
        var j :| 0 <= j < |gps.all| && gps.all[j] == g;
        OneMoreFound(before, NearestIn(hash, g, key));
        assert AnswerFor(hash, gps, key, names) == before + [NearestIn(hash, g, key)];
        assert NearestIn(hash, g, key).Some? <==> gps.all[j].endpoints != [];
      } else {
        assert AnswerFor(hash, gps, key, names) == before;
      }
      assert forall n :: n in names <==> n in names[..last] || n == name;
    }
  }

  lemma OneMoreFound(found: seq<Option<Endpoint>>, e: Option<Endpoint>)
    ensures AllFound(found + [e]) <==> AllFound(found) && e.Some?
  {
    var more := found + [e];
    assert more[|found|] == e && forall i :: 0 <= i < |found| ==> more[i] == found[i];
  }

  /** The endpoints that a request is answered with. */
  ghost function Located(hash: Hash, gps: Groups.Groups, request: EndpointNames.EndpointRequest): seq<Endpoint>
    requires Groups.Indexed(gps) && NoneEmpty(gps, request.groups)
  {
    AllFoundIff(hash, gps, request.key, request.groups);
    Endpoints(Answer(hash, gps, request.key, request.groups))
  }

  class Msg {
    var answer: Slice<Record>
  }

  class EndpointHandler {
    const locator: Locator
    const jitterer: TTLJitterer

    constructor (locator: Locator, jitterer: TTLJitterer)
      ensures this.locator == locator && this.jitterer == jitterer
    {
      this.locator, this.jitterer := locator, jitterer;
    }

    /** With any number in its range for the random number. */
    method RandomTTL() returns (ttl: Uint32)
      ensures IsDrawn(jitterer, ttl)
    {
      var draw: Uint32 := 0;
      if jitterer.choose != 0 {
        draw :| draw < jitterer.choose;
      }
      ttl := jitterer.TTL(draw);
    }

    /** The records of the located endpoints, all with one header, go behind the other answers, and then all are
        shuffled. */
    method ServeRequest(response: Msg, request: EndpointNames.EndpointRequest, name: Text, rrType: RRType)
      returns (ghost header: Header, ghost swaps: seq<Swap>)
      requires locator.Valid() && NoneEmpty(locator.Current(), request.groups) && response.answer.Valid()
      modifies response, response.answer.data
      ensures response.answer.Valid()
      ensures header.name == name && IsDrawn(jitterer, header.ttl) && header.rrClass == CLASS_INET
      ensures
        var addrs := Addresses(Located(locator.hash, old(locator.Current()), request), rrType);
        IsAnswer(response.answer.View(), old(response.answer.View()), addrs, rrType, header, swaps)
      ensures
        var le := Located(locator.hash, old(locator.Current()), request);
        Holds(response.answer.View(), old(response.answer.View()), le, rrType, name, header.ttl)
    {
      var found := locator.FindString(request.key, request.groups);
      AllFoundIff(locator.hash, locator.Current(), request.key, request.groups);
      var endpoints := Endpoints(found);
      var n := LenRRs(endpoints, rrType);
      var answer := Grow(response.answer, n, NO_RECORD);
      var ttl := RandomTTL();
      header := Header(name, ttl, CLASS_INET);
      var rrs := RRs(endpoints, rrType, n + 1);
      answer := AppendRecords(answer, rrs, Header(name, ttl, CLASS_INET));
      HeadersSet(Addresses(endpoints, rrType), rrType, header);
      swaps := Shuffle(answer);
      AnswerHolds(answer.View(), old(response.answer.View()), endpoints, rrType, header, swaps);
      response.answer := answer;
    }
  }

  function WithHeader(rrs: seq<Record>, header: Header): seq<Record> {
    seq(|rrs|, i requires 0 <= i < |rrs| => rrs[i].(header := header))
  }

  lemma HeadersSet(addrs: seq<Addr>, rrType: RRType, header: Header)
    ensures WithHeader(Records(addrs, rrType, BARE), header) == Records(addrs, rrType, header)
    ensures Front(Records(addrs, rrType, BARE), |addrs| + 1) == Records(addrs, rrType, BARE)
  {
  }

  /** The loop over the records: each gets the header and goes behind the answers. */
  method AppendRecords(before: Slice<Record>, rrs: seq<Record>, header: Header) returns (answer: Slice<Record>)
    requires before.Valid()
    modifies before.data
    ensures answer.Valid() && answer.View() == old(before.View()) + WithHeader(rrs, header)
    ensures answer.data == before.data || fresh(answer.data)
  {
    answer := before;
    for i := 0 to |rrs|
      invariant answer.Valid() && answer.View() == old(before.View()) + WithHeader(rrs, header)[..i]
      invariant answer.data == before.data || fresh(answer.data)
    {
      var rr := rrs[i].(header := header);
      answer := AppendAll(answer, [rr], NO_RECORD);
    }
  }

  // ---- what the answer promises

  ghost predicate IsAnswer(answer: seq<Record>, before: seq<Record>, addrs: seq<Addr>, rrType: RRType, header: Header,
      swaps: seq<Swap>) {
    var all := before + Records(addrs, rrType, header);
    Shuffles(swaps, |all|) && answer == Shuffled(all, swaps)
  }

  /** All addresses of some lists, as often as they are there. */
  ghost function Total(lists: seq<seq<Addr>>): multiset<Addr> {
    if lists == [] then multiset{} else Total(lists[..|lists| - 1]) + multiset(lists[|lists| - 1])
  }

  lemma {:induction false} FlatTotal(lists: seq<seq<Addr>>)
    ensures multiset(Flat(lists)) == Total(lists)
  {
    if lists != [] {
      FlatTotal(lists[..|lists| - 1]);
    }
  }

  /**
   * Besides the records that were there, an answer to an A question holds the IPv4 addresses of the located endpoints,
   * one to an AAAA question their IPv6 addresses, and one to any other question nothing.
   */
  ghost predicate Holds(
    answer: seq<Record>, before: seq<Record>, le: seq<Endpoint>, rrType: RRType, name: Text, ttl: Uint32)
  {
    && (rrType.TypeA? ==> multiset(AddressesIn(answer)) == multiset(AddressesIn(before)) + Total(IP4Lists(le)))
    && (rrType.TypeAAAA? ==> multiset(AddressesIn(answer)) == multiset(AddressesIn(before)) + Total(IP6Lists(le)))
    && (!rrType.TypeA? && !rrType.TypeAAAA? ==> multiset(answer) == multiset(before))
    && multiset(before) <= multiset(answer)
    && forall r :: r in answer ==> r in before || r == Record(Header(name, ttl, 1), rrType, r.addr)
  }

  lemma AnswerHolds(
    answer: seq<Record>, before: seq<Record>, le: seq<Endpoint>, rrType: RRType, header: Header, swaps: seq<Swap>)
    requires IsAnswer(answer, before, Addresses(le, rrType), rrType, header, swaps) && header.rrClass == CLASS_INET
    ensures Holds(answer, before, le, rrType, header.name, header.ttl)
  {
    var addrs := Addresses(le, rrType);
    AddressesAre(le, rrType);
    FlatTotal(IP4Lists(le));
    FlatTotal(IP6Lists(le));
    AnswerIsMore(answer, before, addrs, rrType, header, swaps);
    assert addrs == [] ==> multiset(answer) == multiset(before);
  }

  lemma MoreAddresses(
    answer: seq<Record>, before: seq<Record>, addrs: seq<Addr>, rrType: RRType, header: Header, swaps: seq<Swap>)
    requires IsAnswer(answer, before, addrs, rrType, header, swaps)
    ensures multiset(AddressesIn(answer)) == multiset(AddressesIn(before)) + multiset(addrs)
  {
    var all := before + Records(addrs, rrType, header);
    AddressesShuffled(all, swaps);
    ShuffleKeepsAll(AddressesIn(all), swaps);
    assert AddressesIn(all) == AddressesIn(before) + addrs;
  }

  /** The records that were there, and one for each address. */
  lemma AnswerIsMore(
    answer: seq<Record>, before: seq<Record>, addrs: seq<Addr>, rrType: RRType, header: Header, swaps: seq<Swap>)
    requires IsAnswer(answer, before, addrs, rrType, header, swaps)
    ensures multiset(answer) == multiset(before) + multiset(Records(addrs, rrType, header))
    ensures multiset(AddressesIn(answer)) == multiset(AddressesIn(before)) + multiset(addrs)
    ensures forall r :: r in answer ==> r in before || r == Record(header, rrType, r.addr)
  {
    var more := Records(addrs, rrType, header);
    ShuffleKeepsAll(before + more, swaps);
    MoreAddresses(answer, before, addrs, rrType, header, swaps);
    forall r | r in answer ensures r in before || r == Record(header, rrType, r.addr) {
      assert r in multiset(answer);
      assert r in more ==> r == Record(header, rrType, r.addr);
    }
  }

  /** Nothing of the located endpoints is lost, nothing else is added, and all that is added has one header. */
  lemma AnswerHoldsRecords(answer: seq<Record>, addrs: seq<Addr>, rrType: RRType, header: Header, swaps: seq<Swap>)
    requires IsAnswer(answer, [], addrs, rrType, header, swaps)
    ensures |answer| == |addrs|
    ensures forall i :: 0 <= i < |answer| ==> answer[i] == Record(header, rrType, answer[i].addr)
    ensures multiset(AddressesIn(answer)) == multiset(addrs)
  {
    var all := Records(addrs, rrType, header);
    assert [] + all == all;
    ShuffleKeepsAll(all, swaps);
    forall i | 0 <= i < |answer| ensures answer[i] == Record(header, rrType, answer[i].addr) {
      assert answer[i] in multiset(answer);
      assert answer[i] in all;
    }
    assert AddressesIn(all) == addrs;
    AddressesShuffled(all, swaps);
    ShuffleKeepsAll(addrs, swaps);
  }

  function AddressesIn(rrs: seq<Record>): seq<Addr> {
    seq(|rrs|, i requires 0 <= i < |rrs| => rrs[i].addr)
  }

  /** Shuffling records shuffles their addresses. */
  lemma {:induction false} AddressesShuffled(rrs: seq<Record>, swaps: seq<Swap>)
    requires Within(swaps, |rrs|)
    ensures AddressesIn(Shuffled(rrs, swaps)) == Shuffled(AddressesIn(rrs), swaps)
    decreases |swaps|
  {
    if swaps != [] {
      assert AddressesIn(Swapped(rrs, swaps[0])) == Swapped(AddressesIn(rrs), swaps[0]);
      AddressesShuffled(Swapped(rrs, swaps[0]), swaps[1..]);
    }
  }

  // ---- which endpoints answer

  /** The requested groups that exist, in the order of the request, as often as it names them. */
  ghost function Existing(gps: Groups.Groups, names: seq<Text>): seq<Text> {
    if names == [] then []
    else
      var last := |names| - 1;
      Existing(gps, names[..last]) + if names[last] in Names(gps.all) then [names[last]] else []
  }

  /** One endpoint for each of these, from the group of that name. */
  lemma {:induction false} OneEndpointPerGroup(hash: Hash, gps: Groups.Groups, key: Text, names: seq<Text>)
    requires Groups.Indexed(gps)
    ensures var found, existing := AnswerFor(hash, gps, key, names), Existing(gps, names);
      && |found| == |existing|
      && forall k :: 0 <= k < |found| ==>
           && Groups.Get(gps, existing[k]).Some?
           && found[k] == NearestIn(hash, Groups.Get(gps, existing[k]).value, key)
  {
    if names != [] {
      OneEndpointPerGroup(hash, gps, key, names[..|names| - 1]);
    }
  }

  /** The groups that a request is answered from. */
  ghost function Asked(gps: Groups.Groups, names: seq<Text>): seq<Text> {
    if names == [] then Names(gps.all) else Existing(gps, names)
  }

  /** The k-th endpoint located is one of the k-th of these groups. */
  lemma LocatedInGroup(hash: Hash, gps: Groups.Groups, request: EndpointNames.EndpointRequest, k: nat)
    returns (i: nat, j: nat)
    requires Groups.Indexed(gps) && NoneEmpty(gps, request.groups) && k < |Located(hash, gps, request)|
    ensures |Asked(gps, request.groups)| == |Located(hash, gps, request)|
    ensures i < |gps.all| && gps.all[i].name == Asked(gps, request.groups)[k]
    ensures j < |gps.all[i].endpoints| && gps.all[i].endpoints[j] == Located(hash, gps, request)[k]
  {
    var found := Answer(hash, gps, request.key, request.groups);
    AllFoundIff(hash, gps, request.key, request.groups);
    if request.groups == [] {
      i := k;
      assert found[k] == NearestIn(hash, gps.all[k], request.key);
    } else {
      OneEndpointPerGroup(hash, gps, request.key, request.groups);
      var g := Groups.Get(gps, Existing(gps, request.groups)[k]).value;
      i :| 0 <= i < |gps.all| && gps.all[i] == g;
    }
    assert found[k].Some? && found[k].value in gps.all[i].endpoints;
    j :| 0 <= j < |gps.all[i].endpoints| && gps.all[i].endpoints[j] == found[k].value;
  }

  /**
   * From the records of a zone to an answer, for any request: the endpoint that answers for a group is a target that
   * the zone reaches from that group. Its addresses of a kind are all those that the zone has for it, once each,
   * exactly if none of their records is repeated, whatever else is in the zone.
   */
  lemma AnswerComesFromZone(
    hash: Hash, domain: Text, records: seq<RR>, gps: Groups.Groups, request: EndpointNames.EndpointRequest, k: nat)
    requires Groups.Indexed(gps) && Builds(domain, records, gps.all) && NoneEmpty(gps, request.groups)
    requires k < |Located(hash, gps, request)|
    ensures |Asked(gps, request.groups)| == |Located(hash, gps, request)|
    ensures
      var facts, e := ZoneFacts(domain, Elems(records)), Located(hash, gps, request)[k];
      && e.originalName in Reached(facts, Asked(gps, request.groups)[k])
      && (e.ip4 == AddrListing(IP4Of(facts, e.originalName)) <==> !Twice(records, e.originalName, false))
      && (e.ip6 == AddrListing(IP6Of(facts, e.originalName)) <==> !Twice(records, e.originalName, true))
  {
    var i, j := LocatedInGroup(hash, gps, request, k);
    EndpointOfZone(domain, records, gps.all, i, j);
  }

  /**
   * The object is what is looked up, whatever stands before or behind it: a name with a prefix and extras is answered
   * as the object alone, from each group by the endpoint that the object goes to.
   */
  lemma ObjectIsLookedUp(hash: Hash, gps: Groups.Groups, r: EndpointNames.EndpointRequest, k: nat)
    requires Groups.Indexed(gps) && NoneEmpty(gps, r.groups)
    requires EndpointNames.Plain([r.prefix, r.key] + r.extra) && EndpointNames.Free(r.groups, '.')
    ensures
      var first := EndpointNames.JoinPieces([r.prefix, r.key] + r.extra, '-');
      var written := EndpointNames.JoinPieces([first] + r.groups, '.');
      var alone := EndpointNames.JoinPieces([r.key] + r.groups, '.');
      var request := EndpointNames.ParseEndpointRequest(written);
      && request.groups == r.groups == EndpointNames.ParseEndpointRequest(alone).groups
      && Located(hash, gps, request) == Located(hash, gps, EndpointNames.ParseEndpointRequest(alone))
      && (k < |Located(hash, gps, request)| ==>
            k < |Asked(gps, r.groups)| && Groups.Get(gps, Asked(gps, r.groups)[k]).Some? &&
            var members := Groups.Get(gps, Asked(gps, r.groups)[k]).value.endpoints;
            Some(Located(hash, gps, request)[k]) == Nearest(hash, Ring(members), r.key))
  {
    EndpointNames.ParseOfPrinted(r);
    if k < |Located(hash, gps, r)| {
      LocatedByKey(hash, gps, r, k);
    }
  }

  lemma LocatedByKey(hash: Hash, gps: Groups.Groups, request: EndpointNames.EndpointRequest, k: nat)
    requires Groups.Indexed(gps) && NoneEmpty(gps, request.groups) && k < |Located(hash, gps, request)|
    ensures k < |Asked(gps, request.groups)| && Groups.Get(gps, Asked(gps, request.groups)[k]).Some?
    ensures
      var members := Groups.Get(gps, Asked(gps, request.groups)[k]).value.endpoints;
      Some(Located(hash, gps, request)[k]) == Nearest(hash, Ring(members), request.key)
  {
    var found := Answer(hash, gps, request.key, request.groups);
    AllFoundIff(hash, gps, request.key, request.groups);
    if request.groups == [] {
      assert found[k] == NearestIn(hash, gps.all[k], request.key);
      assert gps.all[k] in gps.all;
      OnlyOne(gps, gps.all[k]);
    } else {
      OneEndpointPerGroup(hash, gps, request.key, request.groups);
    }
  }

  /**
   * From the records to the records of an answer: each holds an address that a record of that type gives a target
   * reached from one of the groups asked for; or a zero one, if that target has a repeated record.
   */
  lemma AnswerRecordsComeFromZone(
    hash: Hash, domain: Text, records: seq<RR>, gps: Groups.Groups, request: EndpointNames.EndpointRequest,
    answer: seq<Record>, rrType: RRType, name: Text, ttl: Uint32, j: nat)
    requires Groups.Indexed(gps) && Builds(domain, records, gps.all) && NoneEmpty(gps, request.groups)
    requires Holds(answer, [], Located(hash, gps, request), rrType, name, ttl) && j < |answer|
    ensures rrType.TypeA? || rrType.TypeAAAA?
    ensures answer[j].header == Header(name, ttl, 1) && answer[j].rrType == rrType
    ensures
      var le, asked := Located(hash, gps, request), Asked(gps, request.groups);
      exists k ::
        && 0 <= k < |le| == |asked|
        && le[k].originalName in Reached(ZoneFacts(domain, Elems(records)), asked[k])
        && (AddressRecord(le[k].originalName, rrType.TypeAAAA?, answer[j].addr) in records
            || (answer[j].addr == NoAddr && Twice(records, le[k].originalName, rrType.TypeAAAA?)))
  {
    var le := Located(hash, gps, request);
    assert answer[j] in answer && answer[j] in multiset(answer);
    assert AddressesIn(answer)[j] in multiset(AddressesIn(answer));
    var k := FromList(if rrType.TypeA? then IP4Lists(le) else IP6Lists(le), answer[j].addr);
    AnswerComesFromZone(hash, domain, records, gps, request, k);
    var i, at := LocatedInGroup(hash, gps, request, k);
    BuiltAddresses(domain, records, gps.all, i, at);
    ListedAddresses(domain, records, le[k].originalName);
  }

  /** And none is missing: every record of that type of a located target is answered, if none of these is repeated. */
  lemma AnswerHasAllRecords(
    hash: Hash, domain: Text, records: seq<RR>, gps: Groups.Groups, request: EndpointNames.EndpointRequest,
    answer: seq<Record>, rrType: RRType, name: Text, ttl: Uint32, k: nat, a: Addr)
    requires Groups.Indexed(gps) && Builds(domain, records, gps.all) && NoneEmpty(gps, request.groups)
    requires Holds(answer, [], Located(hash, gps, request), rrType, name, ttl) && k < |Located(hash, gps, request)|
    requires rrType.TypeA? || rrType.TypeAAAA?
    requires !Twice(records, Located(hash, gps, request)[k].originalName, rrType.TypeAAAA?)
    requires AddressRecord(Located(hash, gps, request)[k].originalName, rrType.TypeAAAA?, a) in records
    ensures Record(Header(name, ttl, 1), rrType, a) in answer
  {
    var le := Located(hash, gps, request);
    AnswerComesFromZone(hash, domain, records, gps, request, k);
    ListedAddresses(domain, records, le[k].originalName);
    InAnswer(answer, le, rrType, name, ttl, k, a);
  }

  lemma InAnswer(
    answer: seq<Record>, le: seq<Endpoint>, rrType: RRType, name: Text, ttl: Uint32, k: nat, a: Addr)
    requires Holds(answer, [], le, rrType, name, ttl) && k < |le|
    requires (rrType.TypeA? && a in le[k].ip4) || (rrType.TypeAAAA? && a in le[k].ip6)
    ensures Record(Header(name, ttl, 1), rrType, a) in answer
  {
    InTotal(if rrType.TypeA? then IP4Lists(le) else IP6Lists(le), k, a);
    assert a in multiset(AddressesIn(answer));
    var j :| 0 <= j < |answer| && AddressesIn(answer)[j] == a;
    assert answer[j] in answer;
  }

  lemma {:induction false} InTotal(lists: seq<seq<Addr>>, k: nat, a: Addr)
    requires k < |lists| && a in lists[k]
    ensures a in Total(lists)
  {
    if k < |lists| - 1 {
      InTotal(lists[..|lists| - 1], k, a);
    }
  }

  lemma {:induction false} FromList(lists: seq<seq<Addr>>, a: Addr) returns (k: nat)
    requires a in Total(lists)
    ensures k < |lists| && a in lists[k]
  {
    var last := |lists| - 1;
    if a in lists[last] {
      k := last;
    } else {
      k := FromList(lists[..last], a);
    }
  }

  lemma ListedAddresses(domain: Text, records: seq<RR>, target: Text)
    ensures var facts := ZoneFacts(domain, Elems(records));
      && (forall a :: a in AddrListing(IP4Of(facts, target)) <==> A(target, a) in records)
      && (forall a :: a in AddrListing(IP6Of(facts, target)) <==> AAAA(target, a) in records)
  {
    var facts := ZoneFacts(domain, Elems(records));
    AddrListingLists(IP4Of(facts, target));
    AddrListingLists(IP6Of(facts, target));
    forall a
      ensures a in AddrListing(IP4Of(facts, target)) <==> A(target, a) in records
      ensures a in AddrListing(IP6Of(facts, target)) <==> AAAA(target, a) in records
    {
      AddressesSay(domain, Elems(records), target, a);
      assert a in AddrListing(IP4Of(facts, target)) <==> a in Elems(AddrListing(IP4Of(facts, target)));
      assert a in AddrListing(IP6Of(facts, target)) <==> a in Elems(AddrListing(IP6Of(facts, target)));
    }
  }

  /** Which requests can be answered: the groups looked into reach something. */
  lemma NoneEmptyIff(domain: Text, records: seq<RR>, gps: Groups.Groups, names: seq<Text>)
    requires Builds(domain, records, gps.all)
    ensures
      var facts := ZoneFacts(domain, Elems(records));
      NoneEmpty(gps, names) <==>
        forall g :: g in GroupNames(facts) && (names == [] || g in names) ==> Reached(facts, g) != {}
  {
    var facts := ZoneFacts(domain, Elems(records));
    forall i | 0 <= i < |gps.all|
      ensures gps.all[i].name in GroupNames(facts)
      ensures gps.all[i].endpoints != [] <==> Reached(facts, gps.all[i].name) != {}
    {
      BuiltName(domain, records, gps.all, i);
      BuiltSize(domain, records, gps.all, i);
    }
    forall g | g in GroupNames(facts) ensures exists i :: 0 <= i < |gps.all| && gps.all[i].name == g {
      var i := BuiltFor(domain, records, gps.all, g);
    }
  }

  lemma BuiltName(domain: Text, records: seq<RR>, built: seq<Group>, i: nat)
    requires Builds(domain, records, built) && i < |built|
    ensures built[i].name in GroupNames(ZoneFacts(domain, Elems(records)))
  {
    BuiltNames(domain, records, built);
    assert Names(built)[i] == built[i].name;
  }

  lemma BuiltFor(domain: Text, records: seq<RR>, built: seq<Group>, group: Text) returns (i: nat)
    requires Builds(domain, records, built) && group in GroupNames(ZoneFacts(domain, Elems(records)))
    ensures i < |built| && built[i].name == group
  {
    BuiltNames(domain, records, built);
    i :| i < |Names(built)| && Names(built)[i] == group;
  }

  lemma BuiltSize(domain: Text, records: seq<RR>, built: seq<Group>, i: nat)
    requires Builds(domain, records, built) && i < |built|
    ensures |built[i].endpoints| == |Reached(ZoneFacts(domain, Elems(records)), built[i].name)|
  {
    BuiltZone(domain, records, built);
    assert SameGroupButAddresses(built[i], Joined(domain, records)[i]);
    TextListingLists(Reached(ZoneFacts(domain, Elems(records)), built[i].name));
  }

  lemma EndpointOfZone(domain: Text, records: seq<RR>, built: seq<Group>, i: nat, k: nat)
    requires Builds(domain, records, built) && i < |built| && k < |built[i].endpoints|
    ensures
      var facts, e := ZoneFacts(domain, Elems(records)), built[i].endpoints[k];
      && e.originalName in Reached(facts, built[i].name)
      && (e.ip4 == AddrListing(IP4Of(facts, e.originalName)) <==> !Twice(records, e.originalName, false))
      && (e.ip6 == AddrListing(IP6Of(facts, e.originalName)) <==> !Twice(records, e.originalName, true))
  {
    var facts := ZoneFacts(domain, Elems(records));
    BuiltEndpoint(domain, records, built, i, k);
    assert SameGroupButAddresses(built[i], Joined(domain, records)[i]);
    TextListingLists(Reached(facts, built[i].name));
    var targets := TextListing(Reached(facts, built[i].name));
    assert Joined(domain, records)[i].endpoints[k] == EndpointOf(facts, targets[k]);
    assert targets[k] in Elems(targets);
  }
}
