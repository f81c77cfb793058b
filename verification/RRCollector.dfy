/** service/collectors.go: RRCollector, the recipient of a stream of records. */
module Collecting {
  import opened Ordering
  import opened Wrappers
  import opened Slices
  import opened Cells
  import opened GroupDefinition
  import opened Zone
  import opened References
  import opened GroupCollecting
  import opened ServicesCollecting
  import opened EndpointCollecting
  import opened AddressLists

  // ---- reading stored groups

  ghost predicate AllReadable(texts: seq<seq<Text>>, addrs: seq<seq<Addr>>, all: seq<GroupRef>) {
    forall i :: 0 <= i < |all| ==> InBounds(texts, all[i].services) && FoundInBounds(addrs, all[i].endpoints)
  }

  /** What anyone sees who follows the headers. */
  function ReadGroups(texts: seq<seq<Text>>, addrs: seq<seq<Addr>>, all: seq<GroupRef>): seq<Group>
    requires AllReadable(texts, addrs, all)
  {
    seq(|all|, i requires 0 <= i < |all| =>
      Group(all[i].name, Read(texts, all[i].services), ReadEndpoints(addrs, all[i].endpoints)))
  }

  // ---- lists of lists

  ghost function Flat<T>(xss: seq<seq<T>>): seq<T> {
    if xss == [] then [] else Flat(xss[..|xss| - 1]) + xss[|xss| - 1]
  }

  lemma FlatOneMore<T>(xss: seq<seq<T>>, xs: seq<T>)
    ensures Flat(xss + [xs]) == Flat(xss) + xs
  {
    assert (xss + [xs])[..|xss|] == xss;
  }

  /** Where the k-th element of the i-th list is in the flat one. */
  lemma {:induction false} FlatAt<T>(xss: seq<seq<T>>, i: nat, k: nat)
    requires i < |xss| && k < |xss[i]|
    ensures |Flat(xss[..i])| + k < |Flat(xss)| && Flat(xss)[|Flat(xss[..i])| + k] == xss[i][k]
  {
    var last := |xss| - 1;
    if i < last {
      FlatAt(xss[..last], i, k);
      assert xss[..last][..i] == xss[..i];
    }
  }

  /** Which list and which of its elements are at a place in the flat one. */
  lemma {:induction false} FlatFrom<T>(xss: seq<seq<T>>, at: nat) returns (i: nat, k: nat)
    requires at < |Flat(xss)|
    ensures i < |xss| && k < |xss[i]| && at == |Flat(xss[..i])| + k && Flat(xss)[at] == xss[i][k]
  {
    var last := |xss| - 1;
    if at < |Flat(xss[..last])| {
      i, k := FlatFrom(xss[..last], at);
      assert xss[..last][..i] == xss[..i];
    } else {
      i, k := last, at - |Flat(xss[..last])|;
    }
  }

  ghost function EndpointLists(groups: seq<Group>): seq<seq<Endpoint>> {
    seq(|groups|, i requires 0 <= i < |groups| => groups[i].endpoints)
  }

  /** The endpoints of all groups, one after the other. */
  ghost function AllEndpoints(groups: seq<Group>): seq<Endpoint> { Flat(EndpointLists(groups)) }

  // ---- what a build gives

  /** The same names, services and endpoint names. */
  ghost predicate SameButAddresses(groups: seq<Group>, others: seq<Group>) {
    |groups| == |others| && forall i :: 0 <= i < |groups| ==> SameGroupButAddresses(groups[i], others[i])
  }

  ghost predicate SameGroupButAddresses(g: Group, h: Group) {
    && g.name == h.name && g.services == h.services
    && |g.endpoints| == |h.endpoints|
    && forall j :: 0 <= j < |g.endpoints| ==> g.endpoints[j].originalName == h.endpoints[j].originalName
  }

  /**
   * Groups that may be built from what was collected: those of the join, with the addresses that come of visiting
   * the targets of one group after the other.
   */
  ghost predicate IsBuilt(c: Collected, built: seq<Group>) {
    && NoBareEndpoint(c.endpoints)
    && SameButAddresses(built, Join(CollectedFacts(c)))
    && exists visits :: Outcome(c.endpoints, visits, AllEndpoints(built))
  }

  // ---- the loop computes the join

  lemma {:induction false} HitsAscend(names: seq<Text>, known: set<Text>)
    requires Ascending(names, TextLess)
    ensures Ascending(Hits(names, known), TextLess)
  {
    if names != [] {
      var last := |names| - 1;
      var hits := Hits(names[..last], known);
      HitsAscend(names[..last], known);
      HitsAreKnown(names[..last], known);
      forall i | 0 <= i < |hits| ensures TextLess(hits[i], names[last]) {
        assert hits[i] in Elems(hits);
        var j :| 0 <= j < last && names[j] == hits[i];
      }
    }
  }

  lemma ServicesCollected(c: Collected, group: Text)
    requires group in c.groups
    ensures ServicesOf(CollectedFacts(c), group) == Elems(c.groups[group])
  {
    forall s | s in c.groups[group] ensures s in ServicesOf(CollectedFacts(c), group) {
      assert Serves(group, s) in CollectedFacts(c);
    }
  }

  lemma ReachedByHits(c: Collected, group: Text)
    requires NoBareEndpoint(c.endpoints) && group in c.groups
    ensures var facts, services := CollectedFacts(c), Elems(c.groups[group]);
      && ServicesOf(facts, group) == services
      && Hits(TextListing(TargetsIn(c.services, TextListing(services))), c.endpoints.Keys) ==
          TextListing(Reached(facts, group))
  {
    var facts, services := CollectedFacts(c), Elems(c.groups[group]);
    ServicesCollected(c, group);
    TextListingLists(services);
    var listed := TextListing(services);
    CollectedTargets(c, services, listed);
    var targets := TargetsIn(c.services, listed);
    TextListingLists(targets);
    CollectedAddressed(c);
    HitsAscend(TextListing(targets), c.endpoints.Keys);
    HitsAreKnown(TextListing(targets), c.endpoints.Keys);
    TextListingUnique(Hits(TextListing(targets), c.endpoints.Keys));
  }

  lemma CollectedTargets(c: Collected, services: set<Text>, listed: seq<Text>)
    requires Elems(listed) == services
    ensures TargetsOf(CollectedFacts(c), services) == TargetsIn(c.services, listed)
  {
    var facts := CollectedFacts(c);
    forall t | t in TargetsOf(facts, services) ensures t in TargetsIn(c.services, listed) {
      var f :| f in facts && f.Targets? && f.service in services && f.target == t;
      assert f in ServiceFacts(c.services);
      assert f.service in Elems(listed);
      assert t in At(c.services, f.service);
    }
    forall t | t in TargetsIn(c.services, listed) ensures t in TargetsOf(facts, services) {
      var s :| s in listed && t in At(c.services, s);
      assert s in Elems(listed);
      assert Targets(s, t) in ServiceFacts(c.services);
      assert Targets(s, t) in facts;
    }
  }

  ghost function EndpointFrom(t: Text, lists: Lists): Endpoint {
    Endpoint(t, AddrListing(Elems(lists.ip4)), AddrListing(Elems(lists.ip6)))
  }

  lemma CollectedAddressed(c: Collected)
    requires NoBareEndpoint(c.endpoints)
    ensures Addressed(CollectedFacts(c)) == c.endpoints.Keys
    ensures forall t :: t in c.endpoints ==> EndpointOf(CollectedFacts(c), t) == EndpointFrom(t, c.endpoints[t])
  {
    var facts := CollectedFacts(c);
    forall t | t in c.endpoints ensures t in Addressed(facts) {
      if c.endpoints[t].ip4 != [] {
        assert c.endpoints[t].ip4[0] in c.endpoints[t].ip4;
        assert HasIP4(t, c.endpoints[t].ip4[0]) in facts;
      } else {
        assert c.endpoints[t].ip6[0] in c.endpoints[t].ip6;
        assert HasIP6(t, c.endpoints[t].ip6[0]) in facts;
      }
    }
    forall t | t in c.endpoints ensures EndpointOf(facts, t) == EndpointFrom(t, c.endpoints[t]) {
      CollectedAddresses(c, t);
    }
  }

  lemma CollectedAddresses(c: Collected, t: Text)
    requires t in c.endpoints
    ensures IP4Of(CollectedFacts(c), t) == Elems(c.endpoints[t].ip4) &&
        IP6Of(CollectedFacts(c), t) == Elems(c.endpoints[t].ip6)
  {
    assert forall a :: a in Elems(c.endpoints[t].ip4) ==> HasIP4(t, a) in CollectedFacts(c);
    assert forall a :: a in Elems(c.endpoints[t].ip6) ==> HasIP6(t, a) in CollectedFacts(c);
  }

  lemma CollectedNames(c: Collected)
    ensures GroupNames(CollectedFacts(c)) == c.groups.Keys
  {
    assert forall g :: g in c.groups ==> Defines(g) in CollectedFacts(c);
  }

  // ---- how right it is

  ghost predicate Clean(lists: Lists) { NoDup(lists.ip4) && NoDup(lists.ip6) }

  /** No target of the group was given the same address twice. */
  ghost predicate CleanGroup(c: Collected, group: Text) {
    forall t :: t in Reached(CollectedFacts(c), group) && t in c.endpoints ==> Clean(c.endpoints[t])
  }

  /** No target that any group reaches was. */
  ghost predicate NoRepeatedAddress(c: Collected) {
    forall g :: g in c.groups ==> CleanGroup(c, g)
  }

  lemma JoinedEndpoint(c: Collected, i: nat, k: nat)
    requires NoBareEndpoint(c.endpoints) && i < |Join(CollectedFacts(c))|
    requires k < |Join(CollectedFacts(c))[i].endpoints|
    ensures var e := Join(CollectedFacts(c))[i].endpoints[k];
      && e.originalName in c.endpoints && e.originalName in Reached(CollectedFacts(c), Join(CollectedFacts(c))[i].name)
      && e == EndpointFrom(e.originalName, c.endpoints[e.originalName])
  {
    var facts := CollectedFacts(c);
    var g := Join(facts)[i];
    var targets := TextListing(Reached(facts, g.name));
    TextListingLists(Reached(facts, g.name));
    assert targets[k] in Elems(targets);
    CollectedAddressed(c);
  }

  /** Each list of each endpoint is that of the join exactly if its target was not given one of its addresses twice. */
  lemma ListsRightIff(c: Collected, built: seq<Group>, i: nat, k: nat)
    requires IsBuilt(c, built) && i < |built| && k < |built[i].endpoints|
    ensures var e, joined := built[i].endpoints[k], Join(CollectedFacts(c))[i].endpoints[k];
      && e.originalName in c.endpoints
      && (e.ip4 == joined.ip4 <==> NoDup(c.endpoints[e.originalName].ip4))
      && (e.ip6 == joined.ip6 <==> NoDup(c.endpoints[e.originalName].ip6))
  {
    var joined := Join(CollectedFacts(c));
    assert SameGroupButAddresses(built[i], joined[i]);
    JoinedEndpoint(c, i, k);
    var visits :| Outcome(c.endpoints, visits, AllEndpoints(built));
    OutcomeInGroup(c.endpoints, visits, built, i, k);
  }

  /** An endpoint shows no address that its own target was not given, but the zero one. */
  lemma BuiltValues(c: Collected, built: seq<Group>, i: nat, k: nat)
    requires IsBuilt(c, built) && i < |built| && k < |built[i].endpoints|
    ensures var e := built[i].endpoints[k];
      && e.originalName in c.endpoints
      && Elems(e.ip4) <= Elems(c.endpoints[e.originalName].ip4) + {NoAddr}
      && Elems(e.ip6) <= Elems(c.endpoints[e.originalName].ip6) + {NoAddr}
  {
    var visits :| Outcome(c.endpoints, visits, AllEndpoints(built));
    var at := EndpointAt(built, i, k);
    OutcomeValues(c.endpoints, visits, AllEndpoints(built), at);
  }

  lemma OutcomeInGroup(orig: map<Text, Lists>, visits: seq<Visit>, built: seq<Group>, i: nat, k: nat)
    requires Outcome(orig, visits, AllEndpoints(built)) && i < |built| && k < |built[i].endpoints|
    ensures var e := built[i].endpoints[k];
      && e.originalName in orig
      && (e.ip4 == AddrListing(Elems(orig[e.originalName].ip4)) <==> NoDup(orig[e.originalName].ip4))
      && (e.ip6 == AddrListing(Elems(orig[e.originalName].ip6)) <==> NoDup(orig[e.originalName].ip6))
  {
    var at := EndpointAt(built, i, k);
    OutcomeRightIff(orig, visits, AllEndpoints(built), at);
  }

  lemma EndpointAt(built: seq<Group>, i: nat, k: nat) returns (at: nat)
    requires i < |built| && k < |built[i].endpoints|
    ensures at == |AllEndpoints(built[..i])| + k
    ensures at < |AllEndpoints(built)| && AllEndpoints(built)[at] == built[i].endpoints[k]
  {
    assert EndpointLists(built)[..i] == EndpointLists(built[..i]);
    at := |AllEndpoints(built[..i])| + k;
    FlatAt(EndpointLists(built), i, k);
  }

  lemma EndpointRightIff(c: Collected, built: seq<Group>, i: nat, k: nat)
    requires IsBuilt(c, built) && i < |built| && k < |built[i].endpoints|
    ensures var e := built[i].endpoints[k];
      && e.originalName in c.endpoints
      && (e == Join(CollectedFacts(c))[i].endpoints[k] <==> Clean(c.endpoints[e.originalName]))
  {
    ListsRightIff(c, built, i, k);
    assert SameGroupButAddresses(built[i], Join(CollectedFacts(c))[i]);
  }

  /** Whatever other groups reach, a group is that of the join exactly if its own targets were given no address
      twice. */
  lemma GroupRightIff(c: Collected, built: seq<Group>, i: nat)
    requires IsBuilt(c, built) && i < |built|
    ensures built[i] == Join(CollectedFacts(c))[i] <==> CleanGroup(c, built[i].name)
  {
    var facts := CollectedFacts(c);
    var g, h := built[i], Join(facts)[i];
    assert SameGroupButAddresses(g, h);
    TextListingLists(Reached(facts, g.name));
    var targets := TextListing(Reached(facts, g.name));
    if CleanGroup(c, g.name) {
      forall k | 0 <= k < |g.endpoints| ensures g.endpoints[k] == h.endpoints[k] {
        JoinedEndpoint(c, i, k);
        EndpointRightIff(c, built, i, k);
      }
    } else {
      var t :| t in Reached(facts, g.name) && t in c.endpoints && !Clean(c.endpoints[t]);
      assert t in Elems(targets);
      var k :| 0 <= k < |targets| && targets[k] == t;
      EndpointRightIff(c, built, i, k);
    }
  }

  lemma BuiltRightIff(c: Collected, built: seq<Group>)
    requires IsBuilt(c, built)
    ensures built == Join(CollectedFacts(c)) <==> NoRepeatedAddress(c)
  {
    var joined := Join(CollectedFacts(c));
    CollectedNames(c);
    TextListingLists(c.groups.Keys);
    var names := TextListing(c.groups.Keys);
    forall i | 0 <= i < |built| ensures built[i] == joined[i] <==> CleanGroup(c, names[i]) {
      assert SameGroupButAddresses(built[i], joined[i]);
      GroupRightIff(c, built, i);
    }
    if NoRepeatedAddress(c) {
      forall i | 0 <= i < |built| ensures built[i] == joined[i] { assert names[i] in Elems(names); }
    }
    if built == joined {
      forall g | g in c.groups ensures CleanGroup(c, g) {
        assert g in Elems(names);
        var i :| 0 <= i < |names| && names[i] == g;
      }
    }
  }

  class RRCollector {
    const discoveryDomain: Text
    const groups: GroupCollector
    const services: ServicesCollector
    const endpoints: EndpointCollector

    ghost predicate Valid()
      reads this, groups, services, endpoints
    {
      groups.Valid() && services.Valid() && endpoints.Valid() && NoBareEndpoint(endpoints.Contents)
    }

    ghost function Contents(): Collected
      reads this, groups, services, endpoints
    {
      Collected(groups.Contents, services.services, endpoints.Contents)
    }

    constructor (discoveryDomain: Text)
      ensures Valid() && Contents() == NOTHING && this.discoveryDomain == discoveryDomain
      ensures fresh(groups) && fresh(services) && fresh(endpoints)
    {
      this.discoveryDomain := discoveryDomain;
      groups := new GroupCollector();
      services := new ServicesCollector();
      endpoints := new EndpointCollector();
    }

    /** Records of other types, and TXT records of other names, are ignored. */
    method AddRR(rr: RR) returns (err: Option<DefinitionError>)
      requires Valid()
      modifies groups, services, endpoints
      ensures Valid() && (Contents(), err) == AddRecord(old(Contents()), discoveryDomain, rr)
    {
      err := None;
      match rr {
        case TXT(name, txt) =>
          if name == discoveryDomain {
            err := groups.AddTxt(txt);
          }
        case SRV(name, target) => services.Add(name, target);
        case A(name, addr) => endpoints.AddIP4(name, addr);
        case AAAA(name, addr) => endpoints.AddIP6(name, addr);
        case Unrecognized(_) =>
      }
    }

    /** The loop in FileIngester.ingestFile that feeds the collector. */
    method AddAll(records: seq<RR>) returns (err: Option<DefinitionError>)
      requires Valid()
      modifies groups, services, endpoints
      ensures Valid() && (Contents(), err) == AddRecords(old(Contents()), discoveryDomain, records)
    {
      for i := 0 to |records|
        invariant Valid()
        invariant AddRecords(Contents(), discoveryDomain, records[i..]) ==
            AddRecords(old(Contents()), discoveryDomain, records)
      {
        assert records[i..][0] == records[i] && records[i..][1..] == records[i + 1..];
        err := AddRR(records[i]);
        if err.Some? {
          return;
        }
      }
      err := None;
    }

    method Reset()
      requires Valid()
      modifies groups, services, endpoints
      ensures Valid() && Contents() == NOTHING
      ensures groups.cells == old(groups.cells) && endpoints.cells == old(endpoints.cells)
    {
      groups.Clear();
      services.Clear();
      endpoints.Clear();
    }

    /** The groups that the collected records define, and an empty collector. */
    method Build() returns (gps: GroupsRef)
      requires Valid()
      modifies groups, services, endpoints
      ensures Valid() && Contents() == NOTHING
      ensures Indexes(gps.byName, RefNames(gps.all))
      ensures AllReadable(groups.cells, endpoints.cells, gps.all)
      ensures IsBuilt(old(Contents()), ReadGroups(groups.cells, endpoints.cells, gps.all))
    {
      ghost var c := Contents();
      var skeleton := groups.NewGroups();
      var all := FillGroups(skeleton.all, c);
      SameRefNames(all, skeleton.all);
      gps := GroupsRef(skeleton.byName, all);
      Reset();
    }

    /** The groups with their endpoints. */
    method FillGroups(skeleton: seq<GroupRef>, ghost c: Collected) returns (all: seq<GroupRef>)
      requires Valid() && c.services == services.services && c.endpoints == endpoints.Contents
      requires RefNames(skeleton) == TextListing(c.groups.Keys)
      requires forall i :: 0 <= i < |skeleton| ==> ListsServices(groups.cells, skeleton[i], c)
      modifies endpoints`cells, endpoints`Contents
      ensures Valid() && |all| == |skeleton|
      ensures forall i :: 0 <= i < |all| ==> all[i].name == skeleton[i].name
      ensures AllReadable(groups.cells, endpoints.cells, all)
      ensures IsBuilt(c, ReadGroups(groups.cells, endpoints.cells, all))
    {
      ghost var found, visits;
      all, found, visits := FillEach(skeleton, c);
      TrackedOutcome(endpoints.cells, endpoints.owner, endpoints.endpoints, c.endpoints, visits, Flat(found));
      FilledGroups(c, groups.cells, endpoints.cells, skeleton, all, found, visits);
    }

    /** The loop in Build. */
    method FillEach(skeleton: seq<GroupRef>, ghost c: Collected)
      returns (all: seq<GroupRef>, ghost found: seq<seq<EndpointRef>>, ghost visits: seq<Visit>)
      requires Valid() && c.services == services.services && c.endpoints == endpoints.Contents
      requires forall i :: 0 <= i < |skeleton| ==> ListsServices(groups.cells, skeleton[i], c)
      modifies endpoints`cells, endpoints`Contents
      ensures Valid() && |found| == |all| && Filling(c, skeleton, all, found)
      ensures endpoints.Tracks(c.endpoints, visits, Flat(found))
    {
      all, found, visits := skeleton, [], [];
      for i := 0 to |skeleton|
        invariant Valid() && Filling(c, skeleton, all, found) && |found| == i
        invariant endpoints.Tracks(c.endpoints, visits, Flat(found))
      {
        var es;
        ghost var more;
        es, more := Fill(all[i], c, visits, Flat(found));
        FlatOneMore(found, es);
        FillOne(c, skeleton, all, found, es);
        all, found, visits := all[i := all[i].(endpoints := es)], found + [es], visits + more;
      }
    }

    /** The endpoints for one group. */
    method Fill(g: GroupRef, ghost c: Collected, ghost visits: seq<Visit>, ghost earlier: seq<EndpointRef>)
      returns (es: seq<EndpointRef>, ghost more: seq<Visit>)
      requires Valid() && c.services == services.services && ListsServices(groups.cells, g, c)
      requires NoBareEndpoint(c.endpoints) && endpoints.Tracks(c.endpoints, visits, earlier)
      modifies endpoints`cells, endpoints`Contents
      ensures Valid() && endpoints.Tracks(c.endpoints, visits + more, earlier + es)
      ensures NamedAs(es, TextListing(Reached(CollectedFacts(c), g.name)))
    {
      var names := TargetsFor(g, c);
      ReplayKeys(c.endpoints, visits);
      es, more := endpoints.EndpointsFor(names, c.endpoints, visits, earlier);
      StillNotBare(c.endpoints, visits + more);
      FoundNames(endpoints.cells, endpoints.owner, endpoints.endpoints, visits, more, earlier, es);
    }

    /** The names under which to look for endpoints: with an address or without. */
    method TargetsFor(g: GroupRef, ghost c: Collected) returns (names: seq<Text>)
      requires c.services == services.services && ListsServices(groups.cells, g, c) && NoBareEndpoint(c.endpoints)
      ensures Hits(names, c.endpoints.Keys) == TextListing(Reached(CollectedFacts(c), g.name))
    {
      names := services.TargetNames(Read(groups.cells, g.services));
      ReachedByHits(c, g.name);
    }
  }

  lemma SameRefNames(all: seq<GroupRef>, others: seq<GroupRef>)
    requires |all| == |others| && forall i :: 0 <= i < |all| ==> all[i].name == others[i].name
    ensures RefNames(all) == RefNames(others)
  {
  }

  ghost predicate NamedAs(es: seq<EndpointRef>, names: seq<Text>) {
    |es| == |names| && forall i :: 0 <= i < |es| ==> es[i].originalName == names[i]
  }

  /** Lists that do not change their lengths do not become empty. */
  lemma StillNotBare(orig: map<Text, Lists>, visits: seq<Visit>)
    requires NoBareEndpoint(orig) && Legal(orig, visits)
    ensures NoBareEndpoint(Replay(orig, visits))
  {
    ReplayKeys(orig, visits);
    forall t | t in orig ensures Replay(orig, visits)[t].ip4 != [] || Replay(orig, visits)[t].ip6 != [] {
      VisitsWear(orig, visits, t);
    }
  }

  lemma FoundNames(
    cells: seq<seq<Addr>>, owner: map<nat, Text>, endpoints: map<Text, EndpointRef>,
    visits: seq<Visit>, more: seq<Visit>,
    earlier: seq<EndpointRef>, es: seq<EndpointRef>)
    requires |visits| == |earlier| && Tracked(cells, owner, endpoints, visits + more, earlier + es)
    ensures NamedAs(es, VisitTargets(more))
  {
    var allVisits, all := visits + more, earlier + es;
    TrackedEach(cells, owner, endpoints, allVisits, all, |all|);
    forall at | 0 <= at < |allVisits| ensures all[at].originalName == allVisits[at].target {
      assert TrackedAt(cells, owner, endpoints, allVisits, all, at);
    }
    NamesBehind(visits, more, earlier, es);
  }

  lemma NamesBehind(visits: seq<Visit>, more: seq<Visit>, earlier: seq<EndpointRef>, es: seq<EndpointRef>)
    requires |visits| == |earlier| && |more| == |es|
    requires forall at :: 0 <= at < |visits + more| ==> (earlier + es)[at].originalName == (visits + more)[at].target
    ensures NamedAs(es, VisitTargets(more))
  {
    forall i | 0 <= i < |es| ensures es[i].originalName == more[i].target {
      var at := |visits| + i;
      assert (visits + more)[at] == more[i] && (earlier + es)[at] == es[i];
    }
  }

  ghost predicate ListsServices(texts: seq<seq<Text>>, g: GroupRef, c: Collected) {
    g.name in c.groups && InBounds(texts, g.services) && Read(texts, g.services) == TextListing(Elems(c.groups[g.name]))
  }

  /** The first groups have got the endpoints found for them, the others are as they were. */
  ghost predicate Filling(c: Collected, skeleton: seq<GroupRef>, all: seq<GroupRef>, found: seq<seq<EndpointRef>>) {
    && |all| == |skeleton| && |found| <= |all|
    && (forall j :: 0 <= j < |found| ==> all[j] == skeleton[j].(endpoints := found[j]))
    && (forall j :: |found| <= j < |all| ==> all[j] == skeleton[j])
    && (forall j :: 0 <= j < |found| ==> NamedAs(found[j], TextListing(Reached(CollectedFacts(c), skeleton[j].name))))
  }

  lemma FillOne(c: Collected, skeleton: seq<GroupRef>, all: seq<GroupRef>, found: seq<seq<EndpointRef>>,
      es: seq<EndpointRef>)
    requires Filling(c, skeleton, all, found) && |found| < |all|
    requires NamedAs(es, TextListing(Reached(CollectedFacts(c), skeleton[|found|].name)))
    ensures Filling(c, skeleton, all[|found| := all[|found|].(endpoints := es)], found + [es])
  {
  }

  lemma FilledReadable(
    c: Collected, texts: seq<seq<Text>>, addrs: seq<seq<Addr>>, skeleton: seq<GroupRef>, all: seq<GroupRef>,
    found: seq<seq<EndpointRef>>)
    requires forall i :: 0 <= i < |skeleton| ==> ListsServices(texts, skeleton[i], c)
    requires Filling(c, skeleton, all, found) && |found| == |all| && FoundInBounds(addrs, Flat(found))
    ensures AllReadable(texts, addrs, all)
    ensures forall i :: 0 <= i < |all| ==> all[i].name == skeleton[i].name && all[i].endpoints == found[i]
  {
    forall j | 0 <= j < |found| ensures FoundInBounds(addrs, found[j]) {
      PartsInBounds(addrs, found, j);
    }
  }

  /** Following the headers of the filled groups gives groups that may be built. */
  lemma FilledGroups(
    c: Collected, texts: seq<seq<Text>>, addrs: seq<seq<Addr>>, skeleton: seq<GroupRef>, all: seq<GroupRef>,
    found: seq<seq<EndpointRef>>, visits: seq<Visit>)
    requires NoBareEndpoint(c.endpoints) && RefNames(skeleton) == TextListing(c.groups.Keys)
    requires forall i :: 0 <= i < |skeleton| ==> ListsServices(texts, skeleton[i], c)
    requires Filling(c, skeleton, all, found) && |found| == |all|
    requires FoundInBounds(addrs, Flat(found)) && Outcome(c.endpoints, visits, ReadEndpoints(addrs, Flat(found)))
    ensures forall i :: 0 <= i < |all| ==> all[i].name == skeleton[i].name
    ensures AllReadable(texts, addrs, all) && IsBuilt(c, ReadGroups(texts, addrs, all))
  {
    FilledReadable(c, texts, addrs, skeleton, all, found);
    var built := ReadGroups(texts, addrs, all);
    FilledNames(c, texts, addrs, skeleton, all, found);
    FlatReadGroups(texts, addrs, all, found);
    BuiltBy(c, visits, built, ReadEndpoints(addrs, Flat(found)));
  }

  lemma BuiltBy(c: Collected, visits: seq<Visit>, built: seq<Group>, es: seq<Endpoint>)
    requires NoBareEndpoint(c.endpoints) && SameButAddresses(built, Join(CollectedFacts(c)))
    requires Outcome(c.endpoints, visits, es) && AllEndpoints(built) == es
    ensures IsBuilt(c, built)
  {
  }

  lemma PartsInBounds(addrs: seq<seq<Addr>>, found: seq<seq<EndpointRef>>, j: nat)
    requires FoundInBounds(addrs, Flat(found)) && j < |found|
    ensures FoundInBounds(addrs, found[j])
  {
    forall k | 0 <= k < |found[j]| ensures EndpointInBounds(addrs, found[j][k]) {
      FlatAt(found, j, k);
    }
  }

  lemma {:induction false} FlatRead(addrs: seq<seq<Addr>>, found: seq<seq<EndpointRef>>, lists: seq<seq<Endpoint>>)
    requires FoundInBounds(addrs, Flat(found)) && |lists| == |found|
    requires forall j :: 0 <= j < |found| ==>
        FoundInBounds(addrs, found[j]) && lists[j] == ReadEndpoints(addrs, found[j])
    ensures Flat(lists) == ReadEndpoints(addrs, Flat(found))
  {
    if found != [] {
      var last := |found| - 1;
      var front := Flat(found[..last]);
      assert Flat(found) == front + found[last];
      assert forall i :: 0 <= i < |front| ==> front[i] == Flat(found)[i];
      FlatRead(addrs, found[..last], lists[..last]);
    }
  }

  lemma FlatReadGroups(texts: seq<seq<Text>>, addrs: seq<seq<Addr>>, all: seq<GroupRef>, found: seq<seq<EndpointRef>>)
    requires AllReadable(texts, addrs, all) && |found| == |all| && FoundInBounds(addrs, Flat(found))
    requires forall i :: 0 <= i < |all| ==> all[i].endpoints == found[i]
    ensures AllEndpoints(ReadGroups(texts, addrs, all)) == ReadEndpoints(addrs, Flat(found))
  {
    FlatRead(addrs, found, EndpointLists(ReadGroups(texts, addrs, all)));
  }

  /** Every group's name, services and endpoint names are those of the join. */
  lemma FilledNames(
    c: Collected, texts: seq<seq<Text>>, addrs: seq<seq<Addr>>, skeleton: seq<GroupRef>, all: seq<GroupRef>,
    found: seq<seq<EndpointRef>>)
    requires RefNames(skeleton) == TextListing(c.groups.Keys) && AllReadable(texts, addrs, all)
    requires forall i :: 0 <= i < |skeleton| ==> ListsServices(texts, skeleton[i], c)
    requires Filling(c, skeleton, all, found) && |found| == |all|
    ensures SameButAddresses(ReadGroups(texts, addrs, all), Join(CollectedFacts(c)))
  {
    var built, joined := ReadGroups(texts, addrs, all), Join(CollectedFacts(c));
    CollectedNames(c);
    forall i | 0 <= i < |all| ensures SameGroupButAddresses(built[i], joined[i]) {
      assert RefNames(skeleton)[i] == skeleton[i].name;
      assert joined[i] == GroupOf(CollectedFacts(c), skeleton[i].name);
      ServicesCollected(c, skeleton[i].name);
      assert NamedAs(found[i], TextListing(Reached(CollectedFacts(c), skeleton[i].name)));
    }
  }
}
