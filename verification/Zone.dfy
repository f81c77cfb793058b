/** What zone records say, and the groups of endpoints that follow from it. */
module Zone {
  import opened Ordering
  import opened Wrappers
  import opened GroupDefinition

  datatype RR =
    | TXT(name: Text, txt: seq<Text>)
    | SRV(name: Text, target: Text)
    | A(name: Text, addr: Addr)
    | AAAA(name: Text, addr: Addr)
    | Unrecognized(name: Text)

  datatype Endpoint = Endpoint(originalName: Text, ip4: seq<Addr>, ip6: seq<Addr>)

  datatype Group = Group(name: Text, services: seq<Text>, endpoints: seq<Endpoint>)

  // ---- the relations that a zone states

  datatype Fact =
    | Defines(group: Text)
    | Serves(group: Text, service: Text)
    | Targets(service: Text, target: Text)
    | HasIP4(target: Text, addr: Addr)
    | HasIP6(target: Text, addr: Addr)

  ghost function TextFacts(txt: Text): set<Fact> {
    match ParseGroupDefinition(txt)
    case Err(_) => {}
    case Ok(def) => {Defines(def.name)} + (set s | s in def.services :: Serves(def.name, s))
  }

  ghost function RecordFacts(domain: Text, rr: RR): set<Fact> {
    match rr
    case TXT(name, txt) => if name == domain then set t, f | t in txt && f in TextFacts(t) :: f else {}
    case SRV(name, target) => {Targets(name, target)}
    case A(name, addr) => {HasIP4(name, addr)}
    case AAAA(name, addr) => {HasIP6(name, addr)}
    case Unrecognized(_) => {}
  }

  ghost function ZoneFacts(domain: Text, records: set<RR>): set<Fact> {
    set r, f | r in records && f in RecordFacts(domain, r) :: f
  }

  // ---- the join of those relations

  ghost function TextListing(s: set<Text>): seq<Text> {
    TextOrder();
    Listing(s, TextLess)
  }

  ghost function AddrListing(s: set<Addr>): seq<Addr> {
    AddrOrder();
    Listing(s, AddrLess)
  }

  lemma TextListingLists(s: set<Text>)
    ensures var xs := TextListing(s); Ascending(xs, TextLess) && NoDup(xs) && Elems(xs) == s && |xs| == |s|
  {
    TextOrder();
    ListingLists(s, TextLess);
  }

  lemma AddrListingLists(s: set<Addr>)
    ensures var xs := AddrListing(s); Ascending(xs, AddrLess) && NoDup(xs) && Elems(xs) == s && |xs| == |s|
  {
    AddrOrder();
    ListingLists(s, AddrLess);
  }

  lemma TextListingUnique(xs: seq<Text>)
    requires Ascending(xs, TextLess)
    ensures xs == TextListing(Elems(xs))
  {
    TextOrder();
    ListingUnique(xs, TextLess);
  }

  ghost function GroupNames(facts: set<Fact>): set<Text> {
    set f | f in facts && f.Defines? :: f.group
  }

  ghost function ServicesOf(facts: set<Fact>, group: Text): set<Text> {
    set f | f in facts && f.Serves? && f.group == group :: f.service
  }

  ghost function TargetsOf(facts: set<Fact>, services: set<Text>): set<Text> {
    set f | f in facts && f.Targets? && f.service in services :: f.target
  }

  ghost function Addressed(facts: set<Fact>): set<Text> {
    set f | f in facts && (f.HasIP4? || f.HasIP6?) :: f.target
  }

  ghost function IP4Of(facts: set<Fact>, target: Text): set<Addr> {
    set f | f in facts && f.HasIP4? && f.target == target :: f.addr
  }

  ghost function IP6Of(facts: set<Fact>, target: Text): set<Addr> {
    set f | f in facts && f.HasIP6? && f.target == target :: f.addr
  }

  /** The targets of a group that have an address. */
  ghost function Reached(facts: set<Fact>, group: Text): set<Text> {
    TargetsOf(facts, ServicesOf(facts, group)) * Addressed(facts)
  }

  ghost function EndpointOf(facts: set<Fact>, target: Text): Endpoint {
    Endpoint(target, AddrListing(IP4Of(facts, target)), AddrListing(IP6Of(facts, target)))
  }

  ghost function GroupOf(facts: set<Fact>, group: Text): Group {
    var targets := TextListing(Reached(facts, group));
    Group(group, TextListing(ServicesOf(facts, group)),
          seq(|targets|, i requires 0 <= i < |targets| => EndpointOf(facts, targets[i])))
  }

  /** The groups a zone defines, in name order. */
  ghost function Join(facts: set<Fact>): seq<Group> {
    var names := TextListing(GroupNames(facts));
    seq(|names|, i requires 0 <= i < |names| => GroupOf(facts, names[i]))
  }

  ghost function Names(groups: seq<Group>): seq<Text> {
    seq(|groups|, i requires 0 <= i < |groups| => groups[i].name)
  }

  /** Every name leads to the position it has in `names`. */
  ghost predicate Indexes(byName: map<Text, nat>, names: seq<Text>) {
    && byName.Keys == Elems(names)
    && forall i :: 0 <= i < |names| ==> byName[names[i]] == i
  }

  // ---- the join in terms of the records

  /** A text at the discovery domain defines the group, with the service among others. */
  ghost predicate Says(domain: Text, r: RR, txt: Text, group: Text) {
    && r.TXT? && r.name == domain && txt in r.txt
    && ParseGroupDefinition(txt).Ok? && ParseGroupDefinition(txt).value.name == group
  }

  lemma RecordsSay(domain: Text, records: set<RR>, group: Text, service: Text, services: set<Text>, target: Text,
      addr: Addr)
    ensures var facts := ZoneFacts(domain, records);
      && (group in GroupNames(facts) <==> exists r, txt :: r in records && Says(domain, r, txt, group))
      && (service in ServicesOf(facts, group) <==>
            exists r, txt :: r in records && Says(domain, r, txt, group)
              && service in ParseGroupDefinition(txt).value.services)
      && (target in TargetsOf(facts, services) <==> exists s :: s in services && SRV(s, target) in records)
      && (addr in IP4Of(facts, target) <==> A(target, addr) in records)
      && (addr in IP6Of(facts, target) <==> AAAA(target, addr) in records)
      && (target in Addressed(facts) <==> exists a :: A(target, a) in records || AAAA(target, a) in records)
  {
    DefinitionsSay(domain, records, group, service);
    TargetsSay(domain, records, services, target);
    AddressesSay(domain, records, target, addr);
    if target in Addressed(ZoneFacts(domain, records)) {
      var f :| f in ZoneFacts(domain, records) && (f.HasIP4? || f.HasIP6?) && f.target == target;
      AddressesSay(domain, records, target, f.addr);
    }
    if a :| A(target, a) in records || AAAA(target, a) in records {
      AddressesSay(domain, records, target, a);
    }
  }

  lemma SaidIsFact(domain: Text, records: set<RR>, r: RR, txt: Text, group: Text, service: Text)
    requires r in records && Says(domain, r, txt, group)
    ensures Defines(group) in ZoneFacts(domain, records)
    ensures service in ParseGroupDefinition(txt).value.services ==> Serves(group, service) in ZoneFacts(domain, records)
  {
    assert Defines(group) in TextFacts(txt);
    assert Defines(group) in RecordFacts(domain, r);
    if service in ParseGroupDefinition(txt).value.services {
      assert Serves(group, service) in TextFacts(txt);
      assert Serves(group, service) in RecordFacts(domain, r);
    }
  }

  lemma DefinitionsSay(domain: Text, records: set<RR>, group: Text, service: Text)
    ensures var facts := ZoneFacts(domain, records);
      && (group in GroupNames(facts) <==> exists r, txt :: r in records && Says(domain, r, txt, group))
      && (service in ServicesOf(facts, group) <==>
            exists r, txt :: r in records && Says(domain, r, txt, group)
              && service in ParseGroupDefinition(txt).value.services)
  {
    var facts := ZoneFacts(domain, records);
    forall f | f in facts && (f.Defines? || f.Serves?)
      ensures exists r, txt ::
        r in records && Says(domain, r, txt, f.group)
        && (f.Serves? ==> f.service in ParseGroupDefinition(txt).value.services)
    {
      var r :| r in records && f in RecordFacts(domain, r);
      var txt :| txt in r.txt && f in TextFacts(txt);
      assert Says(domain, r, txt, f.group);
    }
    forall r, txt | r in records && Says(domain, r, txt, group)
      ensures Defines(group) in facts
      ensures service in ParseGroupDefinition(txt).value.services ==> Serves(group, service) in facts
    {
      SaidIsFact(domain, records, r, txt, group, service);
    }
    assert group in GroupNames(facts) <==> Defines(group) in facts;
    assert service in ServicesOf(facts, group) <==> Serves(group, service) in facts;
  }

  lemma TargetsSay(domain: Text, records: set<RR>, services: set<Text>, target: Text)
    ensures target in TargetsOf(ZoneFacts(domain, records), services) <==>
      exists s :: s in services && SRV(s, target) in records
  {
    var facts := ZoneFacts(domain, records);
    if target in TargetsOf(facts, services) {
      var f :| f in facts && f.Targets? && f.service in services && f.target == target;
      var r :| r in records && f in RecordFacts(domain, r);
      assert r == SRV(f.service, target);
    }
    if s :| s in services && SRV(s, target) in records {
      assert Targets(s, target) in RecordFacts(domain, SRV(s, target));
      assert Targets(s, target) in facts;
    }
  }

  lemma AddressesSay(domain: Text, records: set<RR>, target: Text, addr: Addr)
    ensures var facts := ZoneFacts(domain, records);
      && (addr in IP4Of(facts, target) <==> A(target, addr) in records)
      && (addr in IP6Of(facts, target) <==> AAAA(target, addr) in records)
      && (HasIP4(target, addr) in facts <==> A(target, addr) in records)
      && (HasIP6(target, addr) in facts <==> AAAA(target, addr) in records)
  {
    var facts := ZoneFacts(domain, records);
    assert HasIP4(target, addr) in RecordFacts(domain, A(target, addr));
    assert HasIP6(target, addr) in RecordFacts(domain, AAAA(target, addr));
    if HasIP4(target, addr) in facts {
      var r :| r in records && HasIP4(target, addr) in RecordFacts(domain, r);
    }
    if HasIP6(target, addr) in facts {
      var r :| r in records && HasIP6(target, addr) in RecordFacts(domain, r);
    }
    assert addr in IP4Of(facts, target) <==> HasIP4(target, addr) in facts;
    assert addr in IP6Of(facts, target) <==> HasIP6(target, addr) in facts;
  }

  /** Everything in the join is in ascending order, once, and from the relation it is to come from. */
  lemma JoinIsListed(facts: set<Fact>, i: nat)
    requires i < |Join(facts)|
    ensures
      var g := Join(facts)[i];
      && Ascending(Names(Join(facts)), TextLess) && Elems(Names(Join(facts))) == GroupNames(facts)
      && Ascending(g.services, TextLess) && Elems(g.services) == ServicesOf(facts, g.name)
      && Ascending(EndpointNamesOf(g), TextLess)
      && Elems(EndpointNamesOf(g)) == TargetsOf(facts, ServicesOf(facts, g.name)) * Addressed(facts)
      && forall k :: 0 <= k < |g.endpoints| ==>
        && Ascending(g.endpoints[k].ip4, AddrLess) && Ascending(g.endpoints[k].ip6, AddrLess)
        && Elems(g.endpoints[k].ip4) == IP4Of(facts, g.endpoints[k].originalName)
        && Elems(g.endpoints[k].ip6) == IP6Of(facts, g.endpoints[k].originalName)
  {
    var g, names := Join(facts)[i], TextListing(GroupNames(facts));
    TextListingLists(GroupNames(facts));
    assert Names(Join(facts)) == names;
    TextListingLists(ServicesOf(facts, g.name));
    TextListingLists(Reached(facts, g.name));
    assert EndpointNamesOf(g) == TextListing(Reached(facts, g.name));
    forall k | 0 <= k < |g.endpoints|
      ensures g.endpoints[k] == EndpointOf(facts, g.endpoints[k].originalName)
      ensures Ascending(g.endpoints[k].ip4, AddrLess) && Ascending(g.endpoints[k].ip6, AddrLess)
      ensures Elems(g.endpoints[k].ip4) == IP4Of(facts, g.endpoints[k].originalName)
      ensures Elems(g.endpoints[k].ip6) == IP6Of(facts, g.endpoints[k].originalName)
    {
      AddrListingLists(IP4Of(facts, g.endpoints[k].originalName));
      AddrListingLists(IP6Of(facts, g.endpoints[k].originalName));
    }
  }

  ghost function EndpointNamesOf(g: Group): seq<Text> {
    seq(|g.endpoints|, k requires 0 <= k < |g.endpoints| => g.endpoints[k].originalName)
  }

  // ---- non-interference

  /** Whether a fact says something about a group: its definition, its services, its targets' addresses. */
  ghost predicate Concerns(facts: set<Fact>, group: Text, f: Fact) {
    match f
    case Defines(g) => g == group
    case Serves(g, _) => g == group
    case Targets(s, _) => s in ServicesOf(facts, group)
    case HasIP4(t, _) => t in TargetsOf(facts, ServicesOf(facts, group))
    case HasIP6(t, _) => t in TargetsOf(facts, ServicesOf(facts, group))
  }

  /** Facts that do not concern a group leave it exactly as it was. */
  lemma NonInterference(facts: set<Fact>, more: set<Fact>, group: Text)
    requires forall f :: f in more ==> !Concerns(facts, group, f)
    ensures group in GroupNames(facts + more) <==> group in GroupNames(facts)
    ensures Reached(facts + more, group) == Reached(facts, group)
    ensures GroupOf(facts + more, group) == GroupOf(facts, group)
  {
    var all := facts + more;
    var services := ServicesOf(facts, group);
    assert ServicesOf(all, group) == services;
    assert TargetsOf(all, services) == TargetsOf(facts, services);
    var targets := TargetsOf(facts, services);
    assert targets * Addressed(all) == targets * Addressed(facts) by {
      forall t | t in targets && t in Addressed(all) ensures t in Addressed(facts) {
        var f :| f in all && (f.HasIP4? || f.HasIP6?) && f.target == t;
        assert f !in more;
      }
    }
    forall t | t in targets ensures EndpointOf(all, t) == EndpointOf(facts, t) {
      assert IP4Of(all, t) == IP4Of(facts, t);
      assert IP6Of(all, t) == IP6Of(facts, t);
    }
    var xs := TextListing(Reached(facts, group));
    TextListingLists(Reached(facts, group));
    forall i | 0 <= i < |xs| ensures EndpointOf(all, xs[i]) == EndpointOf(facts, xs[i]) {
      assert xs[i] in Elems(xs);
    }
    assert GroupOf(all, group).endpoints == GroupOf(facts, group).endpoints;
  }

  // ---- what a collector holds: the same facts, in the order in which they came

  datatype Lists = Lists(ip4: seq<Addr>, ip6: seq<Addr>)

  datatype Collected = Collected(
    groups: map<Text, seq<Text>>, services: map<Text, seq<Text>>, endpoints: map<Text, Lists>)

  const NOTHING := Collected(map[], map[], map[])

  function At<T>(m: map<Text, seq<T>>, key: Text): seq<T> { if key in m then m[key] else [] }

  function ListsAt(m: map<Text, Lists>, key: Text): Lists { if key in m then m[key] else Lists([], []) }

  function AddDefinition(groups: map<Text, seq<Text>>, def: Definition): map<Text, seq<Text>> {
    groups[def.name := At(groups, def.name) + def.services]
  }

  /** Every text up to the first one that does not parse. */
  function AddTexts(groups: map<Text, seq<Text>>, texts: seq<Text>): (map<Text, seq<Text>>, Option<DefinitionError>)
    decreases texts
  {
    if texts == [] then (groups, None)
    else
      match ParseGroupDefinition(texts[0])
      case Err(e) => (groups, Some(e))
      case Ok(def) => AddTexts(AddDefinition(groups, def), texts[1..])
  }

  function AddAddress(endpoints: map<Text, Lists>, rr: RR): map<Text, Lists>
    requires rr.A? || rr.AAAA?
  {
    var known := ListsAt(endpoints, rr.name);
    endpoints[rr.name := if rr.A? then known.(ip4 := known.ip4 + [rr.addr]) else known.(ip6 := known.ip6 + [rr.addr])]
  }

  function AddRecord(c: Collected, domain: Text, rr: RR): (Collected, Option<DefinitionError>) {
    match rr
    case TXT(name, txt) =>
      if name == domain then
        var (groups, err) := AddTexts(c.groups, txt);
        (c.(groups := groups), err)
      else (c, None)
    case SRV(name, target) => (c.(services := c.services[name := At(c.services, name) + [target]]), None)
    case A(_, _) => (c.(endpoints := AddAddress(c.endpoints, rr)), None)
    case AAAA(_, _) => (c.(endpoints := AddAddress(c.endpoints, rr)), None)
    case Unrecognized(_) => (c, None)
  }

  /** Feeding records one after the other, until the first error. */
  function AddRecords(c: Collected, domain: Text, records: seq<RR>): (Collected, Option<DefinitionError>)
    decreases records
  {
    if records == [] then (c, None)
    else
      var (next, err) := AddRecord(c, domain, records[0]);
      if err.Some? then (next, err) else AddRecords(next, domain, records[1..])
  }

  /** The texts before the first one that does not parse are taken, and its error is the one returned. */
  lemma {:induction false} TextsUpToError(groups: map<Text, seq<Text>>, texts: seq<Text>, n: nat)
    requires n < |texts| && forall i :: 0 <= i < n ==> ParseGroupDefinition(texts[i]).Ok?
    ensures AddTexts(groups, texts[..n]).1.None?
    ensures ParseGroupDefinition(texts[n]).Err? ==>
      AddTexts(groups, texts) == (AddTexts(groups, texts[..n]).0, Some(ParseGroupDefinition(texts[n]).error))
    decreases texts
  {
    if n > 0 {
      assert texts[..n][0] == texts[0] && texts[..n][1..] == texts[1..][..n - 1];
      TextsUpToError(AddDefinition(groups, ParseGroupDefinition(texts[0]).value), texts[1..], n - 1);
    }
  }

  /** And so are the records before the first one with such a text, and that record's texts before it. */
  lemma {:induction false} RecordsUpToError(c: Collected, domain: Text, records: seq<RR>, n: nat)
    requires n < |records| && AddRecords(c, domain, records[..n]).1.None?
    ensures var before := AddRecords(c, domain, records[..n]).0;
      AddRecord(before, domain, records[n]).1.Some? ==>
        AddRecords(c, domain, records) == AddRecord(before, domain, records[n])
    decreases records
  {
    if n > 0 {
      assert records[..n][0] == records[0] && records[..n][1..] == records[1..][..n - 1];
      RecordsUpToError(AddRecord(c, domain, records[0]).0, domain, records[1..], n - 1);
    }
  }

  ghost function GroupFacts(groups: map<Text, seq<Text>>): set<Fact> {
    (set g | g in groups :: Defines(g)) + (set g, s | g in groups && s in groups[g] :: Serves(g, s))
  }

  ghost function ServiceFacts(services: map<Text, seq<Text>>): set<Fact> {
    set s, t | s in services && t in services[s] :: Targets(s, t)
  }

  ghost function AddressFacts(endpoints: map<Text, Lists>): set<Fact> {
    (set t, a | t in endpoints && a in endpoints[t].ip4 :: HasIP4(t, a)) +
    (set t, a | t in endpoints && a in endpoints[t].ip6 :: HasIP6(t, a))
  }

  ghost function CollectedFacts(c: Collected): set<Fact> {
    GroupFacts(c.groups) + ServiceFacts(c.services) + AddressFacts(c.endpoints)
  }

  /** Endpoints are recorded together with their first address. */
  ghost predicate NoBareEndpoint(endpoints: map<Text, Lists>) {
    forall t :: t in endpoints ==> endpoints[t].ip4 != [] || endpoints[t].ip6 != []
  }

  lemma AddDefinitionFacts(groups: map<Text, seq<Text>>, def: Definition)
    ensures GroupFacts(AddDefinition(groups, def)) ==
            GroupFacts(groups) + {Defines(def.name)} + (set s | s in def.services :: Serves(def.name, s))
  {
    var after := AddDefinition(groups, def);
    assert after[def.name] == At(groups, def.name) + def.services;
  }

  lemma {:induction false} AddTextsFacts(groups: map<Text, seq<Text>>, texts: seq<Text>)
    requires AddTexts(groups, texts).1.None?
    ensures GroupFacts(AddTexts(groups, texts).0) ==
      GroupFacts(groups) + (set t, f | t in texts && f in TextFacts(t) :: f)
    decreases texts
  {
    if texts != [] {
      var def := ParseGroupDefinition(texts[0]).value;
      AddDefinitionFacts(groups, def);
      AddTextsFacts(AddDefinition(groups, def), texts[1..]);
      assert (set t, f | t in texts && f in TextFacts(t) :: f) ==
             TextFacts(texts[0]) + (set t, f | t in texts[1..] && f in TextFacts(t) :: f);
    }
  }

  lemma AddTargetFacts(services: map<Text, seq<Text>>, name: Text, target: Text)
    ensures ServiceFacts(services[name := At(services, name) + [target]]) ==
      ServiceFacts(services) + {Targets(name, target)}
  {
    var after := services[name := At(services, name) + [target]];
    assert forall s :: s in after && s != name ==> after[s] == services[s];
    forall s, t | s in after && t in after[s]
      ensures Targets(s, t) in ServiceFacts(services) + {Targets(name, target)}
    {
      if s == name && t != target { assert t in services[name]; }
    }
    assert target in after[name];
  }

  lemma AddAddressFacts(endpoints: map<Text, Lists>, rr: RR)
    requires rr.A? || rr.AAAA?
    ensures AddressFacts(AddAddress(endpoints, rr)) ==
            AddressFacts(endpoints) + {if rr.A? then HasIP4(rr.name, rr.addr) else HasIP6(rr.name, rr.addr)}
  {
    var after := AddAddress(endpoints, rr);
    assert forall t :: t in after && t != rr.name ==> after[t] == endpoints[t];
    if rr.A? {
      assert after[rr.name].ip4 == ListsAt(endpoints, rr.name).ip4 + [rr.addr];
      assert rr.addr in after[rr.name].ip4;
    } else {
      assert after[rr.name].ip6 == ListsAt(endpoints, rr.name).ip6 + [rr.addr];
      assert rr.addr in after[rr.name].ip6;
    }
  }

  lemma AddRecordFacts(c: Collected, domain: Text, rr: RR)
    requires AddRecord(c, domain, rr).1.None?
    ensures CollectedFacts(AddRecord(c, domain, rr).0) == CollectedFacts(c) + RecordFacts(domain, rr)
    ensures NoBareEndpoint(c.endpoints) ==> NoBareEndpoint(AddRecord(c, domain, rr).0.endpoints)
  {
    match rr
    case TXT(name, txt) => if name == domain { AddTextsFacts(c.groups, txt); }
    case SRV(name, target) => AddTargetFacts(c.services, name, target);
    case A(_, _) => AddAddressFacts(c.endpoints, rr);
    case AAAA(_, _) => AddAddressFacts(c.endpoints, rr);
    case Unrecognized(_) =>
  }

  /** A collector that accepted a stream holds exactly the facts that its records state. */
  lemma {:induction false} AddRecordsFacts(c: Collected, domain: Text, records: seq<RR>)
    requires AddRecords(c, domain, records).1.None?
    ensures CollectedFacts(AddRecords(c, domain, records).0) == CollectedFacts(c) + ZoneFacts(domain, Elems(records))
    ensures NoBareEndpoint(c.endpoints) ==> NoBareEndpoint(AddRecords(c, domain, records).0.endpoints)
    decreases records
  {
    if records == [] {
      assert ZoneFacts(domain, Elems(records)) == {};
    } else {
      var next := AddRecord(c, domain, records[0]).0;
      AddRecordFacts(c, domain, records[0]);
      AddRecordsFacts(next, domain, records[1..]);
      assert Elems(records) == {records[0]} + Elems(records[1..]);
      assert ZoneFacts(domain, Elems(records)) ==
             RecordFacts(domain, records[0]) + ZoneFacts(domain, Elems(records[1..]));
    }
  }
}
