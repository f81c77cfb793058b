/** Small zones whose addresses come out wrong. */
module StreamExamples {
  import opened Ordering
  import opened Wrappers
  import opened Slices
  import opened GroupDefinition
  import opened Zone
  import opened AddressLists
  import opened Collecting
  import opened Streams
  import opened SettledLists
  import opened StreamChanges
  import opened Groups

  /** Two groups, each with a service of its own, and one target. */
  datatype Labels = Labels(g: Text, h: Text, gService: Text, hService: Text, target: Text)

  ghost predicate Usable(n: Labels) {
    && TextLess(n.g, n.h) && n.g != n.h && n.gService != n.hService
    && Token(n.g) && Token(n.h) && Token(n.gService) && Token(n.hService)
    && ComplaintAbout(n.g).None? && ComplaintAbout(n.h).None?
  }

  lemma SomeLabels()
    ensures Usable(Labels("g", "h", "r", "s", "t"))
  {
  }

  ghost function AddressRecords(n: Labels, addrs: seq<Addr>): seq<RR> {
    seq(|addrs|, i requires 0 <= i < |addrs| => A(n.target, addrs[i]))
  }

  /** Group h with service s, whose only target t has these addresses. */
  ghost function Small(domain: Text, n: Labels, addrs: seq<Addr>): seq<RR> {
    [TXT(domain, [Line(n.h, n.hService)]), SRV(n.hService, n.target)] + AddressRecords(n, addrs)
  }

  /** Another group with a service of its own and the same target. */
  ghost function Sharing(domain: Text, n: Labels): seq<RR> {
    [TXT(domain, [Line(n.g, n.gService)]), SRV(n.gService, n.target)]
  }

  lemma DefinitionFacts(group: Text, service: Text)
    requires Token(group) && Token(service) && ComplaintAbout(group).None?
    ensures TextFacts(Line(group, service)) == {Defines(group), Serves(group, service)}
  {
    ParsePrinted(group, service);
    var services := Definition(group, [service]).services;
    assert forall s :: s in services <==> s == service;
  }

  lemma ServiceFactsOf(domain: Text, group: Text, service: Text, target: Text)
    requires Token(group) && Token(service) && ComplaintAbout(group).None?
    ensures ZoneFacts(domain, Elems([TXT(domain, [Line(group, service)]), SRV(service, target)])) ==
            GroupFactSet(group, service, target)
  {
    DefinitionFacts(group, service);
    var txts := [Line(group, service)];
    assert forall t :: t in txts <==> t == txts[0];
    var records := [TXT(domain, txts), SRV(service, target)];
    assert RecordFacts(domain, records[0]) == {Defines(group), Serves(group, service)};
    assert RecordFacts(domain, records[1]) == {Targets(service, target)};
    assert forall r :: r in Elems(records) <==> r == records[0] || r == records[1];
  }

  ghost function AddressFactSet(target: Text, addrs: seq<Addr>): set<Fact> {
    set a | a in addrs :: HasIP4(target, a)
  }

  ghost function GroupFactSet(group: Text, service: Text, target: Text): set<Fact> {
    {Defines(group), Serves(group, service), Targets(service, target)}
  }

  lemma AddressFactsOf(domain: Text, n: Labels, addrs: seq<Addr>)
    ensures ZoneFacts(domain, Elems(AddressRecords(n, addrs))) == AddressFactSet(n.target, addrs)
  {
    var records := AddressRecords(n, addrs);
    forall a | a in addrs ensures HasIP4(n.target, a) in ZoneFacts(domain, Elems(records)) {
      var i :| 0 <= i < |addrs| && addrs[i] == a;
      assert records[i] in Elems(records) && HasIP4(n.target, a) in RecordFacts(domain, records[i]);
    }
  }

  lemma BothFacts(domain: Text, first: seq<RR>, second: seq<RR>)
    ensures ZoneFacts(domain, Elems(first + second)) == ZoneFacts(domain, Elems(first)) +
        ZoneFacts(domain, Elems(second))
  {
    assert Elems(first + second) == Elems(first) + Elems(second);
  }

  lemma SmallFacts(domain: Text, n: Labels, addrs: seq<Addr>)
    requires Usable(n)
    ensures ZoneFacts(domain, Elems(Small(domain, n, addrs))) ==
            GroupFactSet(n.h, n.hService, n.target) + AddressFactSet(n.target, addrs)
  {
    ServiceFactsOf(domain, n.h, n.hService, n.target);
    AddressFactsOf(domain, n, addrs);
    BothFacts(domain, [TXT(domain, [Line(n.h, n.hService)]), SRV(n.hService, n.target)], AddressRecords(n, addrs));
  }

  lemma SharedFacts(domain: Text, n: Labels, addrs: seq<Addr>)
    requires Usable(n)
    ensures ZoneFacts(domain, Elems(Sharing(domain, n))) == GroupFactSet(n.g, n.gService, n.target)
    ensures ZoneFacts(domain, Elems(Small(domain, n, addrs) + Sharing(domain, n))) ==
            ZoneFacts(domain, Elems(Small(domain, n, addrs))) + ZoneFacts(domain, Elems(Sharing(domain, n)))
  {
    ServiceFactsOf(domain, n.g, n.gService, n.target);
    BothFacts(domain, Small(domain, n, addrs), Sharing(domain, n));
  }

  /** A group with one service that has one target with an address. */
  lemma LoneTarget(facts: set<Fact>, group: Text, service: Text, target: Text, a: Addr)
    requires Serves(group, service) in facts && Targets(service, target) in facts && HasIP4(target, a) in facts
    requires forall f :: f in facts && f.Serves? && f.group == group ==> f.service == service
    requires forall f :: f in facts && f.Targets? && f.service == service ==> f.target == target
    ensures ServicesOf(facts, group) == {service} && Reached(facts, group) == {target}
  {
    assert service in ServicesOf(facts, group);
    assert ServicesOf(facts, group) == {service};
    assert target in TargetsOf(facts, {service}) && target in Addressed(facts);
    assert TargetsOf(facts, {service}) == {target};
  }

  lemma LoneGroups(facts: set<Fact>, groups: set<Text>)
    requires forall g :: g in groups ==> Defines(g) in facts
    requires forall f :: f in facts && f.Defines? ==> f.group in groups
    ensures GroupNames(facts) == groups
  {
    forall g | g in groups ensures g in GroupNames(facts) { assert Defines(g) in facts; }
  }

  lemma SmallReached(domain: Text, n: Labels, addrs: seq<Addr>)
    requires Usable(n) && addrs != []
    ensures var facts := ZoneFacts(domain, Elems(Small(domain, n, addrs)));
      GroupNames(facts) == {n.h} && ServicesOf(facts, n.h) == {n.hService} && Reached(facts, n.h) == {n.target}
  {
    SmallFacts(domain, n, addrs);
    SmallSetReached(n, addrs, ZoneFacts(domain, Elems(Small(domain, n, addrs))));
  }

  lemma SmallSetReached(n: Labels, addrs: seq<Addr>, facts: set<Fact>)
    requires addrs != [] && facts == GroupFactSet(n.h, n.hService, n.target) + AddressFactSet(n.target, addrs)
    ensures GroupNames(facts) == {n.h} && ServicesOf(facts, n.h) == {n.hService} && Reached(facts, n.h) == {n.target}
  {
    assert HasIP4(n.target, addrs[0]) in AddressFactSet(n.target, addrs);
    LoneTarget(facts, n.h, n.hService, n.target, addrs[0]);
    LoneGroups(facts, {n.h});
  }

  lemma SharedReached(domain: Text, n: Labels, addrs: seq<Addr>)
    requires Usable(n) && addrs != []
    ensures var facts := ZoneFacts(domain, Elems(Small(domain, n, addrs) + Sharing(domain, n)));
      GroupNames(facts) == {n.g, n.h} && Reached(facts, n.g) == {n.target} && Reached(facts, n.h) == {n.target}
  {
    SmallFacts(domain, n, addrs);
    SharedFacts(domain, n, addrs);
    SharedSetReached(n, addrs, ZoneFacts(domain, Elems(Small(domain, n, addrs) + Sharing(domain, n))));
  }

  lemma SharedSetReached(n: Labels, addrs: seq<Addr>, facts: set<Fact>)
    requires Usable(n) && addrs != []
    requires facts == GroupFactSet(n.h, n.hService, n.target) + AddressFactSet(n.target, addrs)
                      + GroupFactSet(n.g, n.gService, n.target)
    ensures GroupNames(facts) == {n.g, n.h} && Reached(facts, n.g) == {n.target} && Reached(facts, n.h) == {n.target}
  {
    assert HasIP4(n.target, addrs[0]) in AddressFactSet(n.target, addrs);
    LoneTarget(facts, n.h, n.hService, n.target, addrs[0]);
    LoneTarget(facts, n.g, n.gService, n.target, addrs[0]);
    LoneGroups(facts, {n.g, n.h});
  }

  // ---- what is collected

  lemma {:induction false} SmallGiven(domain: Text, n: Labels, addrs: seq<Addr>)
    ensures Given(Small(domain, n, addrs), n.target, false) == addrs
  {
    var records := Small(domain, n, addrs);
    if addrs == [] {
      var front := [TXT(domain, [Line(n.h, n.hService)])];
      assert records[..1] == front && front[..0] == [];
      assert Given(front, n.target, false) == Given([], n.target, false);
    } else {
      var last := |addrs| - 1;
      SmallGiven(domain, n, addrs[..last]);
      assert records[..|records| - 1] == Small(domain, n, addrs[..last]);
      assert addrs == addrs[..last] + [addrs[last]];
    }
  }

  lemma SharedGiven(domain: Text, n: Labels, addrs: seq<Addr>)
    ensures Given(Small(domain, n, addrs) + Sharing(domain, n), n.target, false) == addrs
  {
    SmallGiven(domain, n, addrs);
    var small := Small(domain, n, addrs);
    var both := small + Sharing(domain, n);
    var one := small + [TXT(domain, [Line(n.g, n.gService)])];
    assert both[..|both| - 1] == one && one[..|one| - 1] == small;
  }

  // ---- what is built

  lemma SmallShape(domain: Text, n: Labels, addrs: seq<Addr>, built: seq<Group>)
    requires Usable(n) && addrs != [] && Builds(domain, Small(domain, n, addrs), built)
    ensures |built| == 1 && built[0].name == n.h && |built[0].endpoints| == 1
    ensures AllEndpoints(built) == [built[0].endpoints[0]] && built[0].endpoints[0].originalName == n.target
  {
    SmallReached(domain, n, addrs);
    BuiltZone(domain, Small(domain, n, addrs), built);
    OneListed(n.h);
    OneListed(n.target);
    assert SameGroupButAddresses(built[0], Joined(domain, Small(domain, n, addrs))[0]);
    FlatOne(EndpointLists(built));
  }

  lemma FlatOne<T>(xss: seq<seq<T>>)
    ensures |xss| == 1 ==> Flat(xss) == xss[0]
    ensures |xss| == 2 ==> Flat(xss) == xss[0] + xss[1]
  {
    if |xss| == 2 {
      assert xss[..1][..0] == [];
      assert Flat(xss[..1]) == xss[0];
    }
  }

  /** The only turn on the addresses of the only target. */
  lemma SmallBuilt(domain: Text, n: Labels, addrs: seq<Addr>, built: seq<Group>) returns (turn: Turn)
    requires Usable(n) && addrs != [] && Builds(domain, Small(domain, n, addrs), built)
    ensures |built| == 1 && built[0].name == n.h && |built[0].endpoints| == 1
    ensures Normalized(turn) && turn.was == addrs && built[0].endpoints[0].ip4 == turn.got
  {
    SmallShape(domain, n, addrs, built);
    SmallGiven(domain, n, addrs);
    var orig := CollectedFrom(domain, Small(domain, n, addrs)).endpoints;
    var visits: seq<Visit> :| Outcome(orig, visits, AllEndpoints(built));
    OneVisit(orig, visits, AllEndpoints(built));
    CollectedLists(domain, Small(domain, n, addrs), n.target);
    turn := visits[0].ip4;
  }

  lemma OneVisit(orig: map<Text, Lists>, visits: seq<Visit>, es: seq<Endpoint>)
    requires Outcome(orig, visits, es) && |es| == 1
    ensures visits[0].target == es[0].originalName && visits[0].target in orig
    ensures visits[0].ip4.was == orig[visits[0].target].ip4
    ensures Normalized(visits[0].ip4) && es[0].ip4 == visits[0].ip4.got
  {
    assert visits[..0] == [] && Replay(orig, []) == orig;
    assert ShownAs(visits[0], ListsAt(Replay(orig, visits), visits[0].target), IsLast(visits, 0), es[0]);
  }

  lemma OneListed(t: Text)
    ensures TextListing({t}) == [t]
  {
    var xs := [t];
    assert Elems(xs) == {t};
    TextListingUnique(xs);
  }

  lemma TwoJoined(facts: set<Fact>, g: Text, h: Text, target: Text)
    requires TextLess(g, h) && GroupNames(facts) == {g, h}
    requires Reached(facts, g) == {target} && Reached(facts, h) == {target}
    ensures Join(facts) == [GroupOf(facts, g), GroupOf(facts, h)]
    ensures GroupOf(facts, g).endpoints == GroupOf(facts, h).endpoints == [EndpointOf(facts, target)]
  {
    TwoListed(g, h);
    OneListed(target);
  }

  lemma SharedShape(domain: Text, n: Labels, addrs: seq<Addr>, built: seq<Group>)
    requires Usable(n) && addrs != [] && Builds(domain, Small(domain, n, addrs) + Sharing(domain, n), built)
    ensures |built| == 2 && built[1].name == n.h && |built[0].endpoints| == |built[1].endpoints| == 1
    ensures built[0].endpoints[0].originalName == built[1].endpoints[0].originalName == n.target
  {
    var records := Small(domain, n, addrs) + Sharing(domain, n);
    SharedReached(domain, n, addrs);
    TwoJoined(ZoneFacts(domain, Elems(records)), n.g, n.h, n.target);
    BuiltZone(domain, records, built);
    LikeTwo(built, Joined(domain, records));
  }

  lemma LikeTwo(built: seq<Group>, joined: seq<Group>)
    requires SameButAddresses(built, joined) && |joined| == 2 && |joined[0].endpoints| == |joined[1].endpoints| == 1
    ensures |built| == 2 && built[1].name == joined[1].name && |built[0].endpoints| == |built[1].endpoints| == 1
    ensures built[0].endpoints[0].originalName == joined[0].endpoints[0].originalName
    ensures built[1].endpoints[0].originalName == joined[1].endpoints[0].originalName
  {
    assert SameGroupButAddresses(built[0], joined[0]);
    assert SameGroupButAddresses(built[1], joined[1]);
  }

  lemma TwoListed(s: Text, t: Text)
    requires TextLess(s, t)
    ensures TextListing({s, t}) == [s, t]
  {
    var xs := [s, t];
    assert Elems(xs) == {s, t};
    TextListingUnique(xs);
  }

  /** The two turns on the addresses of the target that the two groups share. */
  lemma SharedBuilt(domain: Text, n: Labels, addrs: seq<Addr>, built: seq<Group>) returns (first: Turn, second: Turn)
    requires Usable(n) && addrs != [] && Builds(domain, Small(domain, n, addrs) + Sharing(domain, n), built)
    ensures |built| == 2 && built[1].name == n.h && |built[1].endpoints| == 1
    ensures Normalized(first) && Normalized(second) && first.was == addrs && second.was == first.now
    ensures built[1].endpoints[0].ip4 == second.got
  {
    var records := Small(domain, n, addrs) + Sharing(domain, n);
    SharedShape(domain, n, addrs, built);
    SharedGiven(domain, n, addrs);
    var visits := SharedVisits(CollectedFrom(domain, records), built);
    CollectedLists(domain, records, n.target);
    first, second := visits[0].ip4, visits[1].ip4;
  }

  lemma SharedVisits(c: Collected, built: seq<Group>) returns (visits: seq<Visit>)
    requires IsBuilt(c, built) && |built| == 2 && |built[0].endpoints| == |built[1].endpoints| == 1
    requires built[0].endpoints[0].originalName == built[1].endpoints[0].originalName
    ensures |visits| == 2 && visits[0].target == built[0].endpoints[0].originalName && visits[0].target in c.endpoints
    ensures visits[0].ip4.was == c.endpoints[visits[0].target].ip4 && visits[1].ip4.was == visits[0].ip4.now
    ensures Normalized(visits[0].ip4) && Normalized(visits[1].ip4)
    ensures built[1].endpoints[0].ip4 == visits[1].ip4.got
  {
    visits :| Outcome(c.endpoints, visits, AllEndpoints(built));
    AllOfTwo(built);
    TwoVisits(c.endpoints, visits, AllEndpoints(built));
  }

  lemma AllOfTwo(built: seq<Group>)
    requires |built| == 2 && |built[0].endpoints| == |built[1].endpoints| == 1
    ensures AllEndpoints(built) == [built[0].endpoints[0], built[1].endpoints[0]]
  {
    FlatOne(EndpointLists(built));
  }

  lemma TwoVisits(orig: map<Text, Lists>, visits: seq<Visit>, es: seq<Endpoint>)
    requires Outcome(orig, visits, es) && |es| == 2 && es[0].originalName == es[1].originalName
    ensures visits[0].target == es[0].originalName && visits[0].target in orig
    ensures visits[0].ip4.was == orig[visits[0].target].ip4 && visits[1].ip4.was == visits[0].ip4.now
    ensures Normalized(visits[0].ip4) && Normalized(visits[1].ip4) && es[1].ip4 == visits[1].ip4.got
  {
    var one := visits[..1];
    assert one[..0] == [] && Replay(orig, []) == orig;
    assert Legal(orig, one) && Replay(orig, one) == Visited(orig, visits[0]);
    assert ShownAs(visits[0], ListsAt(Replay(orig, visits), visits[0].target), IsLast(visits, 0), es[0]);
    assert ShownAs(visits[1], ListsAt(Replay(orig, visits), visits[1].target), IsLast(visits, 1), es[1]);
  }

  // ---- the examples

  /** The one address record of this zone may not be repeated. */
  lemma RepeatedAddressExample(domain: Text, n: Labels, addr: Addr, built: seq<Group>)
    requires Usable(n) && Builds(domain, Small(domain, n, [addr]) + [A(n.target, addr)], built)
    ensures NoRepeats(domain, Small(domain, n, [addr])) &&
        !NoRepeats(domain, Small(domain, n, [addr]) + [A(n.target, addr)])
    ensures built != Joined(domain, Small(domain, n, [addr]))
  {
    var records := Small(domain, n, [addr]);
    var r := A(n.target, addr);
    assert records[2] == r;
    SmallReached(domain, n, [addr]);
    SmallHasNoRepeats(domain, n, addr);
    RepetitionMatters(domain, records, r, n.h);
    assert Elems(records + [r]) == Elems(records);
    BuiltZone(domain, records + [r], built);
  }

  lemma SmallHasNoRepeats(domain: Text, n: Labels, addr: Addr)
    requires Usable(n)
    ensures NoRepeatsIn(domain, Small(domain, n, [addr]), n.h)
  {
    SmallReached(domain, n, [addr]);
    SmallGiven(domain, n, [addr]);
    GivenTwice(Small(domain, n, [addr]), n.target, false);
    SmallHasNoIP6(domain, n, [addr]);
  }

  lemma SmallHasNoIP6(domain: Text, n: Labels, addrs: seq<Addr>)
    ensures !Twice(Small(domain, n, addrs), n.target, true)
  {
    var records := Small(domain, n, addrs);
    assert forall i :: 0 <= i < |records| ==> !records[i].AAAA?;
  }

  lemma OnceEach<T>(listed: seq<T>, s: set<T>, x: T)
    requires ListsOnce(listed, s) && x in s
    ensures multiset(listed)[x] == 1
  {
    NoDupCount(listed, x);
    assert x in Elems(listed);
  }

  /** What a turn makes of a list with duplicates, apart from the order. */
  ghost predicate TurnedBy(turn: Turn, listed: seq<Addr>) {
    && ListsOnce(listed, Elems(turn.was)) && |listed| <= |turn.was|
    && multiset(turn.got) == multiset(turn.was[..|listed|]) + multiset(listed)
    && if turn.shared then turn.now == (turn.got + Zeros(|turn.was|, NoAddr))[..|turn.was|]
       else 2 * |listed| > |turn.was| && turn.now == turn.was[..|listed|] + Zeros(|turn.was| - |listed|, NoAddr)
  }

  lemma DuplicatesTurned(turn: Turn) returns (listed: seq<Addr>)
    requires Normalized(turn) && !NoDup(turn.was)
    ensures TurnedBy(turn, listed)
  {
    listed :| NormalizedBy(turn, listed);
  }

  lemma TwoOfOne<T>(xs: seq<T>, x: T)
    requires multiset(xs) == multiset{x, x}
    ensures xs == [x, x]
  {
    assert |multiset(xs)| == |xs|;
    assert xs[0] in multiset(xs) && xs[1] in multiset(xs);
  }

  /** A first turn on three equal addresses leaves a zero one behind. */
  lemma ThreeEqual(a: Addr, turn: Turn)
    requires a != NoAddr && Normalized(turn) && turn.was == [a, a, a]
    ensures turn.got == [a, a] && turn.now == [a, a, NoAddr]
  {
    assert turn.was[0] == turn.was[1];
    var listed := DuplicatesTurned(turn);
    ThreeEqualBy(a, turn, listed);
  }

  lemma ThreeEqualBy(a: Addr, turn: Turn, listed: seq<Addr>)
    requires a != NoAddr && TurnedBy(turn, listed) && turn.was == [a, a, a]
    ensures turn.got == [a, a] && turn.now == [a, a, NoAddr]
  {
    assert Elems(turn.was) == {a};
    assert listed[0] in Elems(listed) && listed == [a] && turn.was[..1] == [a];
    TwoOfOne(turn.got, a);
  }

  /** A second turn then gives four addresses. */
  lemma ThenFour(a: Addr, turn: Turn)
    requires a != NoAddr && Normalized(turn) && turn.was == [a, a, NoAddr]
    ensures |turn.got| == 4 && NoAddr in turn.got
  {
    assert turn.was[0] == turn.was[1];
    var listed := DuplicatesTurned(turn);
    ThenFourBy(a, turn, listed);
  }

  lemma ThenFourBy(a: Addr, turn: Turn, listed: seq<Addr>)
    requires a != NoAddr && TurnedBy(turn, listed) && turn.was == [a, a, NoAddr]
    ensures |turn.got| == 4 && NoAddr in turn.got
  {
    assert turn.was[2] == NoAddr && Elems(turn.was) == {a, NoAddr};
    assert NoAddr in Elems(listed) && |listed| == 2;
    assert NoAddr in multiset(turn.got) && |multiset(turn.got)| == |turn.got|;
  }

  lemma SharedUnconcerned(domain: Text, n: Labels, addrs: seq<Addr>)
    requires Usable(n) && addrs != []
    ensures Unconcerned(domain, Small(domain, n, addrs), Sharing(domain, n), n.h)
  {
    SmallReached(domain, n, addrs);
    SharedFacts(domain, n, addrs);
    var facts := ZoneFacts(domain, Elems(Small(domain, n, addrs)));
    forall r, f | r in Sharing(domain, n) && f in RecordFacts(domain, r) ensures !Concerns(facts, n.h, f) {
      assert r in Elems(Sharing(domain, n)) && f in ZoneFacts(domain, Elems(Sharing(domain, n)));
      OtherGroup(n, facts, f);
    }
  }

  lemma OtherGroup(n: Labels, facts: set<Fact>, f: Fact)
    requires Usable(n) && ServicesOf(facts, n.h) == {n.hService} && f in GroupFactSet(n.g, n.gService, n.target)
    ensures !Concerns(facts, n.h, f)
  {
  }

  /**
   * Group h reaches a target that was given one address three times. Another group that shares the target does not
   * concern h, but it is visited first: h has two addresses without it and four with it, one of them zero.
   */
  lemma SharedTargetInterferes(domain: Text, n: Labels, a: Addr, built: seq<Group>, after: seq<Group>)
    requires Usable(n) && a != NoAddr && Builds(domain, Small(domain, n, [a, a, a]), built)
    requires Builds(domain, Small(domain, n, [a, a, a]) + Sharing(domain, n), after)
    ensures Unconcerned(domain, Small(domain, n, [a, a, a]), Sharing(domain, n), n.h)
    ensures |built| == 1 && built[0].name == n.h && |built[0].endpoints| == 1 && built[0].endpoints[0].ip4 == [a, a]
    ensures |after| == 2 && after[1].name == n.h && |after[1].endpoints| == 1
    ensures |after[1].endpoints[0].ip4| == 4 && NoAddr in after[1].endpoints[0].ip4
  {
    var addrs := [a, a, a];
    var turn := SmallBuilt(domain, n, addrs, built);
    ThreeEqual(a, turn);
    var first, second := SharedBuilt(domain, n, addrs, after);
    ThreeEqual(a, first);
    ThenFour(a, second);
    SharedUnconcerned(domain, n, addrs);
  }

  /** How often an address occurs after a turn on three of two kinds. */
  lemma TwoKinds(a: Addr, b: Addr, addrs: seq<Addr>, turn: Turn)
    requires a != b && |addrs| == 3 && (forall x :: x in addrs <==> x == a || x == b)
    requires Normalized(turn) && turn.was == addrs
    ensures multiset(turn.got)[a] == multiset([addrs[0], addrs[1]])[a] + 1
  {
    assert Elems(addrs) == {a, b};
    NoDupSize(addrs);
    var listed := DuplicatesTurned(turn);
    TwoKindsBy(a, b, addrs, turn, listed);
  }

  lemma TwoKindsBy(a: Addr, b: Addr, addrs: seq<Addr>, turn: Turn, listed: seq<Addr>)
    requires a != b && |addrs| == 3 && Elems(addrs) == {a, b} && TurnedBy(turn, listed) && turn.was == addrs
    ensures multiset(turn.got)[a] == multiset([addrs[0], addrs[1]])[a] + 1
  {
    assert |listed| == 2 && addrs[..2] == [addrs[0], addrs[1]];
    OnceEach(listed, {a, b}, a);
  }

  /** The order of repeated address records makes a difference: a, b, a comes out with two of a, and a, a, b with
      three. */
  lemma OrderMakesADifference(domain: Text, n: Labels, a: Addr, b: Addr, built: seq<Group>, rebuilt: seq<Group>)
    requires Usable(n) && a != b && Builds(domain, Small(domain, n, [a, b, a]), built) &&
        Builds(domain, Small(domain, n, [a, a, b]), rebuilt)
    ensures multiset(Small(domain, n, [a, b, a])) == multiset(Small(domain, n, [a, a, b]))
    ensures |built| == |rebuilt| == 1 && |built[0].endpoints| == |rebuilt[0].endpoints| == 1
    ensures multiset(built[0].endpoints[0].ip4)[a] == 2 && multiset(rebuilt[0].endpoints[0].ip4)[a] == 3
  {
    Kinds(a, b);
    SmallTwoKinds(domain, n, a, b, [a, b, a], built);
    SmallTwoKinds(domain, n, a, b, [a, a, b], rebuilt);
    Permuted(domain, n, a, b);
  }

  lemma Kinds(a: Addr, b: Addr)
    requires a != b
    ensures forall x :: x in [a, b, a] <==> x == a || x == b
    ensures forall x :: x in [a, a, b] <==> x == a || x == b
    ensures multiset([a, b])[a] == 1 && multiset([a, a])[a] == 2
  {
  }

  lemma SmallTwoKinds(domain: Text, n: Labels, a: Addr, b: Addr, addrs: seq<Addr>, built: seq<Group>)
    requires Usable(n) && a != b && |addrs| == 3 && (forall x :: x in addrs <==> x == a || x == b)
    requires Builds(domain, Small(domain, n, addrs), built)
    ensures |built| == 1 && |built[0].endpoints| == 1
    ensures multiset(built[0].endpoints[0].ip4)[a] == multiset([addrs[0], addrs[1]])[a] + 1
  {
    var turn := SmallBuilt(domain, n, addrs, built);
    TwoKinds(a, b, addrs, turn);
  }

  lemma Permuted(domain: Text, n: Labels, a: Addr, b: Addr)
    ensures multiset(Small(domain, n, [a, b, a])) == multiset(Small(domain, n, [a, a, b]))
  {
    assert AddressRecords(n, [a, b, a]) == [A(n.target, a), A(n.target, b), A(n.target, a)];
    assert AddressRecords(n, [a, a, b]) == [A(n.target, a), A(n.target, a), A(n.target, b)];
    assert multiset(AddressRecords(n, [a, b, a])) == multiset(AddressRecords(n, [a, a, b]));
    SmallCounts(domain, n, [a, b, a]);
    SmallCounts(domain, n, [a, a, b]);
  }

  lemma SmallCounts(domain: Text, n: Labels, addrs: seq<Addr>)
    ensures multiset(Small(domain, n, addrs)) == multiset(Small(domain, n, [])) + multiset(AddressRecords(n, addrs))
  {
    assert Small(domain, n, addrs) == Small(domain, n, []) + AddressRecords(n, addrs);
  }
}
