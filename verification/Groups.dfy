/** service/group.go: finished groups, their index by name and their TXT records. */
module Groups {
  import opened Ordering
  import opened Wrappers
  import opened GroupDefinition
  import opened Zone

  datatype RRType = TypeA | TypeAAAA | TypeTXT | OtherType

  datatype Groups = Groups(byName: map<Text, nat>, all: seq<Group>)

  ghost predicate Indexed(gps: Groups) { Indexes(gps.byName, Names(gps.all)) }

  function Get(gps: Groups, groupName: Text): (r: Option<Group>)
    requires Indexed(gps)
    ensures r.Some? <==> groupName in Names(gps.all)
    ensures r.Some? ==> r.value in gps.all && r.value.name == groupName
  {
    if groupName in gps.byName then
      assert groupName in Elems(Names(gps.all));
      Some(gps.all[gps.byName[groupName]])
    else
      assert groupName !in Elems(Names(gps.all));
      None
  }

  function Scan(all: seq<Group>, groupName: Text): Option<Group> {
    if all == [] then None
    else if all[0].name == groupName then Some(all[0])
    else Scan(all[1..], groupName)
  }

  /** The index answers like a search through the groups, whose names are then all different. */
  lemma GetIsScan(gps: Groups, groupName: Text)
    requires Indexed(gps)
    ensures Get(gps, groupName) == Scan(gps.all, groupName)
    ensures NoDup(Names(gps.all))
  {
    var names := Names(gps.all);
    forall i, j | 0 <= i < j < |names| ensures names[i] != names[j] {
      assert gps.byName[names[i]] == i;
    }
    if groupName in names {
      var i :| 0 <= i < |names| && names[i] == groupName;
      ScanFinds(gps.all, groupName, i);
      assert gps.byName[names[i]] == i;
    } else {
      assert forall i :: 0 <= i < |gps.all| ==> gps.all[i].name == names[i];
      ScanMisses(gps.all, groupName);
    }
  }

  lemma {:induction false} ScanFinds(all: seq<Group>, groupName: Text, i: nat)
    requires NoDup(Names(all)) && i < |all| && all[i].name == groupName
    ensures Scan(all, groupName) == Some(all[i])
  {
    assert forall j :: 0 <= j < |all| ==> Names(all)[j] == all[j].name;
    if i > 0 {
      assert Names(all)[0] != Names(all)[i];
      assert forall j :: 0 <= j < |all| - 1 ==> Names(all[1..])[j] == Names(all)[j + 1];
      ScanFinds(all[1..], groupName, i - 1);
    }
  }

  lemma {:induction false} ScanMisses(all: seq<Group>, groupName: Text)
    requires forall i :: 0 <= i < |all| ==> all[i].name != groupName
    ensures Scan(all, groupName).None?
  {
    if all != [] {
      ScanMisses(all[1..], groupName);
    }
  }

  // ---- the TXT records of a group

  function Line(name: Text, item: Text): Text { name + [' '] + item }

  function Lines(name: Text, items: seq<Text>): seq<Text> {
    seq(|items|, i requires 0 <= i < |items| => Line(name, items[i]))
  }

  function OriginalNames(endpoints: seq<Endpoint>): seq<Text> {
    seq(|endpoints|, i requires 0 <= i < |endpoints| => endpoints[i].originalName)
  }

  /** One text for each service, then one for each endpoint. */
  function Texts(g: Group, rrType: RRType): seq<Text> {
    if rrType.TypeTXT? then Lines(g.name, g.services) + Lines(g.name, OriginalNames(g.endpoints)) else []
  }

  function Min(m: nat, n: nat): nat { if m < n then m else n }

  function LenRRs(g: Group, rrType: RRType): (n: nat)
    ensures n == |Texts(g, rrType)|
  {
    if rrType.TypeTXT? then |g.services| + |g.endpoints| else 0
  }

  /** Byte by byte: the name of the group, a space, and a service or an endpoint, until the consumer stops. */
  ghost predicate ArePushed(g: Group, rrType: RRType, limit: nat, pushed: seq<Text>) {
    && (!rrType.TypeTXT? ==> pushed == [])
    && (rrType.TypeTXT? ==> |pushed| == Min(limit, |g.services| + |g.endpoints|))
    && forall i :: 0 <= i < |pushed| ==>
      pushed[i] == g.name + [' '] + if i < |g.services| then g.services[i]
                                    else g.endpoints[i - |g.services|].originalName
  }

  lemma TextsArePushed(g: Group, rrType: RRType, limit: nat)
    ensures ArePushed(g, rrType, limit,
                      if limit < LenRRs(g, rrType) then Texts(g, rrType)[..limit] else Texts(g, rrType))
  {
  }

  /** The text put together in the buffer. */
  method Write(name: Text, item: Text) returns (buffer: Text)
    ensures buffer == Line(name, item)
  {
    buffer := [];
    buffer := buffer + name;
    buffer := buffer + [' '];
    buffer := buffer + item;
  }

  /** The two loops over services and endpoints, `all` being the texts for them. */
  method PushTexts(g: Group, limit: nat, ghost all: seq<Text>) returns (pushed: seq<Text>)
    requires 0 < limit && |all| == |g.services| + |g.endpoints|
    requires forall i :: 0 <= i < |g.services| ==> all[i] == Line(g.name, g.services[i])
    requires forall i :: 0 <= i < |g.endpoints| ==>
      all[|g.services| + i] == Line(g.name, g.endpoints[i].originalName)
    ensures pushed == if limit < |all| then all[..limit] else all
  {
    pushed := [];
    for i := 0 to |g.services|
      invariant pushed == all[..i] && i < limit
    {
      var buffer := Write(g.name, g.services[i]);
      pushed := pushed + [buffer];
      if |pushed| == limit {
        return;
      }
    }
    for i := 0 to |g.endpoints|
      invariant pushed == all[..|g.services| + i] && |g.services| + i < limit
    {
      var buffer := Write(g.name, g.endpoints[i].originalName);
      pushed := pushed + [buffer];
      if |pushed| == limit {
        return;
      }
    }
  }

  /** Pushes texts to a consumer that stops at the `limit`-th one. */
  method RRs(g: Group, rrType: RRType, limit: nat) returns (pushed: seq<Text>)
    requires 0 < limit
    ensures pushed == if limit < LenRRs(g, rrType) then Texts(g, rrType)[..limit] else Texts(g, rrType)
    ensures ArePushed(g, rrType, limit, pushed)
  {
    TextsArePushed(g, rrType, limit);
    if !rrType.TypeTXT? {
      return [];
    }
    pushed := PushTexts(g, limit, Texts(g, rrType));
  }

  // ---- printing the definitions and reading them back

  /** The texts pushed for a group's services, each as a record at the discovery domain. */
  function PrintedGroup(domain: Text, g: Group): seq<RR> {
    var texts := Texts(g, TypeTXT);
    seq(|g.services|, i requires 0 <= i < |g.services| => TXT(domain, [texts[i]]))
  }

  function Printed(domain: Text, all: seq<Group>): seq<RR> {
    if all == [] then [] else PrintedGroup(domain, all[0]) + Printed(domain, all[1..])
  }

  /** The definitions of groups that came from a zone: a valid name and at least one service. */
  ghost predicate Parsed(g: Group) {
    && Token(g.name) && ComplaintAbout(g.name).None?
    && g.services != [] && forall i :: 0 <= i < |g.services| ==> Token(g.services[i])
  }

  /** Each text pushed is read as the name of the group and one service or endpoint, in order. */
  lemma PushedIsParsed(g: Group, i: nat)
    requires Parsed(g) && i < |g.services| + |g.endpoints|
    ensures i < |Texts(g, TypeTXT)|
    ensures i < |g.services| ==> ParseGroupDefinition(Texts(g, TypeTXT)[i]) == Ok(Definition(g.name, [g.services[i]]))
    ensures i >= |g.services| && Token(g.endpoints[i - |g.services|].originalName) ==>
      ParseGroupDefinition(Texts(g, TypeTXT)[i]) ==
        Ok(Definition(g.name, [g.endpoints[i - |g.services|].originalName]))
  {
    if i < |g.services| {
      ParsePrinted(g.name, g.services[i]);
    } else if Token(g.endpoints[i - |g.services|].originalName) {
      ParsePrinted(g.name, g.endpoints[i - |g.services|].originalName);
    }
  }

  /** The services of each of the groups, by name. */
  function ServicesByName(groups: map<Text, seq<Text>>, all: seq<Group>): map<Text, seq<Text>>
    decreases all
  {
    if all == [] then groups else ServicesByName(groups[all[0].name := all[0].services], all[1..])
  }

  lemma {:induction false} AddRecordsAppend(c: Collected, domain: Text, first: seq<RR>, second: seq<RR>)
    requires AddRecords(c, domain, first).1.None?
    ensures AddRecords(c, domain, first + second) == AddRecords(AddRecords(c, domain, first).0, domain, second)
    decreases first
  {
    if first == [] {
      assert first + second == second;
    } else {
      assert (first + second)[1..] == first[1..] + second;
      AddRecordsAppend(AddRecord(c, domain, first[0]).0, domain, first[1..], second);
    }
  }

  ghost function PrintedServices(domain: Text, name: Text, services: seq<Text>): seq<RR> {
    seq(|services|, i requires 0 <= i < |services| => TXT(domain, [Line(name, services[i])]))
  }

  lemma {:induction false} ReadBackGroup(c: Collected, domain: Text, name: Text, services: seq<Text>)
    requires Token(name) && ComplaintAbout(name).None?
    requires services != [] && forall i :: 0 <= i < |services| ==> Token(services[i])
    ensures AddRecords(c, domain, PrintedServices(domain, name, services)) == (WithServices(c, name, services), None)
    decreases services
  {
    var printed, next := PrintedServices(domain, name, services), WithServices(c, name, [services[0]]);
    ReadBackOne(c, domain, name, services[0]);
    assert printed[1..] == PrintedServices(domain, name, services[1..]);
    if |services| == 1 {
      assert services == [services[0]];
      assert AddRecords(next, domain, printed[1..]) == (next, None);
    } else {
      ReadBackGroup(next, domain, name, services[1..]);
      OneThenRest(c, name, services);
    }
  }

  /** More services for a group. */
  ghost function WithServices(c: Collected, name: Text, services: seq<Text>): Collected {
    c.(groups := c.groups[name := At(c.groups, name) + services])
  }

  lemma OneThenRest(c: Collected, name: Text, services: seq<Text>)
    requires services != []
    ensures WithServices(WithServices(c, name, [services[0]]), name, services[1..]) == WithServices(c, name, services)
  {
    var known := At(c.groups, name);
    assert known + [services[0]] + services[1..] == known + services;
    var next := WithServices(c, name, [services[0]]).groups;
    assert next[name := known + services] == c.groups[name := known + services];
  }

  lemma ReadBackOne(c: Collected, domain: Text, name: Text, service: Text)
    requires Token(name) && ComplaintAbout(name).None? && Token(service)
    ensures AddRecord(c, domain, TXT(domain, [Line(name, service)])) == (WithServices(c, name, [service]), None)
  {
    ParsePrinted(name, service);
    var txt, after := [Line(name, service)], AddDefinition(c.groups, Definition(name, [service]));
    assert AddTexts(c.groups, txt) == AddTexts(after, []);
  }

  /** A fresh collector that is fed the printed definitions holds the same services under the same names. */
  lemma {:induction false} ReadBack(c: Collected, domain: Text, all: seq<Group>)
    requires forall i :: 0 <= i < |all| ==> Parsed(all[i]) && all[i].name !in c.groups
    requires forall i, j :: 0 <= i < j < |all| ==> all[i].name != all[j].name
    ensures AddRecords(c, domain, Printed(domain, all)) == (c.(groups := ServicesByName(c.groups, all)), None)
    decreases all
  {
    if all != [] {
      var g := all[0];
      var next := c.(groups := c.groups[g.name := g.services]);
      ReadBackGroup(c, domain, g.name, g.services);
      assert PrintedGroup(domain, g) == PrintedServices(domain, g.name, g.services);
      assert At(c.groups, g.name) + g.services == g.services;
      AddRecordsAppend(c, domain, PrintedGroup(domain, g), Printed(domain, all[1..]));
      ReadBack(next, domain, all[1..]);
    }
  }

  /** Groups joined from a zone can all be printed. */
  lemma JoinedAreParsed(domain: Text, records: set<RR>, i: nat)
    requires i < |Join(ZoneFacts(domain, records))|
    ensures Parsed(Join(ZoneFacts(domain, records))[i])
  {
    var facts := ZoneFacts(domain, records);
    var names := TextListing(GroupNames(facts));
    TextListingLists(GroupNames(facts));
    var name := names[i];
    assert name in Elems(names);
    TextListingLists(ServicesOf(facts, name));
    var services := TextListing(ServicesOf(facts, name));
    var def := DefinitionOf(domain, records, Defines(name));
    assert def.services[0] in def.services;
    assert Serves(name, def.services[0]) in facts;
    assert def.services[0] in ServicesOf(facts, name);
    forall k | 0 <= k < |services| ensures Token(services[k]) {
      assert services[k] in Elems(services);
      var d := DefinitionOf(domain, records, Serves(name, services[k]));
    }
  }

  /** The text behind a fact about a group. */
  lemma DefinitionOf(domain: Text, records: set<RR>, f: Fact) returns (def: Definition)
    requires f in ZoneFacts(domain, records) && (f.Defines? || f.Serves?)
    ensures def.name == f.group && Token(def.name) && ComplaintAbout(def.name).None?
    ensures def.services != [] && forall s :: s in def.services ==>
        Token(s) && Serves(def.name, s) in ZoneFacts(domain, records)
    ensures f.Serves? ==> f.service in def.services
  {
    var r :| r in records && f in RecordFacts(domain, r);
    var t :| t in r.txt && f in TextFacts(t);
    def := ParseGroupDefinition(t).value;
    forall s | s in def.services ensures Serves(def.name, s) in ZoneFacts(domain, records) {
      assert Serves(def.name, s) in TextFacts(t);
      assert Serves(def.name, s) in RecordFacts(domain, r);
    }
  }

  lemma {:induction false} ServicesByNameAt(groups: map<Text, seq<Text>>, all: seq<Group>)
    requires forall i, j :: 0 <= i < j < |all| ==> all[i].name != all[j].name
    ensures ServicesByName(groups, all).Keys == groups.Keys + Elems(Names(all))
    ensures forall i :: 0 <= i < |all| ==> At(ServicesByName(groups, all), all[i].name) == all[i].services
    ensures forall n :: n in groups && n !in Names(all) ==> ServicesByName(groups, all)[n] == groups[n]
    decreases all
  {
    if all != [] {
      var rest := all[1..];
      ServicesByNameAt(groups[all[0].name := all[0].services], rest);
      assert Names(all) == [all[0].name] + Names(rest);
      assert all[0].name !in Names(rest);
      forall i | 0 < i < |all| ensures At(ServicesByName(groups, all), all[i].name) == all[i].services {
        assert all[i] == rest[i - 1];
      }
    }
  }

  /** Printing the groups of any zone and reading the result gives their names and services back. */
  lemma PrintThenRead(domain: Text, records: set<RR>)
    ensures var all := Join(ZoneFacts(domain, records));
      var (read, err) := AddRecords(NOTHING, domain, Printed(domain, all));
      && err.None? && read == NOTHING.(groups := read.groups)
      && read.groups.Keys == GroupNames(ZoneFacts(domain, records))
      && forall i :: 0 <= i < |all| ==> all[i].name in read.groups && read.groups[all[i].name] == all[i].services
  {
    var facts := ZoneFacts(domain, records);
    var all := Join(facts);
    TextListingLists(GroupNames(facts));
    forall i | 0 <= i < |all| ensures Parsed(all[i]) { JoinedAreParsed(domain, records, i); }
    forall i, j | 0 <= i < j < |all| ensures all[i].name != all[j].name {
      assert TextListing(GroupNames(facts))[i] != TextListing(GroupNames(facts))[j];
    }
    ReadBack(NOTHING, domain, all);
    ServicesByNameAt(map[], all);
    assert Names(all) == TextListing(GroupNames(facts));
    forall i | 0 <= i < |all| ensures all[i].name in ServicesByName(map[], all) {
      assert Names(all)[i] in Elems(Names(all));
    }
  }
}
