/** service/locator.go: one ring per group, and the endpoints nearest to a key. */
module Locating {
  import opened Ordering
  import opened Wrappers
  import opened Zone
  import opened Groups
  import opened Collecting
  import opened Streams
  import opened StreamChanges

  /** The consistent hash: which of the named endpoints a key goes to, modulo their number. */
  type Hash = (seq<Text>, Text) -> nat

  datatype Ring = Ring(members: seq<Endpoint>)

  /** What Nearest returns; nothing is known about an empty ring but that it has no member. */
  function Nearest(hash: Hash, ring: Ring, key: Text): (r: Option<Endpoint>)
    ensures ring.members != [] ==> r.Some? && r.value in ring.members
  {
    if ring.members == [] then None
    else Some(ring.members[hash(OriginalNames(ring.members), key) % |ring.members|])
  }

  function RingFor(g: Group): Ring { Ring(g.endpoints) }

  const NO_GROUPS: Groups := Groups(map[], [])

  // ---- what a lookup should answer

  /** The endpoint of a group that a key goes to. */
  function NearestIn(hash: Hash, g: Group, key: Text): Option<Endpoint> {
    Nearest(hash, RingFor(g), key)
  }

  /** One endpoint for each requested group that exists, in the order of the request. */
  function AnswerFor(hash: Hash, gps: Groups, key: Text, names: seq<Text>): seq<Option<Endpoint>>
    requires Indexed(gps)
  {
    if names == [] then []
    else
      var last := |names| - 1;
      AnswerFor(hash, gps, key, names[..last]) +
      match Get(gps, names[last])
      case Some(g) => [NearestIn(hash, g, key)]
      case None => []
  }

  /** All groups answer if none is named. */
  function Answer(hash: Hash, gps: Groups, key: Text, names: seq<Text>): seq<Option<Endpoint>>
    requires Indexed(gps)
  {
    if names == [] then
      seq(|gps.all|, i requires 0 <= i < |gps.all| => NearestIn(hash, gps.all[i], key))
    else
      AnswerFor(hash, gps, key, names)
  }

  // ---- the fields that a Locator keeps for a Groups

  function RingsByName(all: seq<Group>): map<Text, Ring> {
    if all == [] then map[]
    else
      var last := |all| - 1;
      RingsByName(all[..last])[all[last].name := RingFor(all[last])]
  }

  function AllRings(all: seq<Group>): seq<Ring> {
    seq(|all|, i requires 0 <= i < |all| => RingFor(all[i]))
  }

  /** The map of rings has the same names as the index, each with the ring of its group. */
  lemma {:induction false} RingsAreIndexed(gps: Groups, name: Text)
    requires Indexed(gps)
    ensures name in RingsByName(gps.all) <==> Get(gps, name).Some?
    ensures name in RingsByName(gps.all) ==> RingsByName(gps.all)[name] == RingFor(Get(gps, name).value)
  {
    GetIsScan(gps, name);
    RingsOfPrefix(gps.all, name);
    assert forall i :: 0 <= i < |gps.all| ==> Names(gps.all)[i] == gps.all[i].name;
    if name in Names(gps.all) {
      assert name in Elems(Names(gps.all));
    }
  }

  lemma {:induction false} RingsOfPrefix(all: seq<Group>, name: Text)
    requires NoDup(Names(all))
    ensures name in RingsByName(all) <==> name in Names(all)
    ensures forall i :: 0 <= i < |all| && all[i].name == name ==>
        name in RingsByName(all) && RingsByName(all)[name] == RingFor(all[i])
  {
    if all != [] {
      var last := |all| - 1;
      assert Names(all[..last]) == Names(all)[..last];
      assert Names(all) == Names(all[..last]) + [all[last].name];
      RingsOfPrefix(all[..last], name);
      forall i | 0 <= i < |all| && all[i].name == name
        ensures name in RingsByName(all) && RingsByName(all)[name] == RingFor(all[i])
      {
        if i < last {
          assert all[..last][i] == all[i];
          assert Names(all)[i] != Names(all)[last];
        }
      }
    }
  }

  /** Each ring has the endpoints of its group. */
  lemma RingsHoldEndpoints(gps: Groups)
    requires Indexed(gps)
    ensures RingsByName(gps.all).Keys == Elems(Names(gps.all))
    ensures forall i :: 0 <= i < |gps.all| ==>
      && gps.all[i].name in RingsByName(gps.all)
      && RingsByName(gps.all)[gps.all[i].name].members == gps.all[i].endpoints == AllRings(gps.all)[i].members
  {
    GetIsScan(gps, []);
    forall name ensures name in RingsByName(gps.all) <==> name in Names(gps.all) { RingsOfPrefix(gps.all, name); }
    forall i | 0 <= i < |gps.all|
      ensures gps.all[i].name in RingsByName(gps.all)
      ensures RingsByName(gps.all)[gps.all[i].name].members == gps.all[i].endpoints
    {
      RingsOfPrefix(gps.all, gps.all[i].name);
    }
  }

  /** The key alone decides among the members: any two keys may go to any two of them. */
  lemma KeysDecide(members: seq<Endpoint>, key: Text, other: Text, i: nat, j: nat)
    requires key != other && i < |members| && j < |members|
    ensures exists hash: Hash ::
      && Nearest(hash, Ring(members), key) == Some(members[i])
      && Nearest(hash, Ring(members), other) == Some(members[j])
  {
    var hash: Hash := (names, k) => if k == key then i else j;
    BelowModulus(i, |members|);
    BelowModulus(j, |members|);
    assert Nearest(hash, Ring(members), key) == Some(members[i]);
  }

  lemma BelowModulus(i: nat, n: nat)
    requires i < n
    ensures i % n == i
  {
  }

  /** An answer to several names is that to the first ones and then that to the others; a name gives at most one. */
  lemma {:induction false} AnswersInTurn(hash: Hash, gps: Groups, key: Text, names: seq<Text>, more: seq<Text>)
    requires Indexed(gps)
    ensures AnswerFor(hash, gps, key, names + more) ==
      AnswerFor(hash, gps, key, names) + AnswerFor(hash, gps, key, more)
    decreases more
  {
    if more == [] {
      assert names + more == names;
    } else {
      var last := |more| - 1;
      assert (names + more)[..|names| + last] == names + more[..last];
      AnswersInTurn(hash, gps, key, names, more[..last]);
    }
  }

  class Locator {
    const hash: Hash

    var groups: Option<Groups>
    var ringsByName: map<Text, Ring>
    var allRings: seq<Ring>

    /** The groups that lookups are answered from. */
    function Current(): Groups
      reads this
    {
      if groups.Some? then groups.value else NO_GROUPS
    }

    ghost predicate Valid()
      reads this
    {
      && Indexed(Current())
      && ringsByName == RingsByName(Current().all) && allRings == AllRings(Current().all)
    }

    constructor (hash: Hash)
      ensures Valid() && groups.None? && this.hash == hash
    {
      this.hash := hash;
      groups, ringsByName, allRings := None, map[], [];
    }

    method Update(gps: Groups)
      requires Indexed(gps)
      modifies this
      ensures Valid() && groups == Some(gps)
      ensures |allRings| == |gps.all| && ringsByName.Keys == Elems(Names(gps.all))
      ensures forall i :: 0 <= i < |gps.all| ==>
        && allRings[i].members == gps.all[i].endpoints
        && gps.all[i].name in ringsByName && ringsByName[gps.all[i].name].members == gps.all[i].endpoints
    {
      var byName: map<Text, Ring>, rings: seq<Ring> := map[], [];
      for i := 0 to |gps.all|
        invariant byName == RingsByName(gps.all[..i]) && rings == AllRings(gps.all)[..i]
      {
        assert gps.all[..i + 1][..i] == gps.all[..i];
        var ring := Ring(gps.all[i].endpoints);
        byName := byName[gps.all[i].name := ring];
        rings := rings + [ring];
      }
      assert gps.all[..|gps.all|] == gps.all;
      groups, ringsByName, allRings := Some(gps), byName, rings;
      RingsHoldEndpoints(gps);
    }

    /** Find and FindString: the rings asked for, or all of them. */
    method FindString(key: Text, names: seq<Text>) returns (results: seq<Option<Endpoint>>)
      requires Valid()
      ensures results == Answer(hash, Current(), key, names)
    {
      results := [];
      if |names| > 0 {
        for i := 0 to |names|
          invariant results == AnswerFor(hash, Current(), key, names[..i])
        {
          assert names[..i + 1][..i] == names[..i];
          RingsAreIndexed(Current(), names[i]);
          if names[i] in ringsByName {
            results := results + [Nearest(hash, ringsByName[names[i]], key)];
          }
        }
        assert names[..|names|] == names;
      } else {
        for i := 0 to |allRings|
          invariant results == Answer(hash, Current(), key, [])[..i]
        {
          results := results + [Nearest(hash, allRings[i], key)];
        }
      }
    }
  }

  /** Looking a key up in one group only depends on that group. */
  lemma AnswerInOneGroup(hash: Hash, gps: Groups, key: Text, name: Text)
    requires Indexed(gps)
    ensures Answer(hash, gps, key, [name]) ==
      match Get(gps, name) case Some(g) => [NearestIn(hash, g, key)] case None => []
  {
    assert [name][..0] == [];
    assert AnswerFor(hash, gps, key, []) == [];
  }

  /**
   * Records that do not concern a group, put anywhere in a stream, change no lookup filtered to it, if it is
   * undisturbed, as it is if no address record of its own targets is repeated.
   */
  lemma LookupsDoNotInterfere(
    hash: Hash, domain: Text, records: seq<RR>, more: seq<RR>, others: seq<RR>, group: Text, key: Text,
    gps: Groups, after: Groups)
    requires Indexed(gps) && Builds(domain, records, gps.all) && Indexed(after) && Builds(domain, others, after.all)
    requires multiset(others) == multiset(records) + multiset(more)
    requires Unconcerned(domain, records, more, group)
    requires Undisturbed(domain, records, others, group) || NoRepeatsIn(domain, records, group)
    ensures Get(after, group) == Get(gps, group)
    ensures Answer(hash, after, key, [group]) == Answer(hash, gps, key, [group])
  {
    MoreFacts(domain, records, more, others);
    NonInterference(ZoneFacts(domain, Elems(records)), ZoneFacts(domain, Elems(more)), group);
    BuiltNames(domain, records, gps.all);
    BuiltNames(domain, others, after.all);
    if Get(gps, group).Some? {
      var i :| 0 <= i < |gps.all| && gps.all[i] == Get(gps, group).value;
      BuiltDoesNotInterfere(domain, records, more, others, gps.all, after.all, i);
      OnlyOne(after, gps.all[i]);
    }
    AnswerInOneGroup(hash, gps, key, group);
    AnswerInOneGroup(hash, after, key, group);
  }

  lemma BuiltNames(domain: Text, records: seq<RR>, built: seq<Group>)
    requires Builds(domain, records, built)
    ensures forall name :: name in Names(built) <==> name in GroupNames(ZoneFacts(domain, Elems(records)))
  {
    var joined := Joined(domain, records);
    BuiltZone(domain, records, built);
    SameNames(built, joined);
    JoinedNames(ZoneFacts(domain, Elems(records)));
  }

  lemma SameNames(built: seq<Group>, joined: seq<Group>)
    requires SameButAddresses(built, joined)
    ensures Names(built) == Names(joined)
  {
    forall i | 0 <= i < |built| ensures built[i].name == joined[i].name {
      assert SameGroupButAddresses(built[i], joined[i]);
    }
  }

  lemma JoinedNames(facts: set<Fact>)
    ensures Names(Join(facts)) == TextListing(GroupNames(facts))
    ensures forall name :: name in Names(Join(facts)) <==> name in GroupNames(facts)
  {
    TextListingLists(GroupNames(facts));
    assert forall name :: name in TextListing(GroupNames(facts)) <==> name in Elems(TextListing(GroupNames(facts)));
  }

  lemma OnlyOne(gps: Groups, g: Group)
    requires Indexed(gps) && g in gps.all
    ensures Get(gps, g.name) == Some(g)
  {
    var i :| 0 <= i < |gps.all| && gps.all[i] == g;
    assert Names(gps.all)[i] == g.name;
    GetIsScan(gps, g.name);
    ScanFinds(gps.all, g.name, i);
  }

  /** A lookup that names groups yields at most one endpoint for each name, each from a group so named. */
  lemma {:induction false} AnswersComeFromNamedGroups(hash: Hash, gps: Groups, key: Text, names: seq<Text>, k: nat)
    requires Indexed(gps) && k < |AnswerFor(hash, gps, key, names)|
    ensures |AnswerFor(hash, gps, key, names)| <= |names|
    ensures
      exists g :: g in gps.all && g.name in names && AnswerFor(hash, gps, key, names)[k] == NearestIn(hash, g, key)
  {
    var last := |names| - 1;
    var before := AnswerFor(hash, gps, key, names[..last]);
    if k < |before| {
      AnswersComeFromNamedGroups(hash, gps, key, names[..last], k);
    } else {
      if before != [] {
        AnswersComeFromNamedGroups(hash, gps, key, names[..last], 0);
      }
      var g := Get(gps, names[last]).value;
      assert g in gps.all && g.name in names;
    }
  }
}
