/** service/collectors.go: target -> addresses. */
module EndpointCollecting {
  import opened Ordering
  import opened Slices
  import opened Dedupe
  import opened Cells
  import opened Values
  import opened AddressLists
  import opened Zone
  import opened References

  const NO_TEXT: Text := []

  predicate EndpointInBounds(cells: seq<seq<Addr>>, e: EndpointRef) {
    InBounds(cells, e.ip4) && InBounds(cells, e.ip6)
  }

  function ListsIn(cells: seq<seq<Addr>>, e: EndpointRef): Lists
    requires EndpointInBounds(cells, e)
  {
    Lists(Read(cells, e.ip4), Read(cells, e.ip6))
  }

  /** Arrays may have been added; none has changed its size. */
  ghost predicate Grown<T>(before: seq<seq<T>>, after: seq<seq<T>>) {
    |before| <= |after| && forall c :: 0 <= c < |before| ==> |after[c]| == |before[c]|
  }

  /** A header made in a `turn` on the list under `h`; if it is the `last` such turn, or has an array of its own, it
      still reads what that turn gave. In any case it reads nothing that was not in the list, but zeros. */
  ghost predicate MadeBy(cells: seq<seq<Addr>>, owner: map<nat, Text>, h: SliceHeader, r: SliceHeader, turn: Turn,
      last: bool) {
    && InBounds(cells, r) && r.len == |turn.got|
    && (if turn.shared then r.cell == h.cell else r.cell !in owner)
    && (last || !turn.shared ==> Read(cells, r) == turn.got)
    && Elems(Read(cells, r)) <= Elems(turn.was) + {NoAddr}
  }

  /** Dedupes and sorts one list of addresses where it lies. */
  method NormalizeList(cells: seq<seq<Addr>>, h: SliceHeader)
      returns (after: seq<seq<Addr>>, r: SliceHeader, ghost turn: Turn)
    requires InBounds(cells, h)
    ensures WroteOnly(cells, after, h.cell) && InBounds(after, h) && InBounds(after, r)
    ensures turn == Turn(Read(cells, h), Read(after, h), Read(after, r), r.cell == h.cell) && Normalized(turn)
    ensures r.cell == h.cell || r.cell >= |cells|
    ensures OnlyWrote(cells[h.cell], after[h.cell], Elems(Read(cells, h)) + {NoAddr})
  {
    ghost var listed;
    var deduped;
    deduped, r, listed := DedupeAt(cells, h, NoAddr);
    after := SortAt(deduped, r, AddrLess);
    turn := Turn(Read(cells, h), Read(after, h), Read(after, r), r.cell == h.cell);
    if NoDup(turn.was) {
      AddrOrder();
      SortedNoDupIsListing(turn.was, AddrLess);
    } else {
      SortedBehind(turn, deduped[h.cell], after[h.cell], listed);
    }
    NormalizeWrites(cells, deduped, after, h, r, listed);
  }

  /** Deduping writes what was there, or zeros, and sorting what is then there. */
  lemma NormalizeWrites(
    cells: seq<seq<Addr>>, deduped: seq<seq<Addr>>, after: seq<seq<Addr>>, h: SliceHeader, r: SliceHeader,
    listed: seq<Addr>)
    requires InBounds(cells, h) && h.cell < |deduped| == |after| && InBounds(deduped, r)
    requires Deduped(Read(cells, h), Read(deduped, r), listed)
    requires OnlyWrote(cells[h.cell], deduped[h.cell], Elems(Read(cells, h)) + {NoAddr})
    requires if r.cell == h.cell then OnlyWrote(deduped[h.cell], after[h.cell], Elems(Read(deduped, r)))
             else after[h.cell] == deduped[h.cell]
    ensures OnlyWrote(cells[h.cell], after[h.cell], Elems(Read(cells, h)) + {NoAddr})
  {
    DedupeKeepsValues(Read(cells, h), Read(deduped, r), listed);
  }

  /** The arrays after deduping and after sorting, for a list with duplicates. */
  lemma SortedBehind(turn: Turn, deduped: seq<Addr>, after: seq<Addr>, listed: seq<Addr>)
    requires var k, n := |listed|, |turn.was|;
      && ListsOnce(listed, Elems(turn.was)) && k <= n <= |deduped| == |after| && !NoDup(turn.was)
      && turn.got == AddrSort(turn.was[..k] + listed) && turn.now == after[..n]
      && (turn.shared <==> 2 * k <= |deduped|)
      && deduped[..n] == SeenByOldHeader(turn.was, listed, |deduped|, NoAddr)
      && if turn.shared then after[..2 * k] == turn.got && after[2 * k..] == deduped[2 * k..] else after == deduped
    ensures Normalized(turn)
  {
    var k, n := |listed|, |turn.was|;
    if turn.shared {
      forall i | 0 <= i < n ensures after[i] == (turn.got + Zeros(n, NoAddr))[i] {
        if i < 2 * k {
          assert after[i] == after[..2 * k][i];
        } else {
          assert after[i] == after[2 * k..][i - 2 * k] == deduped[i] == deduped[..n][i];
        }
      }
    }
    assert NormalizedBy(turn, listed);
  }

  /** The endpoint found by a visit to a target whose addresses are stored under `stored`. */
  ghost predicate FoundBy(
    cells: seq<seq<Addr>>, owner: map<nat, Text>, stored: EndpointRef, e: EndpointRef, v: Visit, last: bool)
  {
    && e.originalName == v.target
    && MadeBy(cells, owner, stored.ip4, e.ip4, v.ip4, last)
    && MadeBy(cells, owner, stored.ip6, e.ip6, v.ip6, last)
  }

  lemma JustMade(cells: seq<seq<Addr>>, owner: map<nat, Text>, h: SliceHeader, r: SliceHeader, turn: Turn)
    requires InBounds(cells, r) && Read(cells, r) == turn.got && Normalized(turn)
    requires turn.shared == (r.cell == h.cell) && (r.cell != h.cell ==> r.cell !in owner)
    ensures MadeBy(cells, owner, h, r, turn, true)
  {
    TurnGotValues(turn);
  }

  /** To the two arrays of an endpoint only what was in its lists is written, or zeros. */
  ghost predicate WroteListed(before: seq<seq<Addr>>, after: seq<seq<Addr>>, e: EndpointRef, v: Visit) {
    && e.ip4.cell < |before| <= |after| && e.ip6.cell < |before|
    && OnlyWrote(before[e.ip4.cell], after[e.ip4.cell], Elems(v.ip4.was) + {NoAddr})
    && OnlyWrote(before[e.ip6.cell], after[e.ip6.cell], Elems(v.ip6.was) + {NoAddr})
  }

  /** The body of the loop in endpointsFor. */
  method Normalize(cells: seq<seq<Addr>>, e: EndpointRef, ghost owner: map<nat, Text>)
    returns (after: seq<seq<Addr>>, r: EndpointRef, ghost v: Visit)
    requires EndpointInBounds(cells, e) && e.ip4.cell != e.ip6.cell && forall c :: c in owner ==> c < |cells|
    ensures Grown(cells, after) && EndpointInBounds(after, e)
    ensures forall c :: 0 <= c < |cells| && c != e.ip4.cell && c != e.ip6.cell ==> after[c] == cells[c]
    ensures v.target == e.originalName && Normalized(v.ip4) && Normalized(v.ip6)
    ensures ListsIn(cells, e) == Lists(v.ip4.was, v.ip6.was) && ListsIn(after, e) == Lists(v.ip4.now, v.ip6.now)
    ensures FoundBy(after, owner, e, r, v, true) && WroteListed(cells, after, e, v)
  {
    var ip4, ip6;
    ghost var turn4, turn6;
    after, ip4, turn4 := NormalizeList(cells, e.ip4);
    ghost var between := after;
    after, ip6, turn6 := NormalizeList(after, e.ip6);
    assert after[e.ip4.cell] == between[e.ip4.cell] && after[ip4.cell] == between[ip4.cell];
    assert between[e.ip6.cell] == cells[e.ip6.cell];
    r, v := EndpointRef(e.originalName, ip4, ip6), Visit(e.originalName, turn4, turn6);
    JustMade(after, owner, e.ip4, ip4, turn4);
    JustMade(after, owner, e.ip6, ip6, turn6);
  }

  function Hits(names: seq<Text>, known: set<Text>): seq<Text> {
    if names == [] then []
    else
      var last := |names| - 1;
      Hits(names[..last], known) + if names[last] in known then [names[last]] else []
  }

  lemma {:induction false} HitsAreKnown(names: seq<Text>, known: set<Text>)
    ensures Elems(Hits(names, known)) == Elems(names) * known
  {
    if names != [] {
      var last := |names| - 1;
      HitsAreKnown(names[..last], known);
      assert names == names[..last] + [names[last]];
      assert Elems(names) == Elems(names[..last]) + {names[last]};
      var rest := if names[last] in known then [names[last]] else [];
      assert Elems(Hits(names, known)) == Elems(Hits(names[..last], known)) + Elems(rest);
    }
  }

  /** The endpoint of a target, with two arrays that belong to that target alone. */
  ghost predicate Stored(cells: seq<seq<Addr>>, owner: map<nat, Text>, t: Text, e: EndpointRef) {
    && e.originalName == t && EndpointInBounds(cells, e)
    && e.ip4.cell != e.ip6.cell
    && e.ip4.cell in owner && owner[e.ip4.cell] == t
    && e.ip6.cell in owner && owner[e.ip6.cell] == t
  }

  /** The map `endpoints` holds the addresses `contents`. */
  ghost predicate Stores(
    cells: seq<seq<Addr>>, owner: map<nat, Text>, endpoints: map<Text, EndpointRef>, contents: map<Text, Lists>)
  {
    && endpoints.Keys == contents.Keys
    && (forall t :: t in endpoints ==>
          Stored(cells, owner, t, endpoints[t]) && ListsIn(cells, endpoints[t]) == contents[t])
    && (forall c :: c in owner ==> c < |cells|)
  }

  /** The output is 1-1 with the names, as promised, exactly if every name has an address. */
  lemma {:induction false} HitsAllIff(names: seq<Text>, known: set<Text>)
    ensures |Hits(names, known)| <= |names|
    ensures |Hits(names, known)| == |names| <==> Elems(names) <= known
  {
    if names != [] {
      var last := |names| - 1;
      HitsAllIff(names[..last], known);
      assert names == names[..last] + [names[last]];
      assert Elems(names) == Elems(names[..last]) + {names[last]};
    }
  }

  lemma SkippedTarget(t: Text)
    ensures Hits([t], {}) == []
  {
    HitsAllIff([t], {});
    assert t in Elems([t]);
  }

  class EndpointCollector {
    var made: bool
    var endpoints: map<Text, EndpointRef>
    var cells: seq<seq<Addr>>

    ghost var Contents: map<Text, Lists>  // the addresses of each target
    ghost var owner: map<nat, Text>       // the one target whose addresses an array holds

    ghost predicate Valid()
      reads this
    {
      (!made ==> endpoints == map[]) && Stores(cells, owner, endpoints, Contents)
    }

    constructor ()
      ensures Valid() && Contents == map[]
    {
      made, endpoints, cells := false, map[], [];
      owner, Contents := map[], map[];
    }

    method Clear()
      requires Valid()
      modifies this
      ensures Valid() && Contents == map[] && cells == old(cells)
    {
      endpoints, Contents := map[], map[];
    }

    /** What the map holds for a target, or a zero Endpoint with two nil slices. */
    method Lookup(originalName: Text) returns (edef: EndpointRef)
      requires Valid()
      modifies `cells
      ensures Valid() && EndpointInBounds(cells, edef) && edef.ip4.cell != edef.ip6.cell
      ensures ListsIn(cells, edef) == ListsAt(Contents, originalName)
      ensures if originalName in endpoints then edef == endpoints[originalName]
              else edef.ip4.cell !in owner && edef.ip6.cell !in owner
    {
      if originalName in endpoints {
        edef := endpoints[originalName];
      } else {
        var ip4, ip6;
        cells, ip4 := Allocate(cells, []);
        cells, ip6 := Allocate(cells, []);
        edef := EndpointRef(NO_TEXT, ip4, ip6);
      }
    }

    /** Puts an endpoint back in the map; the arrays of the other targets are untouched. */
    method Put(originalName: Text, edef: EndpointRef)
      requires endpoints.Keys == Contents.Keys && forall c :: c in owner ==> c < |cells|
      requires forall t :: t in endpoints && t != originalName ==>
        Stored(cells, owner, t, endpoints[t]) && ListsIn(cells, endpoints[t]) == Contents[t]
      requires EndpointInBounds(cells, edef) && edef.ip4.cell != edef.ip6.cell
      requires edef.ip4.cell in owner ==> owner[edef.ip4.cell] == originalName
      requires edef.ip6.cell in owner ==> owner[edef.ip6.cell] == originalName
      modifies this
      ensures Valid() && Contents == old(Contents)[originalName := ListsIn(old(cells), edef)]
    {
      endpoints, made := endpoints[originalName := edef.(originalName := originalName)], true;
      Contents := Contents[originalName := ListsIn(cells, edef)];
      owner := owner[edef.ip4.cell := originalName][edef.ip6.cell := originalName];
    }

    /** append(h, addr), where `h` belongs to one target at most. */
    method Extend(originalName: Text, h: SliceHeader, addr: Addr) returns (grown: SliceHeader)
      requires Valid() && InBounds(cells, h)
      requires h.cell in owner ==> owner[h.cell] == originalName
      modifies `cells
      ensures WroteOnly(old(cells), cells, h.cell) && InBounds(cells, grown)
      ensures grown.cell == h.cell || grown.cell >= |old(cells)|
      ensures Read(cells, grown) == old(Read(cells, h)) + [addr]
      ensures forall t :: t in endpoints && t != originalName ==>
        Stored(cells, owner, t, endpoints[t]) && ListsIn(cells, endpoints[t]) == Contents[t]
    {
      cells, grown := Append(cells, h, [addr], NoAddr);
    }

    /** The map literal for the very first address. */
    method PutFirst(originalName: Text, lists: Lists)
      requires Valid() && !made
      modifies this
      ensures Valid() && Contents == map[originalName := lists]
    {
      var ip4, ip6;
      cells, ip4 := Allocate(cells, lists.ip4);
      cells, ip6 := Allocate(cells, lists.ip6);
      Put(originalName, EndpointRef(originalName, ip4, ip6));
    }

    method AddIP4(originalName: Text, addr: Addr)
      requires Valid()
      modifies this
      ensures Valid()
      ensures var known := ListsAt(old(Contents), originalName);
        Contents == old(Contents)[originalName := known.(ip4 := known.ip4 + [addr])]
    {
      if !made {
        PutFirst(originalName, Lists([addr], []));
        assert [] + [addr] == [addr];
      } else {
        var edef := Lookup(originalName);
        var grown := Extend(originalName, edef.ip4, addr);
        Put(originalName, edef.(ip4 := grown));
      }
    }

    method AddIP6(originalName: Text, addr: Addr)
      requires Valid()
      modifies this
      ensures Valid()
      ensures var known := ListsAt(old(Contents), originalName);
        Contents == old(Contents)[originalName := known.(ip6 := known.ip6 + [addr])]
    {
      if !made {
        PutFirst(originalName, Lists([], [addr]));
        assert [] + [addr] == [addr];
      } else {
        var edef := Lookup(originalName);
        var grown := Extend(originalName, edef.ip6, addr);
        Put(originalName, edef.(ip6 := grown));
      }
    }

    /** `visits` led from the addresses recorded as `orig` to the present ones, and found `found`. */
    ghost predicate Tracks(orig: map<Text, Lists>, visits: seq<Visit>, found: seq<EndpointRef>)
      reads this
    {
      Legal(orig, visits) && Contents == Replay(orig, visits) && Tracked(cells, owner, endpoints, visits, found)
    }

    /**
     * The endpoints of the named targets that have any address. The structs are copied out of the map but the arrays
     * behind them are deduped and sorted where they lie, each time that a target is visited: here, and in calls
     * before this one, which found `earlier`.
     */
    method EndpointsFor(
      names: seq<Text>, ghost orig: map<Text, Lists>, ghost visits: seq<Visit>, ghost earlier: seq<EndpointRef>)
      returns (found: seq<EndpointRef>, ghost more: seq<Visit>)
      requires Valid() && Tracks(orig, visits, earlier)
      modifies `cells, `Contents
      ensures Valid() && Grown(old(cells), cells)
      ensures Tracks(orig, visits + more, earlier + found) && VisitTargets(more) == Hits(names, endpoints.Keys)
      ensures |found| == |Hits(names, endpoints.Keys)|
    {
      var after;
      after, found, more := FindAll(cells, owner, endpoints, orig, visits, earlier, names);
      PutBack(after, orig, visits + more, earlier + found);
    }

    /** The arrays as the visits have left them. */
    method PutBack(
      after: seq<seq<Addr>>, ghost orig: map<Text, Lists>, ghost visits: seq<Visit>, ghost found: seq<EndpointRef>)
      requires !made ==> endpoints == map[]
      requires Legal(orig, visits) && Stores(after, owner, endpoints, Replay(orig, visits))
      requires Tracked(after, owner, endpoints, visits, found)
      modifies `cells, `Contents
      ensures Valid() && Tracks(orig, visits, found) && cells == after
    {
      cells, Contents := after, Replay(orig, visits);
    }
  }

  /** The loop in endpointsFor. */
  method FindAll(
    cells: seq<seq<Addr>>, ghost owner: map<nat, Text>, endpoints: map<Text, EndpointRef>, ghost orig: map<Text, Lists>,
    ghost visits: seq<Visit>, ghost earlier: seq<EndpointRef>, names: seq<Text>)
    returns (after: seq<seq<Addr>>, found: seq<EndpointRef>, ghost more: seq<Visit>)
    requires Legal(orig, visits) && Stores(cells, owner, endpoints, Replay(orig, visits))
    requires Tracked(cells, owner, endpoints, visits, earlier)
    ensures Grown(cells, after) && |found| == |Hits(names, endpoints.Keys)|
    ensures Legal(orig, visits + more) && Stores(after, owner, endpoints, Replay(orig, visits + more))
    ensures Tracked(after, owner, endpoints, visits + more, earlier + found)
    ensures VisitTargets(more) == Hits(names, endpoints.Keys)
  {
    after, found, more := cells, [], [];
    assert visits + more == visits && earlier + found == earlier;
    for i := 0 to |names|
      invariant Grown(cells, after) && |found| == |more|
      invariant Legal(orig, visits + more) && Stores(after, owner, endpoints, Replay(orig, visits + more))
      invariant Tracked(after, owner, endpoints, visits + more, earlier + found)
      invariant VisitTargets(more) == Hits(names[..i], endpoints.Keys)
    {
      HitsStep(names, i, endpoints.Keys);
      if names[i] in endpoints {
        after, found, more := FindNext(after, owner, endpoints, orig, visits, earlier, found, more, names[i]);
      }
    }
    assert names[..|names|] == names;
  }

  /** One turn of that loop. */
  method FindNext(
    cells: seq<seq<Addr>>, ghost owner: map<nat, Text>, endpoints: map<Text, EndpointRef>, ghost orig: map<Text, Lists>,
    ghost visits: seq<Visit>, ghost earlier: seq<EndpointRef>, found: seq<EndpointRef>, ghost more: seq<Visit>, t: Text)
    returns (after: seq<seq<Addr>>, found': seq<EndpointRef>, ghost more': seq<Visit>)
    requires Legal(orig, visits + more) && t in endpoints
    requires Stores(cells, owner, endpoints, Replay(orig, visits + more))
    requires Tracked(cells, owner, endpoints, visits + more, earlier + found) && |found| == |more|
    ensures Grown(cells, after) && |found'| == |more'|
    ensures Legal(orig, visits + more') && Stores(after, owner, endpoints, Replay(orig, visits + more'))
    ensures Tracked(after, owner, endpoints, visits + more', earlier + found')
    ensures VisitTargets(more') == VisitTargets(more) + [t]
  {
    var e;
    ghost var v;
    after, e, v := FindIn(cells, owner, endpoints, orig, visits + more, earlier + found, t);
    OneMoreBehind(visits, more, v);
    OneMoreBehind(earlier, found, e);
    OneMoreTarget(more, v);
    found', more' := found + [e], more + [v];
  }

  /** One more endpoint is found. */
  method FindIn(
    cells: seq<seq<Addr>>, ghost owner: map<nat, Text>, endpoints: map<Text, EndpointRef>, ghost orig: map<Text, Lists>,
    ghost visits: seq<Visit>, ghost found: seq<EndpointRef>, t: Text)
    returns (after: seq<seq<Addr>>, e: EndpointRef, ghost v: Visit)
    requires Legal(orig, visits) && Stores(cells, owner, endpoints, Replay(orig, visits)) && t in endpoints
    requires Tracked(cells, owner, endpoints, visits, found)
    ensures Grown(cells, after) && v.target == t
    ensures Legal(orig, visits + [v]) && Stores(after, owner, endpoints, Replay(orig, visits + [v]))
    ensures Tracked(after, owner, endpoints, visits + [v], found + [e])
  {
    after, e, v := NormalizeIn(cells, owner, endpoints, Replay(orig, visits), t);
    FindsNothingNew(orig, visits, v);
    TrackOne(cells, after, owner, endpoints, visits, found, v, e);
    OneMoreVisit(orig, visits, v);
  }

  /** Dedupes and sorts what is recorded for one target. */
  method NormalizeIn(
    cells: seq<seq<Addr>>, ghost owner: map<nat, Text>, endpoints: map<Text, EndpointRef>,
    ghost contents: map<Text, Lists>,
    t: Text) returns (after: seq<seq<Addr>>, e: EndpointRef, ghost v: Visit)
    requires Stores(cells, owner, endpoints, contents) && t in endpoints
    ensures Stores(after, owner, endpoints, Visited(contents, v)) && v.target == t && Follows(contents, v)
    ensures WroteFor(cells, after, endpoints[t]) && FoundBy(after, owner, endpoints[t], e, v, true)
    ensures WroteListed(cells, after, endpoints[t], v)
  {
    assert Stored(cells, owner, t, endpoints[t]);
    after, e, v := Normalize(cells, endpoints[t], owner);
    StoresVisited(cells, after, owner, endpoints, contents, v);
  }

  /** Nothing but the arrays of one endpoint was written to; arrays may have been added. */
  ghost predicate WroteFor(before: seq<seq<Addr>>, after: seq<seq<Addr>>, e: EndpointRef) {
    && Grown(before, after)
    && forall c :: 0 <= c < |before| && c != e.ip4.cell && c != e.ip6.cell ==> after[c] == before[c]
  }

  ghost function VisitTargets(visits: seq<Visit>): seq<Text> {
    seq(|visits|, i requires 0 <= i < |visits| => visits[i].target)
  }

  lemma OneMoreTarget(visits: seq<Visit>, v: Visit)
    ensures VisitTargets(visits + [v]) == VisitTargets(visits) + [v.target]
  {
  }

  lemma OneMoreBehind<T>(a: seq<T>, b: seq<T>, x: T)
    ensures a + (b + [x]) == a + b + [x]
  {
  }

  /** The endpoints found by the visits, as the arrays are now. */
  ghost predicate Tracked(
    cells: seq<seq<Addr>>, owner: map<nat, Text>, endpoints: map<Text, EndpointRef>, visits: seq<Visit>,
    found: seq<EndpointRef>)
  {
    |found| == |visits| && TrackedUpTo(cells, owner, endpoints, visits, found, |visits|)
  }

  ghost predicate TrackedUpTo(
    cells: seq<seq<Addr>>, owner: map<nat, Text>, endpoints: map<Text, EndpointRef>, visits: seq<Visit>,
    found: seq<EndpointRef>, n: nat)
    requires n <= |visits| == |found|
  {
    n == 0 || (TrackedUpTo(cells, owner, endpoints, visits, found, n - 1)
               && TrackedAt(cells, owner, endpoints, visits, found, n - 1))
  }

  ghost predicate TrackedAt(
    cells: seq<seq<Addr>>, owner: map<nat, Text>, endpoints: map<Text, EndpointRef>, visits: seq<Visit>,
    found: seq<EndpointRef>, i: nat)
    requires i < |visits| == |found|
  {
    && visits[i].target in endpoints
    && FoundBy(cells, owner, endpoints[visits[i].target], found[i], visits[i], IsLast(visits, i))
  }

  lemma {:induction false} TrackedEach(
    cells: seq<seq<Addr>>, owner: map<nat, Text>, endpoints: map<Text, EndpointRef>, visits: seq<Visit>,
    found: seq<EndpointRef>, n: nat)
    requires n <= |visits| == |found|
    ensures TrackedUpTo(cells, owner, endpoints, visits, found, n) <==>
            forall i :: 0 <= i < n ==> TrackedAt(cells, owner, endpoints, visits, found, i)
  {
    if n > 0 {
      TrackedEach(cells, owner, endpoints, visits, found, n - 1);
    }
  }

  lemma StoresVisited(
    before: seq<seq<Addr>>, after: seq<seq<Addr>>, owner: map<nat, Text>, endpoints: map<Text, EndpointRef>,
    contents: map<Text, Lists>, v: Visit)
    requires Stores(before, owner, endpoints, contents) && v.target in endpoints
    requires WroteFor(before, after, endpoints[v.target]) && EndpointInBounds(after, endpoints[v.target])
    requires ListsIn(after, endpoints[v.target]) == Lists(v.ip4.now, v.ip6.now)
    ensures Stores(after, owner, endpoints, Visited(contents, v))
  {
    forall t | t in endpoints && t != v.target
      ensures EndpointInBounds(after, endpoints[t]) && ListsIn(after, endpoints[t]) == contents[t]
    {
      assert Stored(before, owner, t, endpoints[t]) && Stored(before, owner, v.target, endpoints[v.target]);
    }
  }

  /** A visit to another target leaves alone what was found. */
  lemma UntouchedByOthers(
    before: seq<seq<Addr>>, after: seq<seq<Addr>>, owner: map<nat, Text>, stored: EndpointRef, other: EndpointRef,
    e: EndpointRef, v: Visit, last: bool)
    requires FoundBy(before, owner, stored, e, v, last) && WroteFor(before, after, other)
    requires other.ip4.cell in owner && other.ip6.cell in owner
    requires stored.ip4.cell != other.ip4.cell && stored.ip4.cell != other.ip6.cell
    requires stored.ip6.cell != other.ip4.cell && stored.ip6.cell != other.ip6.cell
    ensures FoundBy(after, owner, stored, e, v, last)
  {
  }

  /** A later visit to the same target leaves alone what lies in arrays of its own, and brings nothing new in. */
  lemma UntouchedIfApart(
    before: seq<seq<Addr>>, after: seq<seq<Addr>>, owner: map<nat, Text>, stored: EndpointRef, e: EndpointRef, v: Visit,
    last: bool, next: Visit)
    requires FoundBy(before, owner, stored, e, v, last) && WroteFor(before, after, stored)
    requires stored.ip4.cell in owner && stored.ip6.cell in owner && stored.ip4.cell != stored.ip6.cell
    requires WroteListed(before, after, stored, next)
    requires Elems(next.ip4.was) <= Elems(v.ip4.was) + {NoAddr} && Elems(next.ip6.was) <= Elems(v.ip6.was) + {NoAddr}
    ensures FoundBy(after, owner, stored, e, v, false)
  {
    StillListed(before, after, owner, stored.ip4, e.ip4, v.ip4, last, next.ip4);
    StillListed(before, after, owner, stored.ip6, e.ip6, v.ip6, last, next.ip6);
  }

  lemma StillListed(
    before: seq<seq<Addr>>, after: seq<seq<Addr>>, owner: map<nat, Text>, h: SliceHeader, r: SliceHeader, turn: Turn,
    last: bool, next: Turn)
    requires MadeBy(before, owner, h, r, turn, last) && InBounds(after, r) && h.cell < |before| && h.cell < |after|
    requires h.cell in owner
    requires r.cell != h.cell ==> after[r.cell] == before[r.cell]
    requires OnlyWrote(before[h.cell], after[h.cell], Elems(next.was) + {NoAddr})
    requires Elems(next.was) <= Elems(turn.was) + {NoAddr}
    ensures MadeBy(after, owner, h, r, turn, false)
  {
    forall x | x in Read(after, r) ensures x in Elems(turn.was) + {NoAddr} {
      var i :| 0 <= i < r.len && Read(after, r)[i] == x;
      assert Read(before, r)[i] in Elems(Read(before, r));
    }
  }

  /** A visit finds no address that an earlier one to its target did not, but the zero one. */
  ghost predicate NewToNone(visits: seq<Visit>, v: Visit) {
    forall i :: 0 <= i < |visits| && visits[i].target == v.target ==> NothingNew(Lists(v.ip4.was, v.ip6.was), visits[i])
  }

  lemma FindsNothingNew(orig: map<Text, Lists>, visits: seq<Visit>, v: Visit)
    requires Legal(orig, visits) && Follows(Replay(orig, visits), v)
    ensures NewToNone(visits, v)
  {
    forall i | 0 <= i < |visits| && visits[i].target == v.target
      ensures NothingNew(Lists(v.ip4.was, v.ip6.was), visits[i])
    {
      NothingComesIn(orig, visits, i);
    }
  }

  lemma TrackOne(
    before: seq<seq<Addr>>, after: seq<seq<Addr>>, owner: map<nat, Text>, endpoints: map<Text, EndpointRef>,
    visits: seq<Visit>, found: seq<EndpointRef>, v: Visit, e: EndpointRef)
    requires NewToNone(visits, v)
    requires Tracked(before, owner, endpoints, visits, found) && v.target in endpoints
    requires WroteListed(before, after, endpoints[v.target], v)
    requires forall t :: t in endpoints ==> Stored(before, owner, t, endpoints[t])
    requires WroteFor(before, after, endpoints[v.target]) && FoundBy(after, owner, endpoints[v.target], e, v, true)
    ensures Tracked(after, owner, endpoints, visits + [v], found + [e])
  {
    var visits', found' := visits + [v], found + [e];
    TrackedEach(before, owner, endpoints, visits, found, |visits|);
    forall i | 0 <= i <= |visits| ensures TrackedAt(after, owner, endpoints, visits', found', i) {
      if i < |visits| {
        TrackOld(before, after, owner, endpoints, visits, found, v, e, i);
      }
    }
    TrackedEach(after, owner, endpoints, visits', found', |visits'|);
  }

  lemma TrackOld(
    before: seq<seq<Addr>>, after: seq<seq<Addr>>, owner: map<nat, Text>, endpoints: map<Text, EndpointRef>,
    visits: seq<Visit>, found: seq<EndpointRef>, v: Visit, e: EndpointRef, i: nat)
    requires NewToNone(visits, v)
    requires i < |visits| == |found| && TrackedAt(before, owner, endpoints, visits, found, i) && v.target in endpoints
    requires forall t :: t in endpoints ==> Stored(before, owner, t, endpoints[t])
    requires WroteFor(before, after, endpoints[v.target]) && WroteListed(before, after, endpoints[v.target], v)
    ensures TrackedAt(after, owner, endpoints, visits + [v], found + [e], i)
  {
    var u := visits[i];
    assert Stored(before, owner, v.target, endpoints[v.target]) && Stored(before, owner, u.target, endpoints[u.target]);
    IsLastOneMore(visits, v, i);
    if u.target == v.target {
      UntouchedIfApart(before, after, owner, endpoints[u.target], found[i], u, IsLast(visits, i), v);
    } else {
      UntouchedByOthers(before, after, owner, endpoints[u.target], endpoints[v.target], found[i], u, IsLast(visits, i));
    }
  }

  lemma IsLastOneMore(visits: seq<Visit>, v: Visit, i: nat)
    requires i < |visits|
    ensures IsLast(visits + [v], i) <==> IsLast(visits, i) && visits[i].target != v.target
  {
    var visits' := visits + [v];
    assert forall j :: 0 <= j < |visits| ==> visits'[j] == visits[j];
    if IsLast(visits', i) {
      assert visits'[|visits|] == v;
    }
  }

  lemma HitsStep(names: seq<Text>, i: nat, known: set<Text>)
    requires i < |names|
    ensures Hits(names[..i + 1], known) == Hits(names[..i], known) + if names[i] in known then [names[i]] else []
  {
    assert names[..i + 1][..i] == names[..i];
  }

  // ---- what is read in the end

  ghost predicate FoundInBounds(cells: seq<seq<Addr>>, found: seq<EndpointRef>) {
    forall i :: 0 <= i < |found| ==> EndpointInBounds(cells, found[i])
  }

  function ReadEndpoints(cells: seq<seq<Addr>>, found: seq<EndpointRef>): seq<Endpoint>
    requires FoundInBounds(cells, found)
  {
    seq(|found|, i requires 0 <= i < |found| =>
      Endpoint(found[i].originalName, Read(cells, found[i].ip4), Read(cells, found[i].ip6)))
  }

  lemma TrackedInBounds(
    cells: seq<seq<Addr>>, owner: map<nat, Text>, endpoints: map<Text, EndpointRef>, visits: seq<Visit>,
    found: seq<EndpointRef>)
    requires Tracked(cells, owner, endpoints, visits, found)
    ensures FoundInBounds(cells, found)
  {
    TrackedEach(cells, owner, endpoints, visits, found, |visits|);
    forall i | 0 <= i < |found| ensures EndpointInBounds(cells, found[i]) {
      assert TrackedAt(cells, owner, endpoints, visits, found, i);
    }
  }

  /** Following the headers in the end gives an outcome of the visits. */
  lemma TrackedOutcome(
    cells: seq<seq<Addr>>, owner: map<nat, Text>, endpoints: map<Text, EndpointRef>, orig: map<Text, Lists>,
    visits: seq<Visit>, found: seq<EndpointRef>)
    requires Legal(orig, visits) && Tracked(cells, owner, endpoints, visits, found)
    requires Stores(cells, owner, endpoints, Replay(orig, visits))
    ensures FoundInBounds(cells, found) && Outcome(orig, visits, ReadEndpoints(cells, found))
  {
    TrackedInBounds(cells, owner, endpoints, visits, found);
    TrackedEach(cells, owner, endpoints, visits, found, |visits|);
    var now, es := Replay(orig, visits), ReadEndpoints(cells, found);
    forall i | 0 <= i < |visits| ensures ShownAs(visits[i], ListsAt(now, visits[i].target), IsLast(visits, i), es[i]) {
      var v := visits[i];
      assert TrackedAt(cells, owner, endpoints, visits, found, i);
      var stored := endpoints[v.target];
      assert Stored(cells, owner, v.target, stored);
      SeenThrough(cells, owner, stored.ip4, found[i].ip4, v.ip4, IsLast(visits, i));
      SeenThrough(cells, owner, stored.ip6, found[i].ip6, v.ip6, IsLast(visits, i));
    }
  }

  lemma SeenThrough(
    cells: seq<seq<Addr>>, owner: map<nat, Text>, h: SliceHeader, r: SliceHeader, turn: Turn, last: bool)
    requires MadeBy(cells, owner, h, r, turn, last) && InBounds(cells, h)
    ensures SeenAs(turn, Read(cells, h), last, Read(cells, r))
  {
    if turn.shared && |turn.got| <= h.len {
      assert Read(cells, h)[..r.len] == Read(cells, r);
    }
  }
}
