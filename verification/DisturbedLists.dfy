/** Which lists of addresses a group that shares their target can disturb: all but the settled ones. */
module DisturbedLists {
  import opened Ordering
  import opened Slices
  import opened Wrappers
  import opened GroupDefinition
  import opened Zone
  import opened AddressLists
  import opened SettledLists
  import opened Collecting
  import opened Streams
  import opened StreamExamples

  lemma SmallAccepted(domain: Text, n: Labels, addrs: seq<Addr>)
    requires Usable(n)
    ensures AddRecords(NOTHING, domain, Small(domain, n, addrs)).1.None?
    ensures AddRecords(NOTHING, domain, Small(domain, n, addrs) + Sharing(domain, n)).1.None?
  {
    ParsePrinted(n.h, n.hService);
    ParsePrinted(n.g, n.gService);
    StreamAccepted(NOTHING, domain, Small(domain, n, addrs));
    StreamAccepted(NOTHING, domain, Small(domain, n, addrs) + Sharing(domain, n));
  }

  ghost predicate NoIP6(records: seq<RR>) { forall i :: 0 <= i < |records| ==> !records[i].AAAA? }

  lemma NoIP6InEither(domain: Text, n: Labels, addrs: seq<Addr>)
    ensures NoIP6(Small(domain, n, addrs)) && NoIP6(Small(domain, n, addrs) + Sharing(domain, n))
  {
    var small, sharing := Small(domain, n, addrs), Sharing(domain, n);
    assert NoIP6(small) && NoIP6(sharing);
    assert forall i :: 0 <= i < |small| ==> (small + sharing)[i] == small[i];
    assert forall i :: 0 <= i < |sharing| ==> (small + sharing)[|small| + i] == sharing[i];
  }

  lemma {:induction false} NoIP6Given(records: seq<RR>, t: Text)
    requires NoIP6(records)
    ensures Given(records, t, true) == []
  {
    if records != [] {
      NoIP6Given(records[..|records| - 1], t);
    }
  }

  lemma RecordedLists(domain: Text, records: seq<RR>, group: Text, t: Text, addrs: seq<Addr>)
    requires AddRecords(NOTHING, domain, records).1.None? && t in Reached(ZoneFacts(domain, Elems(records)), group)
    requires Given(records, t, false) == addrs && NoIP6(records)
    ensures t in CollectedFrom(domain, records).endpoints
    ensures CollectedFrom(domain, records).endpoints[t] == Lists(addrs, [])
  {
    NoIP6Given(records, t);
    CollectedStream(domain, records);
    CollectedAddressed(CollectedFrom(domain, records));
    CollectedLists(domain, records, t);
  }

  lemma SmallRecorded(domain: Text, n: Labels, addrs: seq<Addr>)
    requires Usable(n) && addrs != []
    ensures var orig := CollectedFrom(domain, Small(domain, n, addrs)).endpoints;
      n.target in orig && orig[n.target] == Lists(addrs, [])
  {
    SmallAccepted(domain, n, addrs);
    SmallReached(domain, n, addrs);
    SmallGiven(domain, n, addrs);
    NoIP6InEither(domain, n, addrs);
    RecordedLists(domain, Small(domain, n, addrs), n.h, n.target, addrs);
  }

  lemma SharedRecorded(domain: Text, n: Labels, addrs: seq<Addr>)
    requires Usable(n) && addrs != []
    ensures var orig := CollectedFrom(domain, Small(domain, n, addrs) + Sharing(domain, n)).endpoints;
      n.target in orig && orig[n.target] == Lists(addrs, [])
  {
    SmallAccepted(domain, n, addrs);
    SharedReached(domain, n, addrs);
    SharedGiven(domain, n, addrs);
    NoIP6InEither(domain, n, addrs);
    RecordedLists(domain, Small(domain, n, addrs) + Sharing(domain, n), n.h, n.target, addrs);
  }

  ghost function SharedVisit(t: Text, was: seq<Addr>): Visit { Visit(t, SharedTurn(was), SharedTurn([])) }

  lemma NothingTurned()
    ensures SharedTurn([]) == Turn([], [], [], true)
  {
    AddrListingLists(Elems([]));
  }

  lemma SharedVisitFollows(now: map<Text, Lists>, t: Text, was: seq<Addr>)
    requires t in now && now[t] == Lists(was, [])
    ensures Follows(now, SharedVisit(t, was))
    ensures Visited(now, SharedVisit(t, was))[t] == Lists(SharedTurn(was).now, [])
  {
    NothingTurned();
    SharedTurnNormalized(was);
    SharedTurnNormalized([]);
  }

  lemma SharedLength(was: seq<Addr>)
    ensures |SharedTurn(was).now| == |was| && SharedTurn(was).got == Got(was)
  {
    SharedTurnNormalized(was);
    TurnLengths(SharedTurn(was));
  }

  lemma FrontOfPadded<T>(front: seq<T>, more: seq<T>, n: nat)
    requires |front| <= n <= |front + more|
    ensures (front + more)[..n][..|front|] == front
  {
  }

  lemma SharedPrefix(was: seq<Addr>)
    ensures |SharedTurn(was).now| == |was|
    ensures |Got(was)| <= |was| ==> SharedTurn(was).now[..|Got(was)|] == Got(was)
  {
    SharedLength(was);
    var got := Got(was);
    if !NoDup(was) && |got| <= |was| {
      FrontOfPadded(got, Zeros(|was|, NoAddr), |was|);
    }
  }

  lemma SharedValues(was: seq<Addr>)
    ensures Elems(SharedTurn(was).now) <= Elems(was) + {NoAddr} && Elems(Got(was)) <= Elems(was)
  {
    SharedTurnNormalized(was);
    SharedLength(was);
    TurnValues(SharedTurn(was));
    TurnGotValues(SharedTurn(was));
  }

  lemma SharedSeen(was: seq<Addr>)
    ensures SeenAs(SharedTurn(was), SharedTurn(was).now, true, Got(was))
  {
    SharedLength(was);
    SharedPrefix(was);
    SharedValues(was);
  }

  lemma OneShared(orig: map<Text, Lists>, t: Text, was: seq<Addr>)
    requires t in orig && orig[t] == Lists(was, [])
    ensures Outcome(orig, [SharedVisit(t, was)], [Endpoint(t, Got(was), [])])
  {
    var v := SharedVisit(t, was);
    var none: seq<Visit>, visits := [], [v];
    NothingTurned();
    SharedVisitFollows(orig, t, was);
    assert none + [v] == visits;
    OneMoreVisit(orig, none, v);
    SharedSeen(was);
    SharedSeen([]);
    assert ShownAs(v, ListsAt(Replay(orig, visits), t), true, Endpoint(t, Got(was), []));
  }

  /** What the first endpoint shows after a second turn in the same array, as far as that is known. */
  ghost function Overwritten(was: seq<Addr>): seq<Addr> {
    var l := SharedTurn(was);
    SharedPrefix(was);
    SharedPrefix(l.now);
    if |l.got| <= |was| then SharedTurn(l.now).now[..|l.got|] else l.got
  }

  lemma OverwrittenSeen(was: seq<Addr>)
    ensures SeenAs(SharedTurn(was), SharedTurn(SharedTurn(was).now).now, false, Overwritten(was))
  {
    var next := SharedTurn(was).now;
    SharedLength(was);
    SharedPrefix(was);
    SharedPrefix(next);
    SharedValues(was);
    SharedValues(next);
    var now := SharedTurn(next).now;
    if |Got(was)| <= |was| {
      ElemsOfPrefix(now, |Got(was)|);
    }
  }

  lemma ElemsOfPrefix(xs: seq<Addr>, n: nat)
    requires n <= |xs|
    ensures Elems(xs[..n]) <= Elems(xs)
  {
  }

  lemma TwoSharedLegal(orig: map<Text, Lists>, t: Text, was: seq<Addr>)
    requires t in orig && orig[t] == Lists(was, [])
    ensures
      var both := [SharedVisit(t, was), SharedVisit(t, SharedTurn(was).now)];
      Legal(orig, both) && ListsAt(Replay(orig, both), t) == Lists(SharedTurn(SharedTurn(was).now).now, [])
  {
    var v, w := SharedVisit(t, was), SharedVisit(t, SharedTurn(was).now);
    var none: seq<Visit>, one, both := [], [v], [v, w];
    SharedVisitFollows(orig, t, was);
    SharedVisitFollows(Visited(orig, v), t, SharedTurn(was).now);
    assert none + [v] == one && one + [w] == both;
    OneMoreVisit(orig, none, v);
    OneMoreVisit(orig, one, w);
  }

  lemma TwoShared(orig: map<Text, Lists>, t: Text, was: seq<Addr>)
    requires t in orig && orig[t] == Lists(was, [])
    ensures
      var next := SharedTurn(was).now;
      var visits := [SharedVisit(t, was), SharedVisit(t, next)];
      Outcome(orig, visits, [Endpoint(t, Overwritten(was), []), Endpoint(t, Got(next), [])])
  {
    var next := SharedTurn(was).now;
    var both := [SharedVisit(t, was), SharedVisit(t, next)];
    NothingTurned();
    TwoSharedLegal(orig, t, was);
    OverwrittenSeen(was);
    SharedSeen(next);
    SharedSeen([]);
    assert both[1].target == both[0].target;
    assert ShownAs(both[0], ListsAt(Replay(orig, both), t), IsLast(both, 0), Endpoint(t, Overwritten(was), []));
    assert ShownAs(both[1], ListsAt(Replay(orig, both), t), IsLast(both, 1), Endpoint(t, Got(next), []));
  }

  lemma MakesBuilt(domain: Text, records: seq<RR>, visits: seq<Visit>, built: seq<Group>)
    requires AddRecords(NOTHING, domain, records).1.None? && SameButAddresses(built, Joined(domain, records))
    requires Outcome(CollectedFrom(domain, records).endpoints, visits, AllEndpoints(built))
    ensures Builds(domain, records, built)
  {
    CollectedStream(domain, records);
  }

  lemma SomeSmall(domain: Text, n: Labels, addrs: seq<Addr>) returns (built: seq<Group>)
    requires Usable(n) && addrs != []
    ensures Builds(domain, Small(domain, n, addrs), built) && FirstList(built, 0) == Got(addrs)
  {
    var records := Small(domain, n, addrs);
    SmallAccepted(domain, n, addrs);
    SmallReached(domain, n, addrs);
    SmallRecorded(domain, n, addrs);
    OneListed(n.h);
    OneListed(n.target);
    built := [Joined(domain, records)[0].(endpoints := [Endpoint(n.target, Got(addrs), [])])];
    FlatOne(EndpointLists(built));
    OneShared(CollectedFrom(domain, records).endpoints, n.target, addrs);
    MakesBuilt(domain, records, [SharedVisit(n.target, addrs)], built);
  }

  lemma TwoWith(joined: seq<Group>, e: Endpoint, f: Endpoint) returns (built: seq<Group>)
    requires |joined| == 2 && |joined[0].endpoints| == |joined[1].endpoints| == 1
    requires joined[0].endpoints[0].originalName == e.originalName
    requires joined[1].endpoints[0].originalName == f.originalName
    ensures SameButAddresses(built, joined) && AllEndpoints(built) == [e, f] && FirstList(built, 1) == f.ip4
  {
    built := [joined[0].(endpoints := [e]), joined[1].(endpoints := [f])];
    FlatOne(EndpointLists(built));
  }

  lemma SomeShared(domain: Text, n: Labels, addrs: seq<Addr>) returns (built: seq<Group>)
    requires Usable(n) && addrs != []
    ensures Builds(domain, Small(domain, n, addrs) + Sharing(domain, n), built)
    ensures FirstList(built, 1) == Got(SharedTurn(addrs).now)
  {
    var records, next := Small(domain, n, addrs) + Sharing(domain, n), SharedTurn(addrs).now;
    SmallAccepted(domain, n, addrs);
    SharedReached(domain, n, addrs);
    SharedRecorded(domain, n, addrs);
    TwoJoined(ZoneFacts(domain, Elems(records)), n.g, n.h, n.target);
    var first, second := Endpoint(n.target, Overwritten(addrs), []), Endpoint(n.target, Got(next), []);
    built := TwoWith(Joined(domain, records), first, second);
    TwoShared(CollectedFrom(domain, records).endpoints, n.target, addrs);
    MakesBuilt(domain, records, [SharedVisit(n.target, addrs), SharedVisit(n.target, next)], built);
  }

  /** The IPv4 addresses of the only endpoint of a group. */
  ghost function FirstList(groups: seq<Group>, i: nat): seq<Addr> {
    if i < |groups| && |groups[i].endpoints| == 1 then groups[i].endpoints[0].ip4 else []
  }

  ghost predicate NeverDisturbs(domain: Text, n: Labels, addrs: seq<Addr>) {
    forall built, after ::
      Builds(domain, Small(domain, n, addrs), built) &&
          Builds(domain, Small(domain, n, addrs) + Sharing(domain, n), after)
      ==> FirstList(built, 0) == FirstList(after, 1)
  }

  /**
   * Being settled is also necessary: of every other list, a group that shares the target and is visited first makes
   * something else, if the arrays have room.
   */
  lemma DisturbedIff(domain: Text, n: Labels, addrs: seq<Addr>)
    requires Usable(n) && addrs != []
    ensures NeverDisturbs(domain, n, addrs) <==> Settled(addrs)
  {
    if Settled(addrs) {
      forall built, after |
        Builds(domain, Small(domain, n, addrs), built) &&
            Builds(domain, Small(domain, n, addrs) + Sharing(domain, n), after)
        ensures FirstList(built, 0) == FirstList(after, 1)
      {
        SettledUndisturbed(domain, n, addrs, built, after);
      }
    }
    if NeverDisturbs(domain, n, addrs) {
      var built := SomeSmall(domain, n, addrs);
      var after := SomeShared(domain, n, addrs);
      assert FirstList(built, 0) == FirstList(after, 1);
      SettledIfSame(addrs);
    }
  }

  lemma SettledUndisturbed(domain: Text, n: Labels, addrs: seq<Addr>, built: seq<Group>, after: seq<Group>)
    requires Usable(n) && addrs != [] && Settled(addrs)
    requires Builds(domain, Small(domain, n, addrs), built)
    requires Builds(domain, Small(domain, n, addrs) + Sharing(domain, n), after)
    ensures FirstList(built, 0) == FirstList(after, 1)
  {
    var turn := SmallBuilt(domain, n, addrs, built);
    var first, second := SharedBuilt(domain, n, addrs, after);
    TurnGives(turn);
    SettledTurn(first);
    TurnGives(second);
  }
}
