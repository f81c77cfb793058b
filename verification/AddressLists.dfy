/**
 * What becomes of a list of addresses when endpointsFor dedupes and sorts it, perhaps several times: the list stays
 * in the map, and each time another header is made for a group.
 */
module AddressLists {
  import opened Ordering
  import opened Slices
  import opened Values
  import opened Zone

  ghost function AddrSort(xs: seq<Addr>): (r: seq<Addr>)
    ensures |r| == |xs|
  {
    Sort(xs, Identity, AddrLess)
  }

  /**
   * One turn: the map's header read `was` and then reads `now`, the new one reads `got`. The two are `shared` if they
   * lie in the same array.
   */
  datatype Turn = Turn(was: seq<Addr>, now: seq<Addr>, got: seq<Addr>, shared: bool)

  ghost predicate Normalized(l: Turn) {
    if NoDup(l.was) then l.shared && l.now == l.got == AddrListing(Elems(l.was))
    else exists listed :: NormalizedBy(l, listed)
  }

  /** With duplicates, `listed` being the order in which the map of Dedupe gave the unique addresses. */
  ghost predicate NormalizedBy(l: Turn, listed: seq<Addr>) {
    var k, n := |listed|, |l.was|;
    && ListsOnce(listed, Elems(l.was)) && k <= n
    && l.got == AddrSort(l.was[..k] + listed)
    && (if l.shared then l.now == (l.got + Zeros(n, NoAddr))[..n]
        else 2 * k > n && l.now == l.was[..k] + Zeros(n - k, NoAddr))
  }

  // ---- one turn

  lemma SortKeeps(xs: seq<Addr>)
    ensures Elems(AddrSort(xs)) == Elems(xs)
    ensures xs != [] && NoAddr in xs ==> AddrSort(xs)[0] == NoAddr
  {
    var r := AddrSort(xs);
    SameMultisetSameElems(r, xs);
    AddrOrder();
    SortSorts(xs, Identity, AddrLess);
    if NoAddr in xs {
      assert NoAddr in Elems(xs);
      var j :| 0 <= j < |r| && r[j] == NoAddr;
      if j > 0 {
        assert !AddrLess(Identity(r[j]), Identity(r[0]));
      }
    }
  }

  /** No list changes its length; the new one has as many addresses as there were, or twice the unique ones. */
  lemma TurnLengths(l: Turn)
    requires Normalized(l)
    ensures |l.now| == |l.was|
    ensures |l.got| == if NoDup(l.was) then |l.was| else 2 * |Elems(l.was)|
    ensures !l.shared ==> |l.got| > |l.was|
  {
    if NoDup(l.was) {
      NoDupSize(l.was);
      AddrListingLists(Elems(l.was));
    } else {
      var listed :| NormalizedBy(l, listed);
      DuplicateLengths(l, listed);
    }
  }

  lemma DuplicateLengths(l: Turn, listed: seq<Addr>)
    requires NormalizedBy(l, listed)
    ensures |l.now| == |l.was| && |l.got| == 2 * |Elems(l.was)| && (!l.shared ==> |l.got| > |l.was|)
  {
  }

  /** No address comes in but the zero one, which never goes away again. */
  lemma TurnValues(l: Turn)
    requires Normalized(l)
    ensures Elems(l.now) <= Elems(l.was) + {NoAddr}
    ensures NoAddr in l.was ==> NoAddr in l.now
  {
    AddrListingLists(Elems(l.was));
    if NoDup(l.was) {
      assert NoAddr in l.was <==> NoAddr in Elems(l.was);
      assert NoAddr in l.now <==> NoAddr in Elems(l.now);
    } else {
      var listed :| NormalizedBy(l, listed);
      if l.shared {
        SharedTurnValues(l, listed);
      } else {
        OtherTurnValues(l, listed);
      }
    }
  }

  /** A turn gives no address that was not in the list. */
  lemma TurnGotValues(l: Turn)
    requires Normalized(l)
    ensures Elems(l.got) <= Elems(l.was)
  {
    AddrListingLists(Elems(l.was));
    if !NoDup(l.was) {
      var listed :| NormalizedBy(l, listed);
      SortKeeps(l.was[..|listed|] + listed);
      forall x | x in l.was[..|listed|] + listed ensures x in l.was {
        if x in listed { assert x in Elems(listed); }
      }
      assert Elems(l.was[..|listed|] + listed) <= Elems(l.was);
    }
  }

  lemma SharedTurnValues(l: Turn, listed: seq<Addr>)
    requires NormalizedBy(l, listed) && l.shared && !NoDup(l.was)
    ensures Elems(l.now) <= Elems(l.was) + {NoAddr}
    ensures NoAddr in l.was ==> NoAddr in l.now
  {
    var both := l.was[..|listed|] + listed;
    SortKeeps(both);
    assert Elems(both) <= Elems(l.was) by {
      forall x | x in both ensures x in l.was {
        if x in listed { assert x in Elems(listed); }
      }
    }
    forall x | x in l.now ensures x in Elems(l.was) + {NoAddr} {
      assert x in l.got + Zeros(|l.was|, NoAddr);
      assert x in l.got ==> x in Elems(l.got);
    }
    if NoAddr in l.was {
      assert NoAddr in Elems(l.was);
      assert NoAddr in listed;
      assert l.now[0] == l.got[0];
    }
  }

  lemma OtherTurnValues(l: Turn, listed: seq<Addr>)
    requires NormalizedBy(l, listed) && !l.shared && !NoDup(l.was)
    ensures Elems(l.now) <= Elems(l.was) + {NoAddr}
    ensures NoAddr in l.was ==> NoAddr in l.now
  {
    NoDupSize(l.was);
    assert l.now[|l.was| - 1] == NoAddr;
  }

  // ---- any number of turns

  /** What a list that was recorded as `orig` may have become in the map. */
  ghost predicate Worn(orig: seq<Addr>, now: seq<Addr>) {
    && |now| == |orig|
    && Elems(now) <= Elems(orig) + {NoAddr}
    && (NoAddr in orig ==> NoAddr in now)
    && (NoDup(orig) ==> now == orig || now == AddrListing(Elems(orig)))
  }

  /** An address was recorded that is not in the list any more. */
  ghost predicate Lost(now: seq<Addr>, orig: seq<Addr>) {
    exists x :: x in orig && x != NoAddr && x !in now
  }

  lemma TurnWears(orig: seq<Addr>, l: Turn)
    requires Worn(orig, l.was) && Normalized(l)
    ensures Worn(orig, l.now)
    ensures NoDup(orig) ==> NoDup(l.was) && l.now == AddrListing(Elems(orig))
    ensures Lost(l.was, orig) ==> Lost(l.now, orig)
  {
    TurnLengths(l);
    TurnValues(l);
    AddrListingLists(Elems(orig));
    if Lost(l.was, orig) {
      var x :| x in orig && x != NoAddr && x !in l.was;
      assert x !in Elems(l.now);
    }
  }

  /** What keeps the header of a turn from reading right while the map's reads `now`: a wrong length, or a loss. */
  ghost predicate Spoilt(l: Turn, now: seq<Addr>, orig: seq<Addr>) {
    |l.got| != |Elems(orig)| || (l.shared && |l.got| <= |now| && Lost(now, orig))
  }

  lemma TurnSpoils(orig: seq<Addr>, l: Turn)
    requires Worn(orig, l.was) && Normalized(l) && !NoDup(orig)
    ensures Spoilt(l, l.now, orig)
  {
    TurnWears(orig, l);
    TurnLengths(l);
    NoDupSize(orig);
    if |l.got| == |Elems(orig)| {
      assert 2 * |Elems(l.was)| == |Elems(orig)|;
      assert l.was[0] in Elems(l.was);
      if Elems(orig) <= Elems(l.was) {
        SubsetSize(Elems(orig), Elems(l.was));
      }
      var x :| x in Elems(orig) && x !in Elems(l.was);
      assert x != NoAddr;
      assert Lost(l.was, orig);
    }
  }

  lemma {:induction false} SubsetSize<T>(a: set<T>, b: set<T>)
    requires a <= b
    ensures |a| <= |b|
  {
    if a != {} {
      var x :| x in a;
      SubsetSize(a - {x}, b - {x});
    }
  }

  lemma StaysSpoilt(l: Turn, next: Turn, orig: seq<Addr>)
    requires Spoilt(l, next.was, orig) && Worn(orig, next.was) && Normalized(next)
    ensures Spoilt(l, next.now, orig)
  {
    TurnWears(orig, next);
    TurnLengths(next);
  }

  /** How a turn on a list recorded as `orig` stands when the map's header reads `now`. */
  ghost predicate Stands(l: Turn, now: seq<Addr>, orig: seq<Addr>) {
    if NoDup(orig) then l.shared && now == AddrListing(Elems(orig)) && |l.got| == |now| else Spoilt(l, now, orig)
  }

  lemma TurnStands(orig: seq<Addr>, l: Turn)
    requires Worn(orig, l.was) && Normalized(l)
    ensures Stands(l, l.now, orig)
  {
    TurnWears(orig, l);
    if !NoDup(orig) {
      TurnSpoils(orig, l);
    }
  }

  lemma KeepsStanding(l: Turn, next: Turn, orig: seq<Addr>)
    requires Stands(l, next.was, orig) && Worn(orig, next.was) && Normalized(next)
    ensures Stands(l, next.now, orig)
  {
    TurnWears(orig, next);
    TurnLengths(next);
    if !NoDup(orig) {
      StaysSpoilt(l, next, orig);
    }
  }

  /**
   * What is seen in the end through the header of a turn, which is the `last` one on its list or not: what the turn
   * gave, unless later ones have written to the same array; they write nothing but what was in the list, or zeros.
   */
  ghost predicate SeenAs(l: Turn, now: seq<Addr>, last: bool, seen: seq<Addr>) {
    && |seen| == |l.got|
    && (l.shared && |l.got| <= |now| ==> seen == now[..|l.got|])
    && (last || !l.shared ==> seen == l.got)
    && Elems(seen) <= Elems(l.was) + {NoAddr}
  }

  /** It is the ascending listing exactly if no address was recorded twice. */
  lemma SeenRightIff(l: Turn, now: seq<Addr>, orig: seq<Addr>, last: bool, seen: seq<Addr>)
    requires Stands(l, now, orig) && SeenAs(l, now, last, seen)
    ensures seen == AddrListing(Elems(orig)) <==> NoDup(orig)
  {
    AddrListingLists(Elems(orig));
    if !NoDup(orig) && |l.got| == |Elems(orig)| {
      var x :| x in orig && x != NoAddr && x !in now;
      assert x in Elems(orig) && x !in seen;
      assert x in Elems(AddrListing(Elems(orig)));
    }
  }

  // ---- visits to the targets of a map

  datatype Visit = Visit(target: Text, ip4: Turn, ip6: Turn)

  ghost function Visited(now: map<Text, Lists>, v: Visit): map<Text, Lists> {
    now[v.target := Lists(v.ip4.now, v.ip6.now)]
  }

  /** What the map holds after some visits. */
  ghost function Replay(orig: map<Text, Lists>, visits: seq<Visit>): map<Text, Lists> {
    if visits == [] then orig
    else
      var last := |visits| - 1;
      Visited(Replay(orig, visits[..last]), visits[last])
  }

  ghost predicate Follows(now: map<Text, Lists>, v: Visit) {
    && v.target in now && now[v.target] == Lists(v.ip4.was, v.ip6.was)
    && Normalized(v.ip4) && Normalized(v.ip6)
  }

  /** Every visit finds what the ones before it left. */
  ghost predicate Legal(orig: map<Text, Lists>, visits: seq<Visit>) {
    visits == [] ||
    var last := |visits| - 1;
    Legal(orig, visits[..last]) && Follows(Replay(orig, visits[..last]), visits[last])
  }

  lemma OneMoreVisit(orig: map<Text, Lists>, visits: seq<Visit>, v: Visit)
    ensures Replay(orig, visits + [v]) == Visited(Replay(orig, visits), v)
    ensures Legal(orig, visits + [v]) <==> Legal(orig, visits) && Follows(Replay(orig, visits), v)
  {
    assert (visits + [v])[..|visits|] == visits;
  }

  ghost predicate WornLists(orig: Lists, now: Lists) { Worn(orig.ip4, now.ip4) && Worn(orig.ip6, now.ip6) }

  ghost predicate VisitStands(v: Visit, now: Lists, orig: Lists) {
    Stands(v.ip4, now.ip4, orig.ip4) && Stands(v.ip6, now.ip6, orig.ip6)
  }

  lemma VisitWears(orig: Lists, now: map<Text, Lists>, v: Visit)
    requires Follows(now, v) && WornLists(orig, now[v.target])
    ensures WornLists(orig, Visited(now, v)[v.target])
  {
    TurnWears(orig.ip4, v.ip4);
    TurnWears(orig.ip6, v.ip6);
  }

  lemma NewVisitStands(orig: Lists, now: map<Text, Lists>, v: Visit)
    requires Follows(now, v) && WornLists(orig, now[v.target])
    ensures VisitStands(v, Visited(now, v)[v.target], orig)
  {
    TurnStands(orig.ip4, v.ip4);
    TurnStands(orig.ip6, v.ip6);
  }

  lemma OldVisitStands(orig: Lists, now: map<Text, Lists>, v: Visit, next: Visit)
    requires Follows(now, next) && v.target in now
    requires WornLists(orig, now[v.target]) && VisitStands(v, now[v.target], orig)
    ensures VisitStands(v, Visited(now, next)[v.target], orig)
  {
    if next.target == v.target {
      KeepsStanding(v.ip4, next.ip4, orig.ip4);
      KeepsStanding(v.ip6, next.ip6, orig.ip6);
    }
  }

  lemma {:induction false} ReplayKeys(orig: map<Text, Lists>, visits: seq<Visit>)
    requires Legal(orig, visits)
    ensures Replay(orig, visits).Keys == orig.Keys
  {
    if visits != [] {
      ReplayKeys(orig, visits[..|visits| - 1]);
    }
  }

  /** However often the targets are visited, their lists are worn at most. */
  lemma {:induction false} VisitsWear(orig: map<Text, Lists>, visits: seq<Visit>, t: Text)
    requires Legal(orig, visits) && t in orig
    ensures t in Replay(orig, visits) && WornLists(orig[t], Replay(orig, visits)[t])
  {
    if visits != [] {
      var before, v := visits[..|visits| - 1], visits[|visits| - 1];
      VisitsWear(orig, before, t);
      if v.target == t {
        VisitWears(orig[t], Replay(orig, before), v);
      }
    }
  }

  lemma {:induction false} VisitsStand(orig: map<Text, Lists>, visits: seq<Visit>, i: nat)
    requires Legal(orig, visits) && i < |visits|
    ensures var t := visits[i].target;
      t in orig && t in Replay(orig, visits) && VisitStands(visits[i], Replay(orig, visits)[t], orig[t])
  {
    var before, next := visits[..|visits| - 1], visits[|visits| - 1];
    var v := visits[i];
    if i == |before| {
      ReplayKeys(orig, before);
      VisitsWear(orig, before, v.target);
      NewVisitStands(orig[v.target], Replay(orig, before), v);
    } else {
      assert before[i] == v;
      VisitsStand(orig, before, i);
      VisitsWear(orig, before, v.target);
      OldVisitStands(orig[v.target], Replay(orig, before), v, next);
    }
  }

  /** A visit found no address but those recorded and the zero one. */
  lemma {:induction false} WasWorn(orig: map<Text, Lists>, visits: seq<Visit>, i: nat)
    requires Legal(orig, visits) && i < |visits|
    ensures visits[i].target in orig
    ensures WornLists(orig[visits[i].target], Lists(visits[i].ip4.was, visits[i].ip6.was))
  {
    var before := visits[..|visits| - 1];
    if i < |before| {
      WasWorn(orig, before, i);
    } else {
      ReplayKeys(orig, before);
      VisitsWear(orig, before, visits[i].target);
    }
  }

  /** No address that the visit did not find, but the zero one. */
  ghost predicate NothingNew(now: Lists, v: Visit) {
    Elems(now.ip4) <= Elems(v.ip4.was) + {NoAddr} && Elems(now.ip6) <= Elems(v.ip6.was) + {NoAddr}
  }

  lemma NothingNewAtFirst(now: map<Text, Lists>, v: Visit)
    requires Follows(now, v)
    ensures NothingNew(ListsAt(Visited(now, v), v.target), v)
  {
    TurnValues(v.ip4);
    TurnValues(v.ip6);
  }

  lemma NothingNewLater(now: map<Text, Lists>, v: Visit, earlier: Visit)
    requires Follows(now, v) && NothingNew(ListsAt(now, earlier.target), earlier)
    ensures NothingNew(ListsAt(Visited(now, v), earlier.target), earlier)
  {
    TurnValues(v.ip4);
    TurnValues(v.ip6);
  }

  /** After a visit no new address comes into the lists. */
  lemma {:induction false} NothingComesIn(orig: map<Text, Lists>, visits: seq<Visit>, i: nat)
    requires Legal(orig, visits) && i < |visits|
    ensures NothingNew(ListsAt(Replay(orig, visits), visits[i].target), visits[i])
  {
    var last := |visits| - 1;
    var now := Replay(orig, visits[..last]);
    assert Replay(orig, visits) == Visited(now, visits[last]);
    if i < last {
      NothingComesIn(orig, visits[..last], i);
      NothingNewLater(now, visits[last], visits[i]);
    } else {
      NothingNewAtFirst(now, visits[last]);
    }
  }

  /** No later visit goes to the same target. */
  ghost predicate IsLast(visits: seq<Visit>, i: int)
    requires 0 <= i < |visits|
  {
    forall j :: i < j < |visits| ==> visits[j].target != visits[i].target
  }

  ghost predicate ShownAs(v: Visit, now: Lists, last: bool, e: Endpoint) {
    && e.originalName == v.target
    && SeenAs(v.ip4, now.ip4, last, e.ip4) && SeenAs(v.ip6, now.ip6, last, e.ip6)
  }

  /** What is seen in the end of the endpoints that the visits found. */
  ghost predicate Outcome(orig: map<Text, Lists>, visits: seq<Visit>, es: seq<Endpoint>) {
    && Legal(orig, visits) && |es| == |visits|
    && forall i :: 0 <= i < |visits| ==>
         ShownAs(visits[i], ListsAt(Replay(orig, visits), visits[i].target), IsLast(visits, i), es[i])
  }

  /** Each list of each endpoint comes out right exactly if the target was not given one of its addresses twice. */
  lemma OutcomeRightIff(orig: map<Text, Lists>, visits: seq<Visit>, es: seq<Endpoint>, i: nat)
    requires Outcome(orig, visits, es) && i < |es|
    ensures es[i].originalName in orig
    ensures var lists := orig[es[i].originalName];
      && (es[i].ip4 == AddrListing(Elems(lists.ip4)) <==> NoDup(lists.ip4))
      && (es[i].ip6 == AddrListing(Elems(lists.ip6)) <==> NoDup(lists.ip6))
  {
    VisitsStand(orig, visits, i);
    var v := visits[i];
    var now, lists := Replay(orig, visits)[v.target], orig[v.target];
    SeenRightIff(v.ip4, now.ip4, lists.ip4, IsLast(visits, i), es[i].ip4);
    SeenRightIff(v.ip6, now.ip6, lists.ip6, IsLast(visits, i), es[i].ip6);
  }

  /** No endpoint ever shows an address that was not recorded for its own target, but for the zero one. */
  lemma OutcomeValues(orig: map<Text, Lists>, visits: seq<Visit>, es: seq<Endpoint>, i: nat)
    requires Outcome(orig, visits, es) && i < |es|
    ensures es[i].originalName in orig
    ensures var lists := orig[es[i].originalName];
      Elems(es[i].ip4) <= Elems(lists.ip4) + {NoAddr} && Elems(es[i].ip6) <= Elems(lists.ip6) + {NoAddr}
  {
    WasWorn(orig, visits, i);
    var v := visits[i];
    assert ShownAs(v, ListsAt(Replay(orig, visits), v.target), IsLast(visits, i), es[i]);
  }
}
