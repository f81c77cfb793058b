/**
 * What a turn gives, and the lists for which it does not matter how many turns there are: which ones the order of the
 * recorded addresses and the visits of other groups can change.
 */
module SettledLists {
  import opened Ordering
  import opened Slices
  import opened Values
  import opened Zone
  import opened AddressLists

  ghost function Unique(was: seq<Addr>): nat { |Elems(was)| }

  /** What any turn on a list gives, whatever the capacity of its array and the order of the map. */
  ghost function Got(was: seq<Addr>): seq<Addr> {
    NoDupSize(was);
    if NoDup(was) then AddrListing(Elems(was)) else AddrSort(was[..Unique(was)] + AddrListing(Elems(was)))
  }

  lemma SortIsSorted(xs: seq<Addr>)
    ensures Sorted(AddrSort(xs), Identity, AddrLess) && multiset(AddrSort(xs)) == multiset(xs)
  {
    AddrOrder();
    SortSorts(xs, Identity, AddrLess);
  }

  lemma SameSortIff(xs: seq<Addr>, ys: seq<Addr>)
    ensures AddrSort(xs) == AddrSort(ys) <==> multiset(xs) == multiset(ys)
  {
    SortIsSorted(xs);
    SortIsSorted(ys);
    AddrOrder();
    if multiset(xs) == multiset(ys) {
      SortedUnique(AddrSort(xs), AddrSort(ys), AddrLess);
    }
  }

  lemma SameListings(xs: seq<Addr>, ys: seq<Addr>)
    requires NoDup(xs) && NoDup(ys) && Elems(xs) == Elems(ys)
    ensures multiset(xs) == multiset(ys)
  {
    forall x ensures multiset(xs)[x] == multiset(ys)[x] {
      NoDupCount(xs, x);
      NoDupCount(ys, x);
      assert x in xs <==> x in Elems(xs);
      assert x in ys <==> x in Elems(ys);
    }
  }

  lemma TurnGives(l: Turn)
    requires Normalized(l)
    ensures l.got == Got(l.was)
  {
    if !NoDup(l.was) {
      var listed :| NormalizedBy(l, listed);
      AddrListingLists(Elems(l.was));
      SameListings(listed, AddrListing(Elems(l.was)));
      SameSortIff(l.was[..Unique(l.was)] + listed, l.was[..Unique(l.was)] + AddrListing(Elems(l.was)));
    }
  }

  /**
   * The order of a list with duplicates matters exactly if it changes which addresses are among the first ones, as
   * many as there are unique ones.
   */
  lemma OrderMattersIff(was: seq<Addr>, other: seq<Addr>)
    requires multiset(was) == multiset(other)
    ensures Unique(was) <= |was| == |other|
    ensures Got(was) == Got(other) <==>
            NoDup(was) || multiset(was[..Unique(was)]) == multiset(other[..Unique(was)])
  {
    SameMultisetSameElems(was, other);
    NoDupSize(was);
    var k, listing := Unique(was), AddrListing(Elems(was));
    if !NoDup(was) {
      SameSortIff(was[..k] + listing, other[..k] + listing);
      assert multiset(was[..k] + listing) == multiset(was[..k]) + multiset(listing);
      assert multiset(other[..k] + listing) == multiset(other[..k]) + multiset(listing);
      SameRest(multiset(was[..k]), multiset(other[..k]), multiset(listing));
    }
  }

  lemma SameRest<T>(a: multiset<T>, b: multiset<T>, c: multiset<T>)
    ensures a + c == b + c <==> a == b
  {
    if a + c == b + c {
      assert a == (a + c) - c && b == (b + c) - c;
    }
  }

  // ---- lists that further turns do not change

  ghost function Lowest(was: seq<Addr>): Addr
    requires was != []
  {
    LowestExists(was);
    AddrListing(Elems(was))[0]
  }

  lemma LowestExists(was: seq<Addr>)
    requires was != []
    ensures AddrListing(Elems(was)) != [] && |AddrListing(Elems(was))| == Unique(was)
  {
    AddrListingLists(Elems(was));
    assert was[0] in Elems(was);
  }

  /**
   * Lists without duplicates, and those that begin with the lowest address as often as there are unique ones, fill no
   * more than half of the list with these, and have a zero address to lose if they fill less.
   */
  ghost predicate Settled(was: seq<Addr>) {
    NoDup(was) || (was != [] &&
      var k, low := Unique(was), Lowest(was);
      && 2 * k <= |was| && (forall i :: 0 <= i < k ==> was[i] == low)
      && (|was| == 2 * k || low == NoAddr))
  }

  ghost function Repeated(a: Addr, k: nat): seq<Addr> { seq(k, _ => a) }

  lemma FirstOfAscending(listing: seq<Addr>, x: Addr)
    requires Ascending(listing, AddrLess) && x in Elems(listing)
    ensures listing[0] in Elems(listing) && !AddrLess(x, listing[0])
  {
    AddrOrder();
    var i :| 0 <= i < |listing| && listing[i] == x;
  }

  lemma LowestIsLeast(was: seq<Addr>, x: Addr)
    requires was != [] && x in was
    ensures !AddrLess(x, Lowest(was)) && Lowest(was) in was
  {
    var listing := AddrListing(Elems(was));
    LowestExists(was);
    AddrListingLists(Elems(was));
    assert x in Elems(was);
    FirstOfAscending(listing, x);
  }

  /** What a turn gives for such a list needs no sorting. */
  lemma LowestInFront(was: seq<Addr>)
    requires was != [] && !NoDup(was) && Unique(was) <= |was|
    requires forall i :: 0 <= i < Unique(was) ==> was[i] == Lowest(was)
    ensures Got(was) == Repeated(Lowest(was), Unique(was)) + AddrListing(Elems(was))
  {
    var k, listing := Unique(was), AddrListing(Elems(was));
    LowestExists(was);
    AddrListingLists(Elems(was));
    assert was[..k] == Repeated(Lowest(was), k);
    var xs := Repeated(Lowest(was), k) + listing;
    InFrontSorted(listing, k);
    SortIsSorted(xs);
    AddrOrder();
    SortedUnique(AddrSort(xs), xs, AddrLess);
  }

  lemma InFrontSorted(listing: seq<Addr>, k: nat)
    requires listing != [] && Ascending(listing, AddrLess)
    ensures Sorted(Repeated(listing[0], k) + listing, Identity, AddrLess)
  {
    AddrOrder();
  }

  lemma Halves(was: seq<Addr>)
    requires was != [] && Settled(was) && !NoDup(was)
    ensures |Got(was)| == 2 * Unique(was) <= |was|
    ensures Got(was)[..Unique(was)] == Repeated(Lowest(was), Unique(was))
    ensures Elems(Got(was)) == Elems(was)
  {
    LowestInFront(was);
    LowestExists(was);
    FrontHalf(Lowest(was), Unique(was), AddrListing(Elems(was)));
    GotValues(was);
  }

  lemma FrontHalf(a: Addr, k: nat, listing: seq<Addr>)
    requires |listing| == k
    ensures var both := Repeated(a, k) + listing; |both| == 2 * k && both[..k] == Repeated(a, k)
  {
  }

  lemma HalfFits(l: Turn)
    requires Normalized(l) && !NoDup(l.was) && 2 * Unique(l.was) <= |l.was|
    ensures |l.got| == 2 * Unique(l.was) && l.shared && l.now == l.got + Zeros(|l.was| - |l.got|, NoAddr)
  {
    var listed :| NormalizedBy(l, listed);
    HalfFitsBy(l, listed);
  }

  lemma HalfFitsBy(l: Turn, listed: seq<Addr>)
    requires NormalizedBy(l, listed) && 2 * Unique(l.was) <= |l.was|
    ensures |l.got| == 2 * Unique(l.was) && l.shared && l.now == l.got + Zeros(|l.was| - |l.got|, NoAddr)
  {
  }

  /** A turn on a settled list gives what it gives for ever after, and where the map's header can read it. */
  lemma SettledTurn(l: Turn)
    requires Settled(l.was) && Normalized(l)
    ensures l.shared && Settled(l.now) && Got(l.now) == Got(l.was) == l.got && |l.got| <= |l.now| == |l.was|
    ensures l.now[..|l.got|] == l.got
  {
    TurnGives(l);
    TurnLengths(l);
    if NoDup(l.was) {
      AddrListingLists(Elems(l.was));
    } else {
      Halves(l.was);
      HalfFits(l);
      SettledStays(l.was, l.now);
    }
  }

  lemma KeepsFront(was: seq<Addr>, now: seq<Addr>)
    requires was != [] && Settled(was) && !NoDup(was) && |Got(was)| <= |was|
    requires now == Got(was) + Zeros(|was| - |Got(was)|, NoAddr)
    ensures Elems(now) == Elems(was) && |now| == |was|
    ensures Unique(was) <= |now| && forall i :: 0 <= i < Unique(was) ==> now[i] == Lowest(was)
  {
    var k := Unique(was);
    Halves(was);
    LowestIsLeast(was, was[0]);
    assert Lowest(was) in Elems(was);
    assert now[..k] == Got(was)[..k];
    assert forall i :: 0 <= i < k ==> now[i] == now[..k][i];
  }

  lemma SettledStays(was: seq<Addr>, now: seq<Addr>)
    requires was != [] && Settled(was) && !NoDup(was) && |Got(was)| <= |was|
    requires now == Got(was) + Zeros(|was| - |Got(was)|, NoAddr)
    ensures Settled(now) && Got(now) == Got(was)
  {
    KeepsFront(was, now);
    Halves(was);
    NoDupSize(was);
    NoDupSize(now);
    LowestInFront(was);
    LowestInFront(now);
  }

  // ---- and no others

  /** A turn in an array that has room enough. */
  ghost function SharedTurn(was: seq<Addr>): Turn {
    if NoDup(was) then Turn(was, Got(was), Got(was), true)
    else Turn(was, (Got(was) + Zeros(|was|, NoAddr))[..|was|], Got(was), true)
  }

  lemma SharedTurnNormalized(was: seq<Addr>)
    ensures Normalized(SharedTurn(was))
  {
    if !NoDup(was) {
      NoDupSize(was);
      AddrListingLists(Elems(was));
      assert NormalizedBy(SharedTurn(was), AddrListing(Elems(was)));
    }
  }

  /** In a sorted sequence the least element comes first, as often as it occurs. */
  lemma {:induction false} LeastComeFirst(xs: seq<Addr>, low: Addr, c: nat)
    requires Sorted(xs, Identity, AddrLess) && (forall x :: x in xs ==> !AddrLess(x, low)) && multiset(xs)[low] >= c
    ensures c <= |xs| && forall i :: 0 <= i < c ==> xs[i] == low
  {
    if c > 0 {
      assert low in multiset(xs);
      var j :| 0 <= j < |xs| && xs[j] == low;
      AddrOrder();
      assert xs[0] == low by {
        if j > 0 { assert !AddrLess(Identity(xs[j]), Identity(xs[0])); }
      }
      assert xs == [xs[0]] + xs[1..];
      LeastComeFirst(xs[1..], low, c - 1);
    }
  }

  lemma {:induction false} AllTheSame(xs: seq<Addr>, a: Addr)
    requires multiset(xs)[a] >= |xs|
    ensures forall i :: 0 <= i < |xs| ==> xs[i] == a
  {
    if xs != [] {
      assert xs == [xs[0]] + xs[1..];
      CountAtMost(xs[1..], a);
      AllTheSame(xs[1..], a);
    }
  }

  lemma {:induction false} CountAtMost(xs: seq<Addr>, a: Addr)
    ensures multiset(xs)[a] <= |xs|
  {
    if xs != [] {
      assert xs == [xs[0]] + xs[1..];
      CountAtMost(xs[1..], a);
    }
  }

  /** If the first addresses are those that a turn puts there, they are all the lowest. */
  lemma LowestIfKept(was: seq<Addr>, now: seq<Addr>)
    requires was != [] && !NoDup(was) && Unique(was) <= |was| && |Got(was)| == 2 * Unique(was)
    requires |now| == Unique(was) && now == Got(was)[..Unique(was)]
    requires multiset(now) == multiset(was[..Unique(was)])
    ensures forall i :: 0 <= i < Unique(was) ==> was[i] == Lowest(was)
  {
    var k, low, front := Unique(was), Lowest(was), was[..Unique(was)];
    var c := multiset(front)[low];
    CountInGot(was);
    LowestComeFirst(was, c + 1);
    if c < k {
      CountPrefix(now, low, c + 1);
    }
    AllTheSame(front, low);
    assert forall i :: 0 <= i < k ==> front[i] == was[i];
  }

  lemma LowestComeFirst(was: seq<Addr>, c: nat)
    requires was != [] && !NoDup(was) && multiset(Got(was))[Lowest(was)] >= c
    ensures c <= |Got(was)| && forall i :: 0 <= i < c ==> Got(was)[i] == Lowest(was)
  {
    GotValues(was);
    forall x | x in Got(was) ensures !AddrLess(x, Lowest(was)) {
      assert x in Elems(Got(was));
      LowestIsLeast(was, x);
    }
    NoDupSize(was);
    SortIsSorted(was[..Unique(was)] + AddrListing(Elems(was)));
    LeastComeFirst(Got(was), Lowest(was), c);
  }

  lemma CountInGot(was: seq<Addr>)
    requires was != [] && !NoDup(was) && Unique(was) <= |was|
    ensures multiset(Got(was))[Lowest(was)] == multiset(was[..Unique(was)])[Lowest(was)] + 1
  {
    var front, listing := was[..Unique(was)], AddrListing(Elems(was));
    SortIsSorted(front + listing);
    LowestExists(was);
    AddrListingLists(Elems(was));
    NoDupCount(listing, Lowest(was));
    assert multiset(front + listing) == multiset(front) + multiset(listing);
  }

  lemma GotValues(was: seq<Addr>)
    requires was != []
    ensures Elems(Got(was)) == Elems(was)
  {
    NoDupSize(was);
    AddrListingLists(Elems(was));
    if !NoDup(was) {
      var both := was[..Unique(was)] + AddrListing(Elems(was));
      SortKeeps(both);
      forall x ensures x in both <==> x in was {
        assert x in AddrListing(Elems(was)) <==> x in Elems(AddrListing(Elems(was)));
        assert x in was <==> x in Elems(was);
      }
      assert Elems(both) == Elems(was);
    }
  }

  lemma {:induction false} CountPrefix(xs: seq<Addr>, a: Addr, c: nat)
    requires c <= |xs| && forall i :: 0 <= i < c ==> xs[i] == a
    ensures multiset(xs)[a] >= c
  {
    if c > 0 {
      assert xs == [xs[0]] + xs[1..];
      CountPrefix(xs[1..], a, c - 1);
    }
  }

  /** A list that two turns give the same for, in an array with room, is settled. */
  lemma SettledIfSame(was: seq<Addr>)
    requires Got(SharedTurn(was).now) == Got(was)
    ensures Settled(was)
  {
    if !NoDup(was) {
      LowestExists(was);
      SameFront(was);
      OrderInGot(was, SharedTurn(was).now);
      LowestIfKept(was, SharedTurn(was).now[..Unique(was)]);
      LowestInFront(was);
      NothingLost(was);
      ZeroIfShort(was);
    }
  }

  lemma SameFront(was: seq<Addr>)
    requires !NoDup(was) && Got(SharedTurn(was).now) == Got(was)
    ensures
      var now := SharedTurn(was).now;
      && was != [] && !NoDup(now) && Elems(now) == Elems(was)
      && Unique(was) <= |was| == |now| && Unique(was) <= |Got(was)| && now[..Unique(was)] == Got(was)[..Unique(was)]
  {
    var now := SharedTurn(was).now;
    NoDupSize(was);
    NoDupSize(now);
    GotValues(was);
    GotValues(now);
  }

  lemma OrderInGot(was: seq<Addr>, now: seq<Addr>)
    requires !NoDup(was) && !NoDup(now) && Elems(was) == Elems(now) && Got(was) == Got(now)
    requires Unique(was) <= |was| && Unique(was) <= |now|
    ensures multiset(now[..Unique(was)]) == multiset(was[..Unique(was)])
  {
    var k, listing := Unique(was), AddrListing(Elems(was));
    SameSortIff(was[..k] + listing, now[..k] + listing);
    assert multiset(was[..k] + listing) == multiset(was[..k]) + multiset(listing);
    assert multiset(now[..k] + listing) == multiset(now[..k]) + multiset(listing);
    SameRest(multiset(was[..k]), multiset(now[..k]), multiset(listing));
  }

  /** The highest address comes last: if it is still in the list, all are. */
  lemma NothingLost(was: seq<Addr>)
    requires was != [] && !NoDup(was) && Elems(SharedTurn(was).now) == Elems(was)
    requires Got(was) == Repeated(Lowest(was), Unique(was)) + AddrListing(Elems(was))
    ensures 2 * Unique(was) <= |was|
  {
    var now, k, n, listing := SharedTurn(was).now, Unique(was), |was|, AddrListing(Elems(was));
    NoDupSize(was);
    LowestExists(was);
    AddrListingLists(Elems(was));
    if k > 1 {
      var high := listing[k - 1];
      HighestIsLast(listing);
      assert high in Elems(listing);
      var i :| 0 <= i < |now| && now[i] == high;
      assert i < 2 * k ==> now[i] == Got(was)[i];
    }
  }

  lemma HighestIsLast(listing: seq<Addr>)
    requires |listing| > 1 && Ascending(listing, AddrLess)
    ensures var k := |listing|;
      forall i :: 0 <= i < 2 * k - 1 ==> (Repeated(listing[0], k) + listing)[i] != listing[k - 1]
  {
    AddrOrder();
    var both, k := Repeated(listing[0], |listing|) + listing, |listing|;
    forall i | 0 <= i < 2 * k - 1 ensures both[i] != listing[k - 1] {
      if i < k {
        assert both[i] == listing[0];
      } else {
        assert both[i] == listing[i - k];
      }
    }
  }

  lemma ZeroIfShort(was: seq<Addr>)
    requires was != [] && !NoDup(was) && Elems(SharedTurn(was).now) == Elems(was) &&
        |Got(was)| == 2 * Unique(was) <= |was|
    ensures |was| == 2 * Unique(was) || Lowest(was) == NoAddr
  {
    var now := SharedTurn(was).now;
    if 2 * Unique(was) < |was| {
      assert now[|was| - 1] == NoAddr && NoAddr in Elems(now);
      assert NoAddr in was;
      LowestIsLeast(was, NoAddr);
    }
  }

  /** Two turns in a row, whatever the capacities and the orders of the maps. */
  ghost predicate InARow(was: seq<Addr>, l: Turn, next: Turn) {
    Normalized(l) && l.was == was && Normalized(next) && next.was == l.now
  }

  lemma SharedInARow(was: seq<Addr>)
    ensures InARow(was, SharedTurn(was), SharedTurn(SharedTurn(was).now))
    ensures SharedTurn(was).got == Got(was) && SharedTurn(SharedTurn(was).now).got == Got(SharedTurn(was).now)
  {
    SharedTurnNormalized(was);
    SharedTurnNormalized(SharedTurn(was).now);
  }

  /** However a list is visited twice, the second turn gives what the first gave: exactly for the settled ones. */
  lemma SettledIff(was: seq<Addr>)
    ensures (forall l, next :: InARow(was, l, next) ==> next.got == l.got) <==> Settled(was)
  {
    if Settled(was) {
      forall l, next | InARow(was, l, next) ensures next.got == l.got {
        SettledTurn(l);
        TurnGives(next);
      }
    }
    if forall l, next :: InARow(was, l, next) ==> next.got == l.got {
      SharedInARow(was);
      SettledIfSame(was);
    }
  }

  // ---- visits

  ghost function TurnOf(v: Visit, v6: bool): Turn { if v6 then v.ip6 else v.ip4 }

  ghost function ListOf(lists: Lists, v6: bool): seq<Addr> { if v6 then lists.ip6 else lists.ip4 }

  ghost function AddressesIn(e: Endpoint, v6: bool): seq<Addr> { if v6 then e.ip6 else e.ip4 }

  /** A settled list stays so, and once it was visited the map's header can read what turns on it give. */
  lemma {:induction false} StaysSettled(orig: map<Text, Lists>, visits: seq<Visit>, t: Text, v6: bool)
    requires Legal(orig, visits) && t in orig && Settled(ListOf(orig[t], v6))
    ensures t in Replay(orig, visits)
    ensures
      var now, got := ListOf(Replay(orig, visits)[t], v6), Got(ListOf(orig[t], v6));
      && Settled(now) && Got(now) == got
      && (Has(visits, t) ==> |got| <= |now| && now[..|got|] == got)
  {
    if visits != [] {
      var before, v := visits[..|visits| - 1], visits[|visits| - 1];
      StaysSettled(orig, before, t, v6);
      HasByLast(visits, t);
      if v.target == t {
        SettledVisit(Replay(orig, before), v, v6);
      }
    }
  }

  ghost predicate Has(visits: seq<Visit>, t: Text) {
    exists i :: 0 <= i < |visits| && visits[i].target == t
  }

  lemma HasByLast(visits: seq<Visit>, t: Text)
    requires visits != []
    ensures Has(visits, t) <==> Has(visits[..|visits| - 1], t) || visits[|visits| - 1].target == t
  {
    var before := visits[..|visits| - 1];
    if Has(before, t) {
      var i :| 0 <= i < |before| && before[i].target == t;
      assert visits[i].target == t;
    }
    assert forall i :: 0 <= i < |before| ==> before[i] == visits[i];
  }

  lemma SettledVisit(now: map<Text, Lists>, v: Visit, v6: bool)
    requires Follows(now, v) && Settled(ListOf(now[v.target], v6))
    ensures
      var got, next := Got(ListOf(now[v.target], v6)), ListOf(Visited(now, v)[v.target], v6);
      && TurnOf(v, v6).got == got && TurnOf(v, v6).shared
      && Settled(next) && Got(next) == got && |got| <= |next| && next[..|got|] == got
  {
    SettledTurn(TurnOf(v, v6));
  }

  /** Every visit to such a list gives the same. */
  lemma {:induction false} GivesTheSame(orig: map<Text, Lists>, visits: seq<Visit>, i: nat, v6: bool)
    requires Legal(orig, visits) && i < |visits| && visits[i].target in orig
    requires Settled(ListOf(orig[visits[i].target], v6))
    ensures TurnOf(visits[i], v6).got == Got(ListOf(orig[visits[i].target], v6)) && TurnOf(visits[i], v6).shared
  {
    var before := visits[..|visits| - 1];
    if i < |before| {
      assert before[i] == visits[i];
      GivesTheSame(orig, before, i, v6);
    } else {
      StaysSettled(orig, before, visits[i].target, v6);
      SettledVisit(Replay(orig, before), visits[i], v6);
    }
  }

  /** Endpoints show what a turn on a settled list gives, however often and for whichever groups it is visited. */
  lemma SettledOutcome(orig: map<Text, Lists>, visits: seq<Visit>, es: seq<Endpoint>, i: nat, v6: bool)
    requires Outcome(orig, visits, es) && i < |es|
    requires es[i].originalName in orig && Settled(ListOf(orig[es[i].originalName], v6))
    ensures AddressesIn(es[i], v6) == Got(ListOf(orig[es[i].originalName], v6))
  {
    var v := visits[i];
    assert ShownAs(v, ListsAt(Replay(orig, visits), v.target), IsLast(visits, i), es[i]);
    GivesTheSame(orig, visits, i, v6);
    StaysSettled(orig, visits, v.target, v6);
  }

  lemma {:induction false} NotYetVisited(orig: map<Text, Lists>, visits: seq<Visit>, t: Text)
    requires forall i :: 0 <= i < |visits| ==> visits[i].target != t
    ensures ListsAt(Replay(orig, visits), t) == ListsAt(orig, t)
  {
    if visits != [] {
      var before := visits[..|visits| - 1];
      assert forall i :: 0 <= i < |before| ==> before[i] == visits[i];
      NotYetVisited(orig, before, t);
    }
  }

  lemma {:induction false} FollowsFront(orig: map<Text, Lists>, visits: seq<Visit>, i: nat)
    requires Legal(orig, visits) && i < |visits|
    ensures Follows(Replay(orig, visits[..i]), visits[i])
  {
    var before := visits[..|visits| - 1];
    if i < |before| {
      FollowsFront(orig, before, i);
      assert before[..i] == visits[..i];
    }
  }

  /** So do endpoints whose target is visited for them alone. */
  lemma OnceOutcome(orig: map<Text, Lists>, visits: seq<Visit>, es: seq<Endpoint>, i: nat, v6: bool)
    requires Outcome(orig, visits, es) && i < |es|
    requires forall j :: 0 <= j < |es| && es[j].originalName == es[i].originalName ==> j == i
    ensures es[i].originalName in orig
    ensures AddressesIn(es[i], v6) == Got(ListOf(orig[es[i].originalName], v6))
  {
    forall j | 0 <= j < |visits| && j != i ensures visits[j].target != visits[i].target {
      ShownLast(orig, visits, es, i, v6);
      ShownLast(orig, visits, es, j, v6);
    }
    ShownLast(orig, visits, es, i, v6);
    FoundAsRecorded(orig, visits, i, v6);
    TurnGives(TurnOf(visits[i], v6));
  }

  lemma ShownLast(orig: map<Text, Lists>, visits: seq<Visit>, es: seq<Endpoint>, i: nat, v6: bool)
    requires Outcome(orig, visits, es) && i < |es|
    ensures Legal(orig, visits) && |visits| == |es| && es[i].originalName == visits[i].target
    ensures IsLast(visits, i) ==> AddressesIn(es[i], v6) == TurnOf(visits[i], v6).got
  {
    assert ShownAs(visits[i], ListsAt(Replay(orig, visits), visits[i].target), IsLast(visits, i), es[i]);
  }

  lemma FoundAsRecorded(orig: map<Text, Lists>, visits: seq<Visit>, i: nat, v6: bool)
    requires Legal(orig, visits) && i < |visits|
    requires forall j :: 0 <= j < i ==> visits[j].target != visits[i].target
    ensures visits[i].target in orig && Normalized(TurnOf(visits[i], v6))
    ensures TurnOf(visits[i], v6).was == ListOf(orig[visits[i].target], v6)
  {
    VisitsStand(orig, visits, i);
    FollowsFront(orig, visits, i);
    NotYetVisited(orig, visits[..i], visits[i].target);
  }
}
