/** Texts and addresses, the two comparators that hashy sorts with, and what sorting means. */
module Ordering {

  /** A byte of a Go string, written as a character so that literals stay readable. */
  type Byte = c: char | c as int < 256 witness 'a'

  type Text = seq<Byte>

  /** A network address: the zero value, an IPv4 address or an IPv6 address with its zone. */
  datatype Addr = NoAddr | IP4(bits: nat) | IP6(bits: nat, zone: Text)

  /** strings.Compare(a, b) < 0: byte by byte, a proper prefix first. */
  predicate TextLess(a: Text, b: Text) {
    b != [] &&
    (a == [] || a[0] < b[0] || (a[0] == b[0] && TextLess(a[1..], b[1..])))
  }

  /** netip.Addr.Compare(a, b) < 0: bit length first, then the bits, then the zone. */
  predicate AddrLess(a: Addr, b: Addr) {
    match (a, b)
    case (NoAddr, _) => !b.NoAddr?
    case (IP4(x), IP4(y)) => x < y
    case (IP4(_), IP6(_, _)) => true
    case (IP6(x, v), IP6(y, w)) => x < y || (x == y && TextLess(v, w))
    case _ => false
  }

  /** At the first difference the lower byte comes first, and a text before all that go on from it. */
  lemma {:induction false} TextLessIff(a: Text, b: Text)
    ensures TextLess(a, b) <==>
      exists n :: 0 <= n <= |a| && n < |b| && a[..n] == b[..n] && (n == |a| || a[n] < b[n])
  {
    if a != [] && b != [] && a[0] == b[0] {
      TextLessIff(a[1..], b[1..]);
      if TextLess(a, b) {
        var m :| 0 <= m <= |a[1..]| && m < |b[1..]| && a[1..][..m] == b[1..][..m]
                 && (m == |a[1..]| || a[1..][m] < b[1..][m]);
        FirstAlike(a, b, m);
      }
      if n :| 0 <= n <= |a| && n < |b| && a[..n] == b[..n] && (n == |a| || a[n] < b[n]) {
        assert n > 0;
        assert a[1..][..n - 1] == a[..n][1..] && b[1..][..n - 1] == b[..n][1..];
      }
    } else if a != [] && b != [] {
      assert a[..0] == b[..0];
      if n :| 0 <= n <= |a| && n < |b| && a[..n] == b[..n] && (n == |a| || a[n] < b[n]) {
        assert n > 0 ==> a[..n][0] == b[..n][0];
      }
    } else if b != [] {
      assert a[..0] == b[..0];
    }
  }

  lemma FirstAlike(a: Text, b: Text, m: nat)
    requires a != [] && b != [] && a[0] == b[0] && m < |a| && m < |b| && a[1..][..m] == b[1..][..m]
    ensures a[..m + 1] == b[..m + 1]
  {
    assert a[..m + 1] == [a[0]] + a[1..][..m] && b[..m + 1] == [b[0]] + b[1..][..m];
  }

  function BitLength(a: Addr): nat { match a case NoAddr => 0 case IP4(_) => 32 case IP6(_, _) => 128 }

  function Bits(a: Addr): nat { match a case NoAddr => 0 case IP4(x) => x case IP6(x, _) => x }

  function ZoneOf(a: Addr): Text { if a.IP6? then a.zone else [] }

  /** Bit length first, then the bits as a number, then the zone byte by byte. */
  lemma AddrLessIff(a: Addr, b: Addr)
    ensures AddrLess(a, b) <==>
      || BitLength(a) < BitLength(b)
      || (BitLength(a) == BitLength(b) && (Bits(a) < Bits(b) || (Bits(a) == Bits(b) && TextLess(ZoneOf(a), ZoneOf(b)))))
    ensures BitLength(a) == BitLength(b) && Bits(a) == Bits(b) && ZoneOf(a) == ZoneOf(b) <==> a == b
  {
    TextLessIrreflexive([]);
  }

  ghost predicate StrictTotalOrder<T(!new)>(lt: (T, T) -> bool) {
    && (forall x :: !lt(x, x))
    && (forall x, y, z :: lt(x, y) && lt(y, z) ==> lt(x, z))
    && (forall x, y :: x != y ==> lt(x, y) || lt(y, x))
  }

  lemma {:induction false} TextLessTransitive(a: Text, b: Text, c: Text)
    requires TextLess(a, b) && TextLess(b, c)
    ensures TextLess(a, c)
  {
    if a != [] && a[0] == b[0] == c[0] {
      TextLessTransitive(a[1..], b[1..], c[1..]);
    }
  }

  lemma {:induction false} TextLessConnected(a: Text, b: Text)
    requires a != b
    ensures TextLess(a, b) || TextLess(b, a)
  {
    if a != [] && b != [] && a[0] == b[0] {
      assert a == [a[0]] + a[1..] && b == [b[0]] + b[1..];
      TextLessConnected(a[1..], b[1..]);
    }
  }

  lemma {:induction false} TextLessIrreflexive(a: Text)
    ensures !TextLess(a, a)
  {
    if a != [] {
      TextLessIrreflexive(a[1..]);
    }
  }

  lemma TextOrder()
    ensures StrictTotalOrder(TextLess)
  {
    forall a: Text ensures !TextLess(a, a) { TextLessIrreflexive(a); }
    forall a: Text, b: Text, c: Text | TextLess(a, b) && TextLess(b, c) ensures TextLess(a, c) {
      TextLessTransitive(a, b, c);
    }
    forall a: Text, b: Text | a != b ensures TextLess(a, b) || TextLess(b, a) {
      TextLessConnected(a, b);
    }
  }

  lemma AddrOrder()
    ensures StrictTotalOrder(AddrLess)
  {
    TextOrder();
    forall a: Addr, b: Addr, c: Addr | AddrLess(a, b) && AddrLess(b, c) ensures AddrLess(a, c) {
      if a.IP6? && b.IP6? && c.IP6? && TextLess(a.zone, b.zone) && TextLess(b.zone, c.zone) {
        TextLessTransitive(a.zone, b.zone, c.zone);
      }
    }
    forall a: Addr ensures !AddrLess(a, a) { if a.IP6? { TextLessIrreflexive(a.zone); } }
    forall a: Addr, b: Addr | a != b ensures AddrLess(a, b) || AddrLess(b, a) {
      if a.IP6? && b.IP6? && a.zone != b.zone { TextLessConnected(a.zone, b.zone); }
    }
  }

  function Elems<T>(xs: seq<T>): set<T> { set x | x in xs }

  ghost predicate NoDup<T>(xs: seq<T>) {
    forall i, j :: 0 <= i < j < |xs| ==> xs[i] != xs[j]
  }

  ghost predicate Ascending<T>(xs: seq<T>, lt: (T, T) -> bool) {
    forall i, j :: 0 <= i < j < |xs| ==> lt(xs[i], xs[j])
  }

  lemma NoDupByLast<T>(xs: seq<T>, x: T)
    ensures NoDup(xs + [x]) <==> NoDup(xs) && x !in xs
  {
    var all := xs + [x];
    assert forall i :: 0 <= i < |xs| ==> all[i] == xs[i];
    if NoDup(all) {
      forall i | 0 <= i < |xs| ensures xs[i] != x {
        assert all[i] != all[|xs|];
      }
    }
  }

  lemma {:induction false} NoDupSize<T>(xs: seq<T>)
    ensures |Elems(xs)| <= |xs|
    ensures NoDup(xs) <==> |Elems(xs)| == |xs|
  {
    if xs != [] {
      var last := |xs| - 1;
      NoDupSize(xs[..last]);
      assert xs == xs[..last] + [xs[last]];
      NoDupByLast(xs[..last], xs[last]);
      assert Elems(xs) == Elems(xs[..last]) + {xs[last]};
      if xs[last] in xs[..last] {
        assert Elems(xs) == Elems(xs[..last]);
      }
    }
  }

  lemma {:induction false} NoDupCount<T>(xs: seq<T>, x: T)
    requires NoDup(xs)
    ensures multiset(xs)[x] == if x in xs then 1 else 0
  {
    if xs != [] {
      var last := |xs| - 1;
      NoDupCount(xs[..last], x);
      assert xs == xs[..last] + [xs[last]];
      NoDupByLast(xs[..last], xs[last]);
    }
  }

  lemma {:induction false} LeastExists<T(!new)>(s: set<T>, lt: (T, T) -> bool)
    requires StrictTotalOrder(lt) && s != {}
    ensures exists m :: m in s && forall y :: y in s && y != m ==> lt(m, y)
  {
    var x :| x in s;
    var t := s - {x};
    if t == {} {
      assert forall y :: y in s ==> y in t || y == x;
    } else {
      LeastExists(t, lt);
      var m :| m in t && forall y :: y in t && y != m ==> lt(m, y);
      var r := if lt(x, m) then x else m;
      forall y | y in s && y != r ensures lt(r, y) {
        assert y == x || y in t;
        assert x != m && (lt(x, m) || lt(m, x));
      }
    }
  }

  /** The member of a non-empty set that is below all others. */
  ghost function Least<T(!new)>(s: set<T>, lt: (T, T) -> bool): (m: T)
    requires StrictTotalOrder(lt) && s != {}
    ensures m in s && forall y :: y in s && y != m ==> lt(m, y)
  {
    LeastExists(s, lt);
    var m :| m in s && forall y :: y in s && y != m ==> lt(m, y);
    m
  }

  /** The strictly ascending listing of a finite set. */
  ghost function Listing<T(!new)>(s: set<T>, lt: (T, T) -> bool): seq<T>
    requires StrictTotalOrder(lt)
  {
    if s == {} then []
    else
      var m := Least(s, lt);
      [m] + Listing(s - {m}, lt)
  }

  lemma {:induction false} ListingLists<T(!new)>(s: set<T>, lt: (T, T) -> bool)
    requires StrictTotalOrder(lt)
    ensures var xs := Listing(s, lt); Ascending(xs, lt) && NoDup(xs) && Elems(xs) == s && |xs| == |s|
  {
    if s == {} {
      assert Elems(Listing(s, lt)) == {};
    } else {
      var m := Least(s, lt);
      ListingLists(s - {m}, lt);
      LeastFirst(m, Listing(s - {m}, lt), lt);
    }
  }

  lemma LeastFirst<T(!new)>(m: T, rest: seq<T>, lt: (T, T) -> bool)
    requires StrictTotalOrder(lt) && Ascending(rest, lt) && NoDup(rest)
    requires m !in Elems(rest) && forall x :: x in Elems(rest) ==> lt(m, x)
    ensures Ascending([m] + rest, lt) && NoDup([m] + rest) && Elems([m] + rest) == {m} + Elems(rest)
  {
    assert forall i :: 0 <= i < |rest| ==> rest[i] in Elems(rest);
  }

  /** A set has only one strictly ascending listing: this is what makes sorting erase any order. */
  lemma {:induction false} ListingUnique<T(!new)>(xs: seq<T>, lt: (T, T) -> bool)
    requires StrictTotalOrder(lt) && Ascending(xs, lt)
    ensures xs == Listing(Elems(xs), lt)
  {
    if xs != [] {
      var s := Elems(xs);
      assert xs[0] in s;
      var m := Least(s, lt);
      assert m == xs[0] by {
        assert m in xs;
        var i :| 0 <= i < |xs| && xs[i] == m;
      }
      assert Elems(xs[1..]) == s - {m} by {
        assert forall x :: x in xs[1..] ==> lt(xs[0], x);
      }
      ListingUnique(xs[1..], lt);
    } else {
      assert Elems(xs) == {};
    }
  }

  function Identity<T>(x: T): T { x }

  /** In order by key, equal keys allowed. */
  ghost predicate Sorted<T, K>(xs: seq<T>, key: T -> K, lt: (K, K) -> bool) {
    forall i, j :: 0 <= i < j < |xs| ==> !lt(key(xs[j]), key(xs[i]))
  }

  function Insert<T, K>(x: T, xs: seq<T>, key: T -> K, lt: (K, K) -> bool): (r: seq<T>)
    ensures multiset(r) == multiset{x} + multiset(xs)
  {
    if xs == [] || !lt(key(xs[0]), key(x)) then
      [x] + xs
    else
      assert xs == [xs[0]] + xs[1..];
      [xs[0]] + Insert(x, xs[1..], key, lt)
  }

  /** What slices.SortFunc and sort.Strings leave behind: the same items, in order. */
  function Sort<T, K>(xs: seq<T>, key: T -> K, lt: (K, K) -> bool): (r: seq<T>)
    ensures multiset(r) == multiset(xs)
    ensures |r| == |xs|
  {
    if xs == [] then []
    else
      assert xs == [xs[0]] + xs[1..];
      var r := Insert(xs[0], Sort(xs[1..], key, lt), key, lt);
      assert |multiset(r)| == |r|;
      r
  }

  lemma {:induction false} InsertSorted<T, K(!new)>(x: T, xs: seq<T>, key: T -> K, lt: (K, K) -> bool)
    requires StrictTotalOrder(lt) && Sorted(xs, key, lt)
    ensures Sorted(Insert(x, xs, key, lt), key, lt)
  {
    if xs != [] && lt(key(xs[0]), key(x)) {
      InsertSorted(x, xs[1..], key, lt);
      var rest := Insert(x, xs[1..], key, lt);
      forall j | 0 <= j < |rest| ensures !lt(key(rest[j]), key(xs[0])) {
        assert rest[j] in multiset(rest);
        assert rest[j] == x || rest[j] in xs[1..];
      }
    }
  }

  lemma {:induction false} SortSorts<T, K(!new)>(xs: seq<T>, key: T -> K, lt: (K, K) -> bool)
    requires StrictTotalOrder(lt)
    ensures Sorted(Sort(xs, key, lt), key, lt)
  {
    if xs != [] {
      SortSorts(xs[1..], key, lt);
      InsertSorted(xs[0], Sort(xs[1..], key, lt), key, lt);
    }
  }

  lemma SameMultisetSameElems<T>(xs: seq<T>, ys: seq<T>)
    requires multiset(xs) == multiset(ys)
    ensures Elems(xs) == Elems(ys) && |xs| == |ys|
    ensures NoDup(xs) <==> NoDup(ys)
  {
    assert forall x :: x in xs ==> x in multiset(xs);
    assert forall x :: x in ys ==> x in multiset(ys);
    assert |multiset(xs)| == |xs|;
    assert |multiset(ys)| == |ys|;
    NoDupSize(xs);
    NoDupSize(ys);
  }

  /** Sorting a slice without duplicates gives the ascending listing of its elements. */
  lemma SortedNoDupIsListing<T(!new)>(xs: seq<T>, lt: (T, T) -> bool)
    requires StrictTotalOrder(lt) && NoDup(xs)
    ensures Sort(xs, Identity, lt) == Listing(Elems(xs), lt)
  {
    var r := Sort(xs, Identity, lt);
    SortSorts(xs, Identity, lt);
    SameMultisetSameElems(xs, r);
    assert Ascending(r, lt) by {
      forall i, j | 0 <= i < j < |r| ensures lt(r[i], r[j]) {
        assert !lt(r[j], r[i]) && r[i] != r[j];
      }
    }
    ListingUnique(r, lt);
  }

  /** A multiset has only one sorted sequence. */
  lemma {:induction false} SortedUnique<T(!new)>(xs: seq<T>, ys: seq<T>, lt: (T, T) -> bool)
    requires StrictTotalOrder(lt) && Sorted(xs, Identity, lt) && Sorted(ys, Identity, lt)
    requires multiset(xs) == multiset(ys)
    ensures xs == ys
  {
    SameMultisetSameElems(xs, ys);
    if xs != [] {
      FirstsMatch(xs, ys, lt);
      SameTails(xs, ys);
      SortedUnique(xs[1..], ys[1..], lt);
      assert xs == [xs[0]] + xs[1..] && ys == [ys[0]] + ys[1..];
    }
  }

  lemma SameTails<T>(xs: seq<T>, ys: seq<T>)
    requires xs != [] && ys != [] && xs[0] == ys[0] && multiset(xs) == multiset(ys)
    ensures multiset(xs[1..]) == multiset(ys[1..])
  {
    assert xs == [xs[0]] + xs[1..] && ys == [ys[0]] + ys[1..];
    assert multiset(xs[1..]) == multiset(xs) - multiset{xs[0]};
    assert multiset(ys[1..]) == multiset(ys) - multiset{ys[0]};
  }

  lemma FirstsMatch<T(!new)>(xs: seq<T>, ys: seq<T>, lt: (T, T) -> bool)
    requires StrictTotalOrder(lt) && Sorted(xs, Identity, lt) && Sorted(ys, Identity, lt)
    requires xs != [] && ys != [] && Elems(xs) == Elems(ys)
    ensures xs[0] == ys[0]
  {
    assert xs[0] in Elems(xs) && ys[0] in Elems(ys);
    var i :| 0 <= i < |ys| && ys[i] == xs[0];
    var j :| 0 <= j < |xs| && xs[j] == ys[0];
    if i > 0 && j > 0 {
      assert !lt(Identity(ys[i]), Identity(ys[0])) && !lt(Identity(xs[j]), Identity(xs[0]));
    }
  }
}
