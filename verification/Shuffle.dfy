/** shuffle.go */
module Shuffling {
  import opened Slices

  datatype Swap = Swap(i: nat, j: nat)

  function Swapped<T>(s: seq<T>, w: Swap): seq<T>
    requires w.i < |s| && w.j < |s|
  {
    s[w.i := s[w.j]][w.j := s[w.i]]
  }

  predicate Within(swaps: seq<Swap>, n: nat) {
    forall k :: 0 <= k < |swaps| ==> swaps[k].i < n && swaps[k].j < n
  }

  /** One swap after the other. */
  function Shuffled<T>(s: seq<T>, swaps: seq<Swap>): (r: seq<T>)
    requires Within(swaps, |s|)
    ensures |r| == |s|
    decreases |swaps|
  {
    if swaps == [] then s else Shuffled(Swapped(s, swaps[0]), swaps[1..])
  }

  method SwapInPlace<T>(rrs: Slice<T>, w: Swap)
    requires rrs.Valid() && w.i < rrs.len && w.j < rrs.len
    modifies rrs.data
    ensures rrs.View() == Swapped(old(rrs.View()), w)
    ensures rrs.data[rrs.len..] == old(rrs.data[rrs.len..])
  {
    rrs.data[w.i], rrs.data[w.j] := rrs.data[w.j], rrs.data[w.i];
  }

  /** The swaps of a shuffle of `n` elements: each position from the last down to the second, with itself or one
      before it. */
  ghost predicate Shuffles(swaps: seq<Swap>, n: nat) {
    && |swaps| == (if n == 0 then 0 else n - 1)
    && forall k :: 0 <= k < |swaps| ==> swaps[k].i == n - 1 - k && swaps[k].j <= swaps[k].i
  }

  /** rand.Shuffle, with any numbers in their ranges for its random numbers. */
  method Shuffle<T>(rrs: Slice<T>) returns (ghost swaps: seq<Swap>)
    requires rrs.Valid()
    modifies rrs.data
    ensures Shuffles(swaps, rrs.len) && rrs.View() == Shuffled(old(rrs.View()), swaps)
    ensures rrs.data[rrs.len..] == old(rrs.data[rrs.len..])
  {
    swaps := [];
    if rrs.len == 0 {
      return;
    }
    for i := rrs.len downto 1
      invariant |swaps| == rrs.len - i
      invariant forall k :: 0 <= k < |swaps| ==> swaps[k].i == rrs.len - 1 - k && swaps[k].j <= swaps[k].i
      invariant rrs.View() == Shuffled(old(rrs.View()), swaps)
      invariant rrs.data[rrs.len..] == old(rrs.data[rrs.len..])
    {
      var j: nat :| j <= i;
      ShuffledThen(old(rrs.View()), swaps, Swap(i, j));
      SwapInPlace(rrs, Swap(i, j));
      swaps := swaps + [Swap(i, j)];
    }
  }

  lemma {:induction false} ShuffledThen<T>(s: seq<T>, swaps: seq<Swap>, w: Swap)
    requires Within(swaps, |s|) && w.i < |s| && w.j < |s|
    ensures Within(swaps + [w], |s|) && Shuffled(s, swaps + [w]) == Swapped(Shuffled(s, swaps), w)
    decreases |swaps|
  {
    if swaps != [] {
      ShuffledThen(Swapped(s, swaps[0]), swaps[1..], w);
      assert (swaps + [w])[1..] == swaps[1..] + [w];
    } else {
      assert (swaps + [w])[1..] == [];
    }
  }

  lemma SwapKeepsAll<T>(s: seq<T>, w: Swap)
    requires w.i < |s| && w.j < |s|
    ensures multiset(Swapped(s, w)) == multiset(s)
  {
  }

  /** Shuffling loses nothing and adds nothing. */
  lemma {:induction false} ShuffleKeepsAll<T>(s: seq<T>, swaps: seq<Swap>)
    requires Within(swaps, |s|)
    ensures multiset(Shuffled(s, swaps)) == multiset(s)
    decreases |swaps|
  {
    if swaps != [] {
      SwapKeepsAll(s, swaps[0]);
      ShuffleKeepsAll(Swapped(s, swaps[0]), swaps[1..]);
    }
  }

  /** Nothing happens to less than two elements. */
  lemma {:induction false} ShortIsUnchanged<T>(s: seq<T>, swaps: seq<Swap>)
    requires |s| <= 1 && Within(swaps, |s|)
    ensures Shuffled(s, swaps) == s
    decreases |swaps|
  {
    if swaps != [] {
      assert Swapped(s, swaps[0]) == s;
      ShortIsUnchanged(s, swaps[1..]);
    }
  }

  /** Swaps in front of an element leave it alone. */
  lemma {:induction false} ShuffledFront<T>(s: seq<T>, x: T, swaps: seq<Swap>)
    requires Within(swaps, |s|)
    ensures Shuffled(s + [x], swaps) == Shuffled(s, swaps) + [x]
    decreases |swaps|
  {
    if swaps != [] {
      assert Swapped(s + [x], swaps[0]) == Swapped(s, swaps[0]) + [x];
      ShuffledFront(Swapped(s, swaps[0]), x, swaps[1..]);
    }
  }

  lemma FrontsMatch<T>(u: seq<T>, t: seq<T>)
    requires t != [] && |u| == |t| && u[|u| - 1] == t[|t| - 1] && multiset(u) == multiset(t)
    ensures multiset(u[..|u| - 1]) == multiset(t[..|t| - 1])
  {
    assert u == u[..|u| - 1] + [u[|u| - 1]] && t == t[..|t| - 1] + [t[|t| - 1]];
    assert multiset(u[..|u| - 1]) == multiset(u) - multiset{t[|t| - 1]};
    assert multiset(t[..|t| - 1]) == multiset(t) - multiset{t[|t| - 1]};
  }

  /** A swap that puts the last element in place goes before the swaps of the others. */
  lemma SwapLastFirst<T>(s: seq<T>, t: seq<T>, w: Swap, swaps: seq<Swap>)
    requires |s| == |t| > 1 && w.j <= w.i == |s| - 1 && Swapped(s, w)[w.i] == t[w.i]
    requires Shuffles(swaps, |s| - 1) && Shuffled(Swapped(s, w)[..w.i], swaps) == t[..w.i]
    ensures Shuffles([w] + swaps, |s|) && Shuffled(s, [w] + swaps) == t
  {
    var u := Swapped(s, w);
    ShuffledFront(u[..w.i], u[w.i], swaps);
    assert u[..w.i] + [u[w.i]] == u && t[..w.i] + [t[w.i]] == t;
    assert ([w] + swaps)[1..] == swaps;
  }

  /** The first swap brings the last element of `t` to its place. */
  lemma LastInPlace<T>(s: seq<T>, t: seq<T>) returns (w: Swap)
    requires |s| == |t| > 1 && multiset(s) == multiset(t)
    ensures w.j <= w.i == |s| - 1 && Swapped(s, w)[w.i] == t[w.i]
    ensures multiset(Swapped(s, w)[..w.i]) == multiset(t[..w.i])
  {
    var last := |t| - 1;
    assert t[last] in multiset(s);
    var j :| 0 <= j < |s| && s[j] == t[last];
    w := Swap(last, j);
    SwapKeepsAll(s, w);
    FrontsMatch(Swapped(s, w), t);
  }

  /** The swaps that turn `s` into `t`, in the order in which Shuffle makes them. */
  lemma {:induction false} SwapsTo<T>(s: seq<T>, t: seq<T>) returns (swaps: seq<Swap>)
    requires |s| == |t| && multiset(s) == multiset(t)
    ensures Shuffles(swaps, |s|) && Shuffled(s, swaps) == t
    decreases |t|
  {
    swaps := [];
    if |t| == 1 {
      assert s[0] in multiset(t);
    } else if |t| > 1 {
      var w := LastInPlace(s, t);
      var front := Swapped(s, w)[..w.i];
      var rest := SwapsTo(front, t[..w.i]);
      SwapLastFirst(s, t, w, rest);
      swaps := [w] + rest;
    }
  }

  /** A shuffle can bring about exactly the permutations of what it is given. */
  lemma ShuffleReaches<T>(s: seq<T>, t: seq<T>)
    ensures multiset(s) == multiset(t) <==> exists swaps :: Shuffles(swaps, |s|) && Shuffled(s, swaps) == t
  {
    if multiset(s) == multiset(t) {
      assert |multiset(s)| == |s| && |multiset(t)| == |t|;
      var swaps := SwapsTo(s, t);
    }
    if swaps :| Shuffles(swaps, |s|) && Shuffled(s, swaps) == t {
      ShuffleKeepsAll(s, swaps);
    }
  }
}
