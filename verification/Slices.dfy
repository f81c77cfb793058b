/** Go slices: a window on the front of an array that other slices may share. */
module Slices {
  import opened Ordering

  /** The first `len` cells of `data`; the capacity is the length of `data`. */
  datatype Slice<T> = Slice(data: array<T>, len: nat) {
    predicate Valid() { len <= data.Length }

    ghost function View(): seq<T>
      requires Valid()
      reads data
    {
      data[..len]
    }
  }

  function Zeros<T>(n: nat, zero: T): seq<T> {
    seq(n, _ => zero)
  }

  /**
   * append(s, more...): in place when the capacity allows, otherwise into new, larger
   * storage. How much larger is up to the runtime.
   */
  method AppendAll<T>(s: Slice<T>, more: seq<T>, zero: T) returns (r: Slice<T>)
    requires s.Valid()
    modifies s.data
    ensures r.Valid() && r.View() == old(s.View()) + more
    ensures r.data == s.data || fresh(r.data)
  {
    if s.len + |more| <= s.data.Length {
      r := AppendInPlace(s, more);
    } else {
      r := AppendElsewhere(s, more, zero);
    }
  }

  method AppendInPlace<T>(s: Slice<T>, more: seq<T>) returns (r: Slice<T>)
    requires s.Valid() && s.len + |more| <= s.data.Length
    modifies s.data
    ensures r == Slice(s.data, s.len + |more|)
    ensures s.data[..] == old(s.data[..s.len]) + more + old(s.data[r.len..])
  {
    forall i | 0 <= i < |more| { s.data[s.len + i] := more[i]; }
    r := Slice(s.data, s.len + |more|);
    assert s.data[..] == old(s.data[..s.len]) + more + old(s.data[r.len..]);
  }

  method AppendElsewhere<T>(s: Slice<T>, more: seq<T>, zero: T) returns (r: Slice<T>)
    requires s.Valid()
    ensures r.Valid() && r.View() == s.View() + more
    ensures fresh(r.data)
  {
    var n := s.len + |more|;
    var capacity: nat :| n <= capacity;
    var data := new T[capacity](_ => zero);
    forall i | 0 <= i < s.len { data[i] := s.data[i]; }
    forall i | 0 <= i < |more| { data[s.len + i] := more[i]; }
    r := Slice(data, n);
    assert r.View() == s.View() + more;
  }

  /** slices.Grow(s, n): room for n more, in place or in new storage. */
  method Grow<T>(s: Slice<T>, n: nat, zero: T) returns (r: Slice<T>)
    requires s.Valid()
    ensures r.Valid() && r.View() == s.View() && s.len + n <= r.data.Length
    ensures r.data == s.data || fresh(r.data)
  {
    if s.len + n <= s.data.Length {
      r := s;
    } else {
      var capacity: nat :| s.len + n <= capacity;
      var data := new T[capacity](_ => zero);
      forall i | 0 <= i < s.len { data[i] := s.data[i]; }
      r := Slice(data, s.len);
      assert r.View() == s.View();
    }
  }

  /** slices.Delete(s, k, len(s)): the cells that drop out are set to the zero value. */
  method DeleteTail<T>(s: Slice<T>, k: nat, zero: T) returns (r: Slice<T>)
    requires s.Valid() && k <= s.len
    modifies s.data
    ensures r == Slice(s.data, k)
    ensures s.data[..] == old(s.data[..k]) + Zeros(s.len - k, zero) + old(s.data[s.len..])
  {
    forall i | k <= i < s.len { s.data[i] := zero; }
    r := Slice(s.data, k);
    assert s.data[..] == old(s.data[..k]) + Zeros(s.len - k, zero) + old(s.data[s.len..]);
  }

  /** `listed` holds every member of `s` once, in some order. */
  ghost predicate ListsOnce<T>(listed: seq<T>, s: set<T>) {
    NoDup(listed) && Elems(listed) == s && |listed| == |s|
  }

  /** The order in which a range over a map meets its keys: any order at all. */
  method RangeKeys<T(==)>(keys: set<T>) returns (order: seq<T>)
    ensures ListsOnce(order, keys)
  {
    order := [];
    var rest := keys;
    while rest != {}
      invariant rest <= keys && Elems(order) == keys - rest
      invariant NoDup(order) && |order| == |keys| - |rest|
      decreases |rest|
    {
      var k :| k in rest;
      assert Elems(order + [k]) == Elems(order) + {k};
      order, rest := order + [k], rest - {k};
    }
  }

  /** Every cell holds what it held before, or one of these values. */
  ghost predicate OnlyWrote<T>(before: seq<T>, after: seq<T>, values: set<T>) {
    |after| == |before| && forall i :: 0 <= i < |before| ==> after[i] == before[i] || after[i] in values
  }

  /** slices.SortFunc and sort.Strings: sorts the window where it lies. */
  method SortInPlace<T>(s: Slice<T>, lt: (T, T) -> bool)
    requires s.Valid()
    modifies s.data
    ensures s.View() == Sort(old(s.View()), Identity, lt)
    ensures s.data[s.len..] == old(s.data[s.len..])
  {
    var sorted := Sort(s.data[..s.len], Identity, lt);
    forall i | 0 <= i < s.len { s.data[i] := sorted[i]; }
    assert s.View() == sorted;
  }

  lemma SortOnlyWrote<T>(before: seq<T>, after: seq<T>, n: nat, lt: (T, T) -> bool)
    requires n <= |before| == |after| && after[..n] == Sort(before[..n], Identity, lt) && after[n..] == before[n..]
    ensures OnlyWrote(before, after, Elems(before[..n]))
  {
    SameMultisetSameElems(after[..n], before[..n]);
    forall i | 0 <= i < |before| ensures after[i] == before[i] || after[i] in Elems(before[..n]) {
      if i < n {
        assert after[..n][i] in Elems(after[..n]);
      } else {
        assert after[n..][i - n] == before[n..][i - n];
      }
    }
  }
}

/** dedupe.go */
module Dedupe {
  import opened Ordering
  import opened Slices

  class Deduper<V(==)> {
    var seen: set<V>

    constructor ()
      ensures seen == {}
    {
      seen := {};
    }

    method Clear()
      modifies this
      ensures seen == {}
    {
      seen := {};
    }

    method Add(more: seq<V>)
      modifies this
      ensures seen == old(seen) + Elems(more)
    {
      for i := 0 to |more|
        invariant seen == old(seen) + Elems(more[..i])
      {
        assert more[..i + 1] == more[..i] + [more[i]];
        seen := seen + {more[i]};
      }
      assert more[..|more|] == more;
    }

    /** Appends the unique values, in the order `listed` in which the map gives them. */
    method AppendTo(dst: Slice<V>, zero: V) returns (r: Slice<V>, ghost listed: seq<V>)
      requires dst.Valid()
      modifies dst.data
      ensures ListsOnce(listed, seen)
      ensures r.Valid() && r.View() == old(dst.View()) + listed
      ensures if dst.len + |seen| <= dst.data.Length
              then r.data == dst.data
                   && dst.data[..] == old(dst.data[..dst.len]) + listed + old(dst.data[dst.len + |seen|..])
              else fresh(r.data) && dst.data[..] == old(dst.data[..])
    {
      var keys := RangeKeys(seen);
      listed := keys;
      if |seen| == 0 {
        r := dst;
      } else if dst.len + |keys| <= dst.data.Length {
        r := AppendInPlace(dst, keys);
      } else {
        r := AppendElsewhere(dst, keys, zero);
      }
    }

    /** The unique values in order, whatever order the map gave them in. */
    method SortFunc(lt: (V, V) -> bool) returns (sorted: seq<V>)
      ensures exists listed :: ListsOnce(listed, seen) && sorted == Sort(listed, Identity, lt)
    {
      var listed := RangeKeys(seen);
      sorted := Sort(listed, Identity, lt);
    }
  }
}

/** values.go */
module Values {
  import opened Ordering
  import opened Slices
  import opened Dedupe

  /** What Dedupe leaves in a slice that held `before`, `listed` being the order its map gave. */
  ghost predicate Deduped<V>(before: seq<V>, after: seq<V>, listed: seq<V>) {
    && ListsOnce(listed, Elems(before))
    && |listed| <= |before|
    && after == if NoDup(before) then before else before[..|listed|] + listed
  }

  /** What a second header over the same cells reads after Dedupe met duplicates. */
  ghost function SeenByOldHeader<V>(before: seq<V>, listed: seq<V>, capacity: nat, zero: V): (seen: seq<V>)
    requires |listed| <= |before| <= capacity
  {
    var k, n := |listed|, |before|;
    if 2 * k <= capacity then (before[..k] + listed + Zeros(n, zero))[..n]
    else before[..k] + Zeros(n - k, zero)
  }

  /** The cells of an array after the tail of a slice was zeroed, and after the unique values were appended. */
  lemma AppendedBehind<V>(cells: seq<V>, trimmed: seq<V>, after: seq<V>, n: nat, listed: seq<V>, zero: V)
    requires |listed| <= n <= |cells|
    requires trimmed == cells[..|listed|] + Zeros(n - |listed|, zero) + cells[n..]
    requires after ==
      if 2 * |listed| <= |cells| then trimmed[..|listed|] + listed + trimmed[2 * |listed|..] else trimmed
    ensures trimmed[..|listed|] == cells[..n][..|listed|]
    ensures |after| == |cells| && after[..n] == SeenByOldHeader(cells[..n], listed, |cells|, zero)
    ensures OnlyWrote(cells, after, Elems(listed) + {zero})
  {
    assert OnlyWrote(cells, trimmed, {zero});
    assert 2 * |listed| <= |cells| ==> forall i :: |listed| <= i < 2 * |listed| ==> after[i] == listed[i - |listed|];
  }

  /**
   * Values.Dedupe as written: the unique values are appended behind the first values that
   * are left, not in place of them. `listed` is the order in which the map gave them.
   */
  method DedupeInPlace<V(==)>(vs: Slice<V>, zero: V) returns (r: Slice<V>, ghost listed: seq<V>)
    requires vs.Valid()
    modifies vs.data
    ensures r.Valid() && Deduped(old(vs.View()), r.View(), listed)
    ensures NoDup(old(vs.View())) ==> r == vs && vs.data[..] == old(vs.data[..])
    ensures !NoDup(old(vs.View())) ==> if 2 * |listed| <= vs.data.Length then r.data == vs.data else fresh(r.data)
    ensures !NoDup(old(vs.View())) ==>
      vs.View() == SeenByOldHeader(old(vs.View()), listed, vs.data.Length, zero)
    ensures OnlyWrote(old(vs.data[..]), vs.data[..], Elems(old(vs.View())) + {zero})
  {
    ghost var before := vs.View();
    NoDupSize(before);
    r, listed := vs, before;
    if vs.len < 2 {
      return;
    }
    var deduper := new Deduper<V>();
    deduper.Add(vs.data[..vs.len]);
    if |deduper.seen| < vs.len {
      r, listed := AppendUnique(vs, deduper, zero);
    }
  }

  /** The branch that finds duplicates. */
  method AppendUnique<V(==)>(vs: Slice<V>, deduper: Deduper<V>, zero: V) returns (r: Slice<V>, ghost listed: seq<V>)
    requires vs.Valid() && |deduper.seen| < vs.len
    modifies vs.data
    ensures r.Valid() && if 2 * |listed| <= vs.data.Length then r.data == vs.data else fresh(r.data)
    ensures ListsOnce(listed, deduper.seen)
    ensures r.View() == old(vs.View())[..|listed|] + listed
    ensures vs.View() == SeenByOldHeader(old(vs.View()), listed, vs.data.Length, zero)
    ensures OnlyWrote(old(vs.data[..]), vs.data[..], deduper.seen + {zero})
  {
    ghost var cells := vs.data[..];
    var kept := DeleteTail(vs, |deduper.seen|, zero);
    ghost var trimmed := vs.data[..];
    r, listed := deduper.AppendTo(kept, zero);
    AppendedBehind(cells, trimmed, vs.data[..], vs.len, listed, zero);
  }

  /** The value set always survives, but the result is free of duplicates only if the input was. */
  lemma DedupeKeepsValues<V>(before: seq<V>, after: seq<V>, listed: seq<V>)
    requires Deduped(before, after, listed)
    ensures Elems(after) == Elems(before)
    ensures NoDup(after) <==> NoDup(before)
    ensures !NoDup(before) ==> |after| == 2 * |Elems(before)| && |after| != |Elems(after)|
  {
    if !NoDup(before) {
      NoDupSize(before);
      NoDupSize(after);
      assert Elems(after) == Elems(before[..|listed|]) + Elems(listed);
      assert before[0] in Elems(before);
    }
  }

  /** Two equal addresses stay two, and a second header over three of them then reads a zero value. */
  lemma DuplicatesStay<V>(a: V, zero: V, after: seq<V>, listed: seq<V>)
    requires a != zero && Deduped([a, a, a], after, listed)
    ensures after == [a, a]
    ensures SeenByOldHeader([a, a, a], listed, 3, zero) == [a, a, zero]
  {
    var before := [a, a, a];
    assert before[0] == before[1];
    assert Elems(before) == {a};
    assert listed[0] in Elems(listed);
  }
}
