/**
 * The arrays behind slices that live on in maps and in finished groups: `cells` holds their
 * contents by identity, and a slice header names one of them and a length.
 */
module Cells {
  import opened Ordering
  import opened Slices
  import opened Dedupe
  import opened Values

  datatype SliceHeader = SliceHeader(cell: nat, len: nat)

  predicate InBounds<T>(cells: seq<seq<T>>, h: SliceHeader) {
    h.cell < |cells| && h.len <= |cells[h.cell]|
  }

  function Read<T>(cells: seq<seq<T>>, h: SliceHeader): seq<T>
    requires InBounds(cells, h)
  {
    cells[h.cell][..h.len]
  }

  /** Nothing but the array `c` was written to; arrays may have been added. */
  ghost predicate WroteOnly<T>(before: seq<seq<T>>, after: seq<seq<T>>, c: nat) {
    && |before| <= |after|
    && (forall d :: 0 <= d < |before| && d != c ==> after[d] == before[d])
    && (c < |before| ==> |after[c]| == |before[c]|)
  }

  method Allocate<T>(cells: seq<seq<T>>, items: seq<T>) returns (after: seq<seq<T>>, h: SliceHeader)
    ensures after == cells + [items] && h == SliceHeader(|cells|, |items|)
    ensures InBounds(after, h) && Read(after, h) == items
  {
    after, h := cells + [items], SliceHeader(|cells|, |items|);
  }

  /** append(h, more...) */
  method Append<T>(cells: seq<seq<T>>, h: SliceHeader, more: seq<T>, zero: T)
      returns (after: seq<seq<T>>, r: SliceHeader)
    requires InBounds(cells, h)
    ensures WroteOnly(cells, after, h.cell) && InBounds(after, r)
    ensures r.cell == h.cell || r.cell >= |cells|
    ensures Read(after, r) == Read(cells, h) + more
  {
    var s := Load(cells, h);
    var t := AppendAll(s, more, zero);
    after, r := Store(cells, h, s, t);
  }

  /** Values.Dedupe on a header that other headers may share an array with. */
  method DedupeAt<T(==)>(cells: seq<seq<T>>, h: SliceHeader, zero: T)
    returns (after: seq<seq<T>>, r: SliceHeader, ghost listed: seq<T>)
    requires InBounds(cells, h)
    ensures WroteOnly(cells, after, h.cell) && InBounds(after, r)
    ensures r.cell == h.cell || r.cell >= |cells|
    ensures Deduped(Read(cells, h), Read(after, r), listed)
    ensures NoDup(Read(cells, h)) ==> after == cells && r == h
    ensures !NoDup(Read(cells, h)) ==> (r.cell == h.cell <==> 2 * |listed| <= |cells[h.cell]|)
    ensures !NoDup(Read(cells, h)) ==>
      InBounds(after, h) && Read(after, h) == SeenByOldHeader(Read(cells, h), listed, |cells[h.cell]|, zero)
    ensures OnlyWrote(cells[h.cell], after[h.cell], Elems(Read(cells, h)) + {zero})
  {
    var s := Load(cells, h);
    var t;
    t, listed := DedupeInPlace(s, zero);
    after, r := Store(cells, h, s, t);
  }

  /** slices.SortFunc on such a header. */
  method SortAt<T>(cells: seq<seq<T>>, h: SliceHeader, lt: (T, T) -> bool) returns (after: seq<seq<T>>)
    requires InBounds(cells, h)
    ensures WroteOnly(cells, after, h.cell) && |after| == |cells| && InBounds(after, h)
    ensures Read(after, h) == Sort(Read(cells, h), Identity, lt)
    ensures after[h.cell][h.len..] == cells[h.cell][h.len..]
    ensures OnlyWrote(cells[h.cell], after[h.cell], Elems(Read(cells, h)))
  {
    var s := Load(cells, h);
    SortInPlace(s, lt);
    var r;
    after, r := Store(cells, h, s, s);
    SortOnlyWrote(cells[h.cell], after[h.cell], h.len, lt);
  }

  method Load<T>(cells: seq<seq<T>>, h: SliceHeader) returns (s: Slice<T>)
    requires InBounds(cells, h)
    ensures fresh(s.data) && s.Valid() && s.len == h.len
    ensures s.data[..] == cells[h.cell] && s.View() == Read(cells, h)
  {
    var content := cells[h.cell];
    var data := new T[|content|](i requires 0 <= i < |content| => content[i]);
    s := Slice(data, h.len);
    assert s.data[..] == content;
  }

  /** Puts back the array of `s`, and keeps that of `t` if it is another one. */
  method Store<T>(cells: seq<seq<T>>, h: SliceHeader, s: Slice<T>, t: Slice<T>)
      returns (after: seq<seq<T>>, r: SliceHeader)
    requires InBounds(cells, h) && s.data.Length == |cells[h.cell]| && t.Valid()
    ensures WroteOnly(cells, after, h.cell) && InBounds(after, r)
    ensures Read(after, r) == t.View() && after[h.cell] == s.data[..]
    ensures t.data == s.data ==> r == SliceHeader(h.cell, t.len) && |after| == |cells|
    ensures t.data != s.data ==> r.cell >= |cells|
    ensures t == s && s.data[..] == cells[h.cell] ==> after == cells
  {
    after := cells[h.cell := s.data[..]];
    if t.data == s.data {
      r := SliceHeader(h.cell, t.len);
    } else {
      after, r := after + [t.data[..]], SliceHeader(|cells|, t.len);
    }
  }
}
