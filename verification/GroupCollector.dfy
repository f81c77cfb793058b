/** service/collectors.go: the definitions of groups. */
module GroupCollecting {
  import opened Ordering
  import opened Slices
  import opened Dedupe
  import opened Cells
  import opened Wrappers
  import opened GroupDefinition
  import opened Zone
  import opened References

  const NO_TEXT: Text := []

  /** A GroupDefinition as stored: its services are a header over an array that others may refer to. */
  datatype DefinitionRef = DefinitionRef(name: Text, services: SliceHeader)

  ghost function DefinitionNames(defs: seq<DefinitionRef>): seq<Text> {
    seq(|defs|, i requires 0 <= i < |defs| => defs[i].name)
  }

  function DefinitionName(def: DefinitionRef): Text { def.name }

  /** Sorting definitions of different names puts their names in the one ascending order. */
  lemma SortedNames(defs: seq<DefinitionRef>, names: set<Text>)
    requires NoDup(DefinitionNames(defs)) && Elems(DefinitionNames(defs)) == names
    ensures DefinitionNames(Sort(defs, DefinitionName, TextLess)) == TextListing(names)
  {
    TextOrder();
    var sorted := Sort(defs, DefinitionName, TextLess);
    SortSorts(defs, DefinitionName, TextLess);
    SortedKeys(defs, sorted);
    assert Ascending(DefinitionNames(sorted), TextLess) by {
      forall i, j | 0 <= i < j < |sorted| ensures TextLess(sorted[i].name, sorted[j].name) {
        assert !TextLess(DefinitionName(sorted[j]), DefinitionName(sorted[i]));
        assert DefinitionNames(sorted)[i] != DefinitionNames(sorted)[j];
      }
    }
    TextListingUnique(DefinitionNames(sorted));
  }

  lemma SortedFrom(defs: seq<DefinitionRef>, def: DefinitionRef)
    requires def in Sort(defs, DefinitionName, TextLess)
    ensures def in defs
  {
    assert def in multiset(Sort(defs, DefinitionName, TextLess));
  }

  function Pairs(order: seq<Text>, lists: seq<SliceHeader>): seq<DefinitionRef>
    requires |order| == |lists|
  {
    seq(|order|, i requires 0 <= i < |order| => DefinitionRef(order[i], lists[i]))
  }

  lemma PairsSorted(order: seq<Text>, lists: seq<SliceHeader>)
    requires NoDup(order) && |order| == |lists|
    ensures var sorted := Sort(Pairs(order, lists), DefinitionName, TextLess);
      && DefinitionNames(sorted) == TextListing(Elems(order))
      && forall def :: def in sorted ==> exists i :: 0 <= i < |order| && def == DefinitionRef(order[i], lists[i])
  {
    assert DefinitionNames(Pairs(order, lists)) == order;
    SortedNames(Pairs(order, lists), Elems(order));
    forall def | def in Sort(Pairs(order, lists), DefinitionName, TextLess)
      ensures exists i :: 0 <= i < |order| && def == DefinitionRef(order[i], lists[i])
    {
      SortedFrom(Pairs(order, lists), def);
    }
  }

  lemma SortedKeys(defs: seq<DefinitionRef>, sorted: seq<DefinitionRef>)
    requires multiset(defs) == multiset(sorted) && NoDup(DefinitionNames(defs))
    ensures Elems(DefinitionNames(sorted)) == Elems(DefinitionNames(defs)) && NoDup(DefinitionNames(sorted))
  {
    SameMultisetSameElems(defs, sorted);
    var names, after := DefinitionNames(defs), DefinitionNames(sorted);
    forall n | n in names ensures n in after {
      var i :| 0 <= i < |defs| && defs[i].name == n;
      assert defs[i] in Elems(defs);
      var j :| 0 <= j < |sorted| && sorted[j] == defs[i];
      assert after[j] == n;
    }
    forall n | n in after ensures n in names {
      var i :| 0 <= i < |sorted| && sorted[i].name == n;
      assert sorted[i] in Elems(sorted);
      var j :| 0 <= j < |defs| && defs[j] == sorted[i];
      assert names[j] == n;
    }
    NoDupSize(names);
    NoDupSize(after);
  }

  /** Dedupes and sorts services in the cells they are stored in. */
  method RelistSlice(services: Slice<Text>, dedupe: Deduper<Text>) returns (r: Slice<Text>)
    requires services.Valid()
    modifies dedupe, services.data
    ensures r.Valid() && r.data == services.data
    ensures r.View() == TextListing(Elems(old(services.View())))
    ensures Elems(services.View()) == Elems(old(services.View()))
  {
    ghost var cells := services.data[..];
    assert services.View() == cells[..services.len];
    NoDupSize(cells[..services.len]);
    dedupe.Clear();
    dedupe.Add(services.data[..services.len]);
    ghost var listed;
    r, listed := dedupe.AppendTo(Slice(services.data, 0), NO_TEXT);
    assert r.data == services.data && services.data[..] == [] + listed + cells[|listed|..];
    assert r.View() == listed;
    SortInPlace(r, TextLess);
    assert services.data[r.len..] == cells[r.len..];
    TextOrder();
    SortedNoDupIsListing(listed, TextLess);
    TextListingLists(Elems(cells[..services.len]));
    SameSetAbove(cells, services.data[..], services.len, r.len);
  }

  lemma SameSetAbove(before: seq<Text>, after: seq<Text>, n: nat, k: nat)
    requires k <= n <= |before| == |after|
    requires Elems(after[..k]) == Elems(before[..n]) && after[k..] == before[k..]
    ensures Elems(after[..n]) == Elems(before[..n])
  {
    forall x | x in after[..n] ensures x in before[..n] {
      var i :| 0 <= i < n && after[i] == x;
      if i < k {
        assert after[..k][i] == x;
        assert x in Elems(after[..k]);
      } else {
        assert after[k..][i - k] == before[k..][i - k];
        assert before[..n][i] == x;
      }
    }
    forall x | x in before[..n] ensures x in after[..n] {
      assert x in Elems(after[..k]);
    }
  }

  /** Dedupes and sorts services in the array they are stored in. */
  method Relist(cells: seq<seq<Text>>, h: SliceHeader) returns (after: seq<seq<Text>>, r: SliceHeader)
    requires InBounds(cells, h)
    ensures WroteOnly(cells, after, h.cell) && |after| == |cells| && InBounds(after, h)
    ensures InBounds(after, r) && r.cell == h.cell
    ensures Read(after, r) == TextListing(Elems(Read(cells, h)))
    ensures Elems(Read(after, h)) == Elems(Read(cells, h))
  {
    var s := Load(cells, h);
    var dedupe := new Deduper<Text>();
    var t := RelistSlice(s, dedupe);
    after, r := Store(cells, h, s, t);
  }

  /** `list` is what `h` held, relisted in the same array. */
  ghost predicate RelistedTo(cells: seq<seq<Text>>, after: seq<seq<Text>>, h: SliceHeader, list: SliceHeader)
    requires InBounds(cells, h)
  {
    && InBounds(after, list) && InBounds(after, h)
    && Read(after, list) == TextListing(Elems(Read(cells, h)))
    && Elems(Read(after, h)) == Elems(Read(cells, h))
  }

  /** Relists one after the other slices that share no array. */
  method RelistEach(cells: seq<seq<Text>>, hs: seq<SliceHeader>)
      returns (after: seq<seq<Text>>, lists: seq<SliceHeader>)
    requires forall i :: 0 <= i < |hs| ==> InBounds(cells, hs[i])
    requires forall i, j :: 0 <= i < j < |hs| ==> hs[i].cell != hs[j].cell
    ensures |after| == |cells| && |lists| == |hs|
    ensures forall h :: InBounds(cells, h) ==> InBounds(after, h)
    ensures forall i :: 0 <= i < |hs| ==> RelistedTo(cells, after, hs[i], lists[i])
  {
    after, lists := cells, [];
    for i := 0 to |hs|
      invariant |after| == |cells| && |lists| == i
      invariant forall h :: InBounds(cells, h) ==> InBounds(after, h)
      invariant forall j :: i <= j < |hs| ==> after[hs[j].cell] == cells[hs[j].cell]
      invariant forall j :: 0 <= j < i ==> lists[j].cell == hs[j].cell && RelistedTo(cells, after, hs[j], lists[j])
    {
      var list;
      after, list := Relist(after, hs[i]);
      lists := lists + [list];
    }
  }

  /** The definition of a group, with an array that belongs to that group alone. */
  ghost predicate Stored(cells: seq<seq<Text>>, owner: map<nat, Text>, g: Text, def: DefinitionRef) {
    && def.name == g && InBounds(cells, def.services)
    && def.services.cell in owner && owner[def.services.cell] == g
  }

  lemma StillStored(before: seq<seq<Text>>, after: seq<seq<Text>>, owner: map<nat, Text>,
      groups: map<Text, DefinitionRef>)
    requires forall g :: g in groups ==> Stored(before, owner, g, groups[g])
    requires forall h :: InBounds(before, h) ==> InBounds(after, h)
    ensures forall g :: g in groups ==> Stored(after, owner, g, groups[g])
  {
  }

  class GroupCollector {
    var made: bool
    var groups: map<Text, DefinitionRef>
    var cells: seq<seq<Text>>

    ghost var Contents: map<Text, seq<Text>>  // the services of each definition
    ghost var owner: map<nat, Text>           // the one definition whose services an array holds

    ghost predicate Valid()
      reads this
    {
      && (!made ==> groups == map[])
      && groups.Keys == Contents.Keys
      && (forall g :: g in groups ==>
          Stored(cells, owner, g, groups[g]) && Read(cells, groups[g].services) == Contents[g])
      && (forall c :: c in owner ==> c < |cells|)
    }

    constructor ()
      ensures Valid() && Contents == map[]
    {
      made, groups, cells := false, map[], [];
      owner, Contents := map[], map[];
    }

    method Clear()
      requires Valid()
      modifies this
      ensures Valid() && Contents == map[] && cells == old(cells)
    {
      groups, Contents := map[], map[];
    }

    method Add(gdef: DefinitionRef)
      requires Valid() && InBounds(cells, gdef.services) && gdef.services.cell !in owner
      modifies this
      ensures Valid()
      ensures Contents == AddDefinition(old(Contents), Definition(gdef.name, old(Read(cells, gdef.services))))
    {
      if !made {
        ghost var services := Read(cells, gdef.services);
        groups, made := map[gdef.name := gdef], true;
        Contents := map[gdef.name := services];
        owner := owner[gdef.services.cell := gdef.name];
        assert [] + services == services;
      } else {
        var known := SliceHeader(|cells|, 0);
        if gdef.name in groups {
          known := groups[gdef.name].services;
        } else {
          cells, known := Allocate(cells, []);
        }
        Merge(known, gdef);
      }
    }

    /** merged.Services = append(merged.Services, gdef.Services...), put back under its name. */
    method Merge(known: SliceHeader, gdef: DefinitionRef)
      requires Valid() && made
      requires InBounds(cells, gdef.services) && InBounds(cells, known)
      requires gdef.services.cell !in owner && gdef.services.cell != known.cell
      requires if gdef.name in groups then known == groups[gdef.name].services
               else known.cell !in owner && Read(cells, known) == []
      modifies this
      ensures Valid()
      ensures Contents == AddDefinition(old(Contents), Definition(gdef.name, old(Read(cells, gdef.services))))
    {
      var merged := Extend(known, gdef);
      groups := groups[gdef.name := DefinitionRef(gdef.name, merged)];
      owner := owner[merged.cell := gdef.name];
      Contents := Contents[gdef.name := Read(cells, merged)];
    }

    /** That append; the arrays of the other definitions are untouched. */
    method Extend(known: SliceHeader, gdef: DefinitionRef) returns (merged: SliceHeader)
      requires Valid() && InBounds(cells, gdef.services) && InBounds(cells, known)
      requires known.cell in owner ==> owner[known.cell] == gdef.name
      modifies `cells
      ensures InBounds(cells, merged) && |old(cells)| <= |cells|
      ensures merged.cell == known.cell || merged.cell >= |old(cells)|
      ensures Read(cells, merged) == old(Read(cells, known)) + old(Read(cells, gdef.services))
      ensures forall g :: g in groups && g != gdef.name ==>
        Stored(cells, owner, g, groups[g]) && Read(cells, groups[g].services) == Contents[g]
    {
      cells, merged := Append(cells, known, Read(cells, gdef.services), NO_TEXT);
    }

    method AddTxt(values: seq<Text>) returns (err: Option<DefinitionError>)
      requires Valid()
      modifies this
      ensures Valid()
      ensures (Contents, err) == AddTexts(old(Contents), values)
    {
      for i := 0 to |values|
        invariant Valid()
        invariant AddTexts(Contents, values[i..]) == AddTexts(old(Contents), values)
      {
        assert values[i..][0] == values[i] && values[i..][1..] == values[i + 1..];
        match ParseGroupDefinition(values[i]) {
          case Err(e) => return Some(e);
          case Ok(def) =>
            var services;
            cells, services := Allocate(cells, def.services);
            Add(DefinitionRef(def.name, services));
        }
      }
      err := None;
    }

    /** The stored services of the definitions, in the given order. */
    method StoredLists(order: seq<Text>) returns (hs: seq<SliceHeader>)
      requires Valid() && ListsOnce(order, groups.Keys)
      ensures |hs| == |order|
      ensures forall i :: 0 <= i < |order| ==> order[i] in groups && hs[i] == groups[order[i]].services
      ensures forall i, j :: 0 <= i < j < |order| ==> hs[i].cell != hs[j].cell
    {
      assert forall i :: 0 <= i < |order| ==> order[i] in Elems(order);
      hs := [];
      for i := 0 to |order|
        invariant |hs| == i && forall j :: 0 <= j < i ==> hs[j] == groups[order[j]].services
      {
        hs := hs + [groups[order[i]].services];
      }
    }

    /** The loop over the map, which gives the definitions in some `order`. */
    method RelistAll(order: seq<Text>) returns (lists: seq<SliceHeader>)
      requires Valid() && ListsOnce(order, groups.Keys)
      modifies `cells, `Contents
      ensures Valid() && |lists| == |order|
      ensures forall i :: 0 <= i < |order| ==> order[i] in groups && InBounds(cells, lists[i])
      ensures forall i :: 0 <= i < |order| ==> Read(cells, lists[i]) == TextListing(Elems(old(Contents)[order[i]]))
      ensures forall i :: 0 <= i < |order| ==> Elems(Contents[order[i]]) == Elems(old(Contents)[order[i]])
    {
      lists := RelistArrays(order);
      Refresh();
    }

    method RelistArrays(order: seq<Text>) returns (lists: seq<SliceHeader>)
      requires Valid() && ListsOnce(order, groups.Keys)
      modifies `cells
      ensures |cells| == |old(cells)| && |lists| == |order|
      ensures forall g :: g in groups ==> Stored(cells, owner, g, groups[g])
      ensures forall i :: 0 <= i < |order| ==>
        order[i] in groups && RelistedTo(old(cells), cells, groups[order[i]].services, lists[i])
    {
      var hs := StoredLists(order);
      var after;
      after, lists := RelistEach(cells, hs);
      StillStored(cells, after, owner, groups);
      cells := after;
    }

    /** Brings Contents up to date with the arrays. */
    ghost method Refresh()
      requires (!made ==> groups == map[]) && forall c :: c in owner ==> c < |cells|
      requires forall g :: g in groups ==> Stored(cells, owner, g, groups[g])
      modifies `Contents
      ensures Valid() && forall g :: g in groups ==> Contents[g] == Read(cells, groups[g].services)
    {
      Contents := map g | g in groups :: Read(cells, groups[g].services);
    }

    /**
     * The merged definitions in name order. Each one's services are deduped and sorted in the
     * array that the collector still refers to, which therefore keeps the same set of services.
     */
    method SortedDefinitions() returns (defs: seq<DefinitionRef>)
      requires Valid()
      modifies `cells, `Contents
      ensures Valid()
      ensures DefinitionNames(defs) == TextListing(groups.Keys)
      ensures forall def :: def in defs ==> def.name in groups && InBounds(cells, def.services)
      ensures forall def :: def in defs ==> Read(cells, def.services) == TextListing(Elems(old(Contents)[def.name]))
      ensures forall g :: g in groups ==> Elems(Contents[g]) == Elems(old(Contents)[g])
    {
      var order := RangeKeys(groups.Keys);
      var lists := RelistAll(order);
      PairsSorted(order, lists);
      defs := Sort(Pairs(order, lists), DefinitionName, TextLess);
      assert forall g :: g in groups ==> g in Elems(order);
    }

    /** Groups in name order without endpoints, each with its services listed, and their index. */
    method NewGroups() returns (gps: GroupsRef)
      requires Valid()
      modifies `cells, `Contents
      ensures Valid() && Indexes(gps.byName, RefNames(gps.all))
      ensures RefNames(gps.all) == TextListing(groups.Keys)
      ensures forall i :: 0 <= i < |gps.all| ==> gps.all[i].name in groups && InBounds(cells, gps.all[i].services)
      ensures forall i :: 0 <= i < |gps.all| ==>
        Read(cells, gps.all[i].services) == TextListing(Elems(old(Contents)[gps.all[i].name]))
    {
      var defs := SortedDefinitions();
      var all := Skeletons(defs);
      TextListingLists(groups.Keys);
      var byName := IndexNames(all);
      gps := GroupsRef(byName, all);
      SkeletonsKeep(cells, defs, all, old(Contents));
    }
  }

  /** Groups that have no endpoints yet. */
  method Skeletons(defs: seq<DefinitionRef>) returns (all: seq<GroupRef>)
    ensures RefNames(all) == DefinitionNames(defs)
    ensures |all| == |defs| && forall j :: 0 <= j < |defs| ==> all[j] == GroupRef(defs[j].name, defs[j].services, [])
  {
    all := [];
    for i := 0 to |defs|
      invariant |all| == i && forall j :: 0 <= j < i ==> all[j] == GroupRef(defs[j].name, defs[j].services, [])
    {
      all := all + [GroupRef(defs[i].name, defs[i].services, [])];
    }
  }

  lemma SkeletonsKeep(cells: seq<seq<Text>>, defs: seq<DefinitionRef>, all: seq<GroupRef>,
      contents: map<Text, seq<Text>>)
    requires |all| == |defs| && forall j :: 0 <= j < |defs| ==> all[j] == GroupRef(defs[j].name, defs[j].services, [])
    requires forall def :: def in defs ==> def.name in contents && InBounds(cells, def.services)
    requires forall def :: def in defs ==> Read(cells, def.services) == TextListing(Elems(contents[def.name]))
    ensures forall i :: 0 <= i < |all| ==> all[i].name in contents && InBounds(cells, all[i].services)
    ensures forall i :: 0 <= i < |all| ==> Read(cells, all[i].services) == TextListing(Elems(contents[all[i].name]))
  {
    assert forall i :: 0 <= i < |all| ==> defs[i] in defs;
  }

  method IndexNames(all: seq<GroupRef>) returns (byName: map<Text, nat>)
    requires NoDup(RefNames(all))
    ensures Indexes(byName, RefNames(all))
  {
    byName := map[];
    ghost var names := RefNames(all);
    for i := 0 to |all|
      invariant byName.Keys == Elems(names[..i])
      invariant forall j :: 0 <= j < i ==> names[j] in byName && byName[names[j]] == j
    {
      assert names[..i + 1] == names[..i] + [names[i]];
      byName := byName[all[i].name := i];
    }
    assert names[..|all|] == names;
  }
}
