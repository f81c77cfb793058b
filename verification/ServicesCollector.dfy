/** service/collectors.go: service -> target. */
module ServicesCollecting {
  import opened Ordering
  import opened Slices
  import opened Dedupe
  import opened Zone

  class ServicesCollector {
    var made: bool
    var services: map<Text, seq<Text>>

    ghost predicate Valid()
      reads this
    {
      !made ==> services == map[]
    }

    constructor ()
      ensures Valid() && services == map[]
    {
      made, services := false, map[];
    }

    method Clear()
      requires Valid()
      modifies this
      ensures Valid() && services == map[]
    {
      services := map[];
    }

    method Add(serviceName: Text, targetName: Text)
      requires Valid()
      modifies this
      ensures Valid() && services == old(services)[serviceName := At(old(services), serviceName) + [targetName]]
    {
      if !made {
        assert [] + [targetName] == [targetName];
        services, made := map[serviceName := [targetName]], true;
      } else {
        services := services[serviceName := At(services, serviceName) + [targetName]];
      }
    }

    /** The targets of any of the services, in order, each once. */
    method TargetNames(serviceNames: seq<Text>) returns (names: seq<Text>)
      ensures names == TextListing(TargetsIn(services, serviceNames))
    {
      var dedupe := new Deduper<Text>();
      for i := 0 to |serviceNames|
        invariant dedupe.seen == TargetsIn(services, serviceNames[..i])
      {
        dedupe.Add(At(services, serviceNames[i]));
        assert serviceNames[..i + 1] == serviceNames[..i] + [serviceNames[i]];
      }
      assert serviceNames[..|serviceNames|] == serviceNames;
      names := dedupe.SortFunc(TextLess);
      ghost var listed :| ListsOnce(listed, dedupe.seen) && names == Sort(listed, Identity, TextLess);
      TextOrder();
      SortedNoDupIsListing(listed, TextLess);
    }
  }

  ghost function TargetsIn(services: map<Text, seq<Text>>, serviceNames: seq<Text>): set<Text> {
    set s, t | s in serviceNames && t in At(services, s) :: t
  }
}
