/** What service/collectors.go stores: structs whose slices are headers over shared arrays. */
module References {
  import opened Ordering
  import opened Cells

  /** An Endpoint as stored: copying it copies the headers, not the arrays of addresses. */
  datatype EndpointRef = EndpointRef(originalName: Text, ip4: SliceHeader, ip6: SliceHeader)

  /** A Group as stored. */
  datatype GroupRef = GroupRef(name: Text, services: SliceHeader, endpoints: seq<EndpointRef>)

  datatype GroupsRef = GroupsRef(byName: map<Text, nat>, all: seq<GroupRef>)

  ghost function RefNames(all: seq<GroupRef>): seq<Text> {
    seq(|all|, i requires 0 <= i < |all| => all[i].name)
  }
}
