/** service/locator.go: the address records of located endpoints. */
module LocatedEndpoints {
  import opened Ordering
  import opened Zone
  import opened Jitter
  import opened Collecting
  import Groups

  type RRType = Groups.RRType

  const CLASS_INET := 1

  datatype Header = Header(name: Text, ttl: Uint32, rrClass: nat)

  datatype Record = Record(header: Header, rrType: RRType, addr: Addr)

  function AddressesOf(e: Endpoint, rrType: RRType): seq<Addr> {
    match rrType
    case TypeA => e.ip4
    case TypeAAAA => e.ip6
    case _ => []
  }

  /** The addresses of the type asked for, endpoint by endpoint. */
  function Addresses(le: seq<Endpoint>, rrType: RRType): seq<Addr> {
    if le == [] then []
    else Addresses(le[..|le| - 1], rrType) + AddressesOf(le[|le| - 1], rrType)
  }

  lemma {:induction false} NoAddresses(le: seq<Endpoint>, rrType: RRType)
    requires !rrType.TypeA? && !rrType.TypeAAAA?
    ensures Addresses(le, rrType) == []
  {
    if le != [] {
      NoAddresses(le[..|le| - 1], rrType);
    }
  }

  ghost function IP4Lists(le: seq<Endpoint>): seq<seq<Addr>> {
    seq(|le|, i requires 0 <= i < |le| => le[i].ip4)
  }

  ghost function IP6Lists(le: seq<Endpoint>): seq<seq<Addr>> {
    seq(|le|, i requires 0 <= i < |le| => le[i].ip6)
  }

  /** IPv4 addresses for A, IPv6 addresses for AAAA, each endpoint's list behind those before it; none for others. */
  lemma {:induction false} AddressesAre(le: seq<Endpoint>, rrType: RRType)
    ensures rrType.TypeA? ==> Addresses(le, rrType) == Flat(IP4Lists(le))
    ensures rrType.TypeAAAA? ==> Addresses(le, rrType) == Flat(IP6Lists(le))
    ensures !rrType.TypeA? && !rrType.TypeAAAA? ==> Addresses(le, rrType) == []
  {
    if le != [] {
      var before := le[..|le| - 1];
      AddressesAre(before, rrType);
      assert IP4Lists(le)[..|before|] == IP4Lists(before) && IP6Lists(le)[..|before|] == IP6Lists(before);
    }
  }

  function Records(addrs: seq<Addr>, rrType: RRType, header: Header): seq<Record> {
    seq(|addrs|, i requires 0 <= i < |addrs| => Record(header, rrType, addrs[i]))
  }

  const BARE := Header([], 0, CLASS_INET)

  method LenRRs(le: seq<Endpoint>, rrType: RRType) returns (n: nat)
    ensures n == |Addresses(le, rrType)|
    ensures n == if rrType.TypeA? then |Flat(IP4Lists(le))| else if rrType.TypeAAAA? then |Flat(IP6Lists(le))| else 0
  {
    AddressesAre(le, rrType);
    n := 0;
    match rrType {
      case TypeA =>
        for i := 0 to |le|
          invariant n == |Addresses(le[..i], rrType)|
        {
          assert le[..i + 1][..i] == le[..i];
          n := n + |le[i].ip4|;
        }
      case TypeAAAA =>
        for i := 0 to |le|
          invariant n == |Addresses(le[..i], rrType)|
        {
          assert le[..i + 1][..i] == le[..i];
          n := n + |le[i].ip6|;
        }
      case _ =>
        NoAddresses(le, rrType);
    }
    assert le[..|le|] == le;
  }

  /** What a consumer gets that stops at the `limit`-th record. */
  function Front<T>(all: seq<T>, limit: nat): seq<T> {
    if limit < |all| then all[..limit] else all
  }

  /** The inner loop: the addresses of one endpoint, to a consumer that takes `room` more. */
  method PushAddresses(addrs: seq<Addr>, rrType: RRType, room: nat) returns (pushed: seq<Record>)
    requires 0 < room
    ensures pushed == Front(Records(addrs, rrType, BARE), room)
  {
    pushed := [];
    ghost var all := Records(addrs, rrType, BARE);
    for j := 0 to |addrs|
      invariant pushed == all[..j] && j < room
    {
      assert all[..j + 1] == all[..j] + [all[j]];
      pushed := pushed + [Record(BARE, rrType, addrs[j])];
      if |pushed| == room {
        assert all[..|addrs|] == all;
        return;
      }
    }
    assert all[..|addrs|] == all;
  }

  /** One record for each address, of that type and class INET, until the consumer stops. */
  ghost predicate ArePushed(addrs: seq<Addr>, rrType: RRType, limit: nat, pushed: seq<Record>) {
    && |pushed| == (if limit < |addrs| then limit else |addrs|)
    && forall i :: 0 <= i < |pushed| ==> pushed[i] == Record(Header([], 0, 1), rrType, addrs[i])
  }

  lemma FrontIsPushed(le: seq<Endpoint>, rrType: RRType, limit: nat)
    ensures
      var pushed := Front(Records(Addresses(le, rrType), rrType, BARE), limit);
      && (rrType.TypeA? ==> ArePushed(Flat(IP4Lists(le)), rrType, limit, pushed))
      && (rrType.TypeAAAA? ==> ArePushed(Flat(IP6Lists(le)), rrType, limit, pushed))
      && (!rrType.TypeA? && !rrType.TypeAAAA? ==> pushed == [])
  {
    AddressesAre(le, rrType);
  }

  /** Pushes records, of which only the class is set, to a consumer that stops at the `limit`-th one. */
  method RRs(le: seq<Endpoint>, rrType: RRType, limit: nat) returns (pushed: seq<Record>)
    requires 0 < limit
    ensures pushed == Front(Records(Addresses(le, rrType), rrType, BARE), limit)
    ensures rrType.TypeA? ==> ArePushed(Flat(IP4Lists(le)), rrType, limit, pushed)
    ensures rrType.TypeAAAA? ==> ArePushed(Flat(IP6Lists(le)), rrType, limit, pushed)
    ensures !rrType.TypeA? && !rrType.TypeAAAA? ==> pushed == []
  {
    FrontIsPushed(le, rrType, limit);
    pushed := [];
    if !rrType.TypeA? && !rrType.TypeAAAA? {
      NoAddresses(le, rrType);
      return;
    }
    for i := 0 to |le|
      invariant pushed == Records(Addresses(le[..i], rrType), rrType, BARE) && |pushed| < limit
    {
      var addrs := AddressesOf(le[i], rrType);
      var more := PushAddresses(addrs, rrType, limit - |pushed|);
      PushedSoFar(le, i, rrType, limit);
      pushed := pushed + more;
      if |pushed| == limit {
        return;
      }
    }
    assert le[..|le|] == le;
  }

  /** After one more endpoint the consumer has stopped, or has all up to there. */
  lemma PushedSoFar(le: seq<Endpoint>, i: nat, rrType: RRType, limit: nat)
    requires i < |le| && |Addresses(le[..i], rrType)| < limit
    ensures
      var before, addrs := Addresses(le[..i], rrType), AddressesOf(le[i], rrType);
      var pushed := Records(before, rrType, BARE) + Front(Records(addrs, rrType, BARE), limit - |before|);
      if |pushed| == limit then pushed == Front(Records(Addresses(le, rrType), rrType, BARE), limit)
      else pushed == Records(Addresses(le[..i + 1], rrType), rrType, BARE) && |pushed| < limit
  {
    var before, addrs, all := Addresses(le[..i], rrType), AddressesOf(le[i], rrType), Addresses(le, rrType);
    PrefixAddresses(le, i, rrType);
    RecordsOfSum(before, addrs, rrType);
    RecordsOfSum(before + addrs, all[|before + addrs|..], rrType);
    FrontOfMore(Records(before, rrType, BARE), Records(addrs, rrType, BARE), Records(all, rrType, BARE), limit);
  }

  lemma RecordsOfSum(a: seq<Addr>, b: seq<Addr>, rrType: RRType)
    ensures Records(a + b, rrType, BARE) == Records(a, rrType, BARE) + Records(b, rrType, BARE)
  {
  }

  lemma FrontOfMore<T>(x: seq<T>, y: seq<T>, all: seq<T>, limit: nat)
    requires x + y <= all && |x| < limit
    ensures
      var pushed := x + Front(y, limit - |x|);
      if |pushed| == limit then pushed == Front(all, limit) else pushed == x + y && |pushed| < limit
  {
    if limit <= |x + y| {
      assert all[..limit] == (x + y)[..limit] == x + y[..limit - |x|];
    }
  }

  /** The addresses of the endpoints before and at a position come first. */
  lemma {:induction false} PrefixAddresses(le: seq<Endpoint>, i: nat, rrType: RRType)
    requires i < |le|
    ensures Addresses(le[..i + 1], rrType) == Addresses(le[..i], rrType) + AddressesOf(le[i], rrType)
    ensures Addresses(le[..i + 1], rrType) <= Addresses(le, rrType)
    decreases |le|
  {
    assert le[..i + 1][..i] == le[..i];
    if i < |le| - 1 {
      PrefixAddresses(le[..|le| - 1], i, rrType);
      assert le[..|le| - 1][..i] == le[..i] && le[..|le| - 1][..i + 1] == le[..i + 1];
    } else {
      assert le[..i + 1] == le;
    }
  }
}
