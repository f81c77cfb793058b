/** service/fileIngester.go: reading all zone files, and publishing their groups when they have changed. */
module FileIngesting {
  import opened Ordering
  import opened Wrappers
  import opened Cells
  import opened GroupDefinition
  import opened Zone
  import opened Groups
  import opened References
  import opened EndpointCollecting
  import opened Collecting
  import opened Streams
  import opened Locating

  /** One turn of the loop over the zone files: what the file system and the zone parser give. */
  datatype FileRead =
    | GlobFailed
    | File(canceled: bool, openable: bool, bytes: Text, records: seq<RR>, malformed: bool)

  /** A complete read of all files. */
  datatype ZoneRead = ZoneRead(bytes: Text, records: seq<RR>)

  /** The checksum of everything read, a uint32. */
  type Checksummer = Text -> nat

  predicate FileOk(domain: Text, f: FileRead) {
    f.File? && !f.canceled && f.openable && !f.malformed && forall r :: r in f.records ==> Accepted(domain, r)
  }

  function AllBytes(files: seq<FileRead>): Text {
    if files == [] then []
    else AllBytes(files[..|files| - 1]) + if files[|files| - 1].File? then files[|files| - 1].bytes else []
  }

  function AllRecords(files: seq<FileRead>): seq<RR> {
    if files == [] then []
    else AllRecords(files[..|files| - 1]) + if files[|files| - 1].File? then files[|files| - 1].records else []
  }

  /** What reading the files comes to: nothing if any of them cannot be read to its end. */
  function ReadAll(domain: Text, files: seq<FileRead>): Option<ZoneRead> {
    if forall f :: f in files ==> FileOk(domain, f) then Some(ZoneRead(AllBytes(files), AllRecords(files))) else None
  }

  /** Reading succeeds exactly if nothing goes wrong with any file, and no text at the discovery domain is malformed. */
  lemma ReadSucceedsIff(domain: Text, files: seq<FileRead>)
    ensures ReadAll(domain, files).Some? <==>
      forall f :: f in files ==>
        && f.File? && !f.canceled && f.openable && !f.malformed
        && forall r, t :: r in f.records && r.TXT? && r.name == domain && t in r.txt ==> ParseGroupDefinition(t).Ok?
  {
    forall f: FileRead
      ensures FileOk(domain, f) <==>
        && f.File? && !f.canceled && f.openable && !f.malformed
        && forall r, t :: r in f.records && r.TXT? && r.name == domain && t in r.txt ==> ParseGroupDefinition(t).Ok?
    {
      assert f.File? ==> forall r :: r in f.records ==> (Accepted(domain, r) <==>
        (r.TXT? && r.name == domain ==> forall t :: t in r.txt ==> ParseGroupDefinition(t).Ok?));
    }
  }

  datatype IngestState = IngestState(first: bool, checksum: nat)

  /** Whether an Ingest that nothing overlaps publishes groups. */
  predicate Publishes(st: IngestState, sum: Checksummer, read: Option<ZoneRead>) {
    read.Some? && (!st.first || st.checksum != sum(read.value.bytes))
  }

  function IngestOnce(st: IngestState, sum: Checksummer, read: Option<ZoneRead>): IngestState {
    if Publishes(st, sum, read) then IngestState(true, sum(read.value.bytes)) else st
  }

  // ---- every run of Ingests that do not overlap

  /** The state after some outcomes, and the read whose groups the Locator was last given. */
  datatype Sequence = Sequence(st: IngestState, located: Option<ZoneRead>)

  function RunAll(sum: Checksummer, outcomes: seq<Option<ZoneRead>>): Sequence {
    if outcomes == [] then Sequence(IngestState(false, 0), None)
    else
      var last := |outcomes| - 1;
      var before := RunAll(sum, outcomes[..last]);
      Sequence(IngestOnce(before.st, sum, outcomes[last]),
               if Publishes(before.st, sum, outcomes[last]) then outcomes[last] else before.located)
  }

  /** The last read that succeeded. */
  function LastGood(outcomes: seq<Option<ZoneRead>>): Option<ZoneRead> {
    if outcomes == [] then None
    else if outcomes[|outcomes| - 1].Some? then outcomes[|outcomes| - 1]
    else LastGood(outcomes[..|outcomes| - 1])
  }

  /** The stored checksum is that of the last successful read, and of the read that was last published. */
  lemma {:induction false} ChecksumIsCurrent(sum: Checksummer, outcomes: seq<Option<ZoneRead>>)
    ensures var s := RunAll(sum, outcomes);
      match LastGood(outcomes)
      case None => s == Sequence(IngestState(false, 0), None)
      case Some(z) =>
        && s.st == IngestState(true, sum(z.bytes)) && Some(z) in outcomes
        && s.located.Some? && s.located in outcomes && sum(s.located.value.bytes) == sum(z.bytes)
  {
    if outcomes != [] {
      var last := |outcomes| - 1;
      ChecksumIsCurrent(sum, outcomes[..last]);
      assert outcomes == outcomes[..last] + [outcomes[last]];
    }
  }

  /** Groups are published on the first successful read and whenever the checksum differs from the last one. */
  lemma {:induction false} PublishedExactlyOnChange(sum: Checksummer, outcomes: seq<Option<ZoneRead>>,
      read: Option<ZoneRead>)
    ensures Publishes(RunAll(sum, outcomes).st, sum, read) <==>
      read.Some? && (LastGood(outcomes).None? || sum(LastGood(outcomes).value.bytes) != sum(read.value.bytes))
  {
    ChecksumIsCurrent(sum, outcomes);
  }

  /** A read is noticed if it has another checksum than the last good one before it, or the same records. */
  ghost predicate NoticedAt(sum: Checksummer, outcomes: seq<Option<ZoneRead>>, n: nat)
    requires n < |outcomes|
  {
    outcomes[n].Some? && LastGood(outcomes[..n]).Some?
      && sum(outcomes[n].value.bytes) == sum(LastGood(outcomes[..n]).value.bytes) ==>
        outcomes[n].value.records == LastGood(outcomes[..n]).value.records
  }

  ghost predicate Noticed(sum: Checksummer, outcomes: seq<Option<ZoneRead>>) {
    forall n :: 0 <= n < |outcomes| ==> NoticedAt(sum, outcomes, n)
  }

  /** What was published last has the records of the last successful read. */
  ghost predicate IsCurrent(sum: Checksummer, outcomes: seq<Option<ZoneRead>>) {
    LastGood(outcomes).Some? ==>
      RunAll(sum, outcomes).located.Some?
      && RunAll(sum, outcomes).located.value.records == LastGood(outcomes).value.records
  }

  ghost predicate AlwaysCurrent(sum: Checksummer, outcomes: seq<Option<ZoneRead>>) {
    forall n :: 0 <= n <= |outcomes| ==> IsCurrent(sum, outcomes[..n])
  }

  lemma CurrentNext(sum: Checksummer, outcomes: seq<Option<ZoneRead>>, n: nat)
    requires n < |outcomes| && IsCurrent(sum, outcomes[..n])
    ensures IsCurrent(sum, outcomes[..n + 1]) <==> NoticedAt(sum, outcomes, n)
  {
    assert outcomes[..n + 1][..n] == outcomes[..n];
    ChecksumIsCurrent(sum, outcomes[..n]);
    PublishedExactlyOnChange(sum, outcomes[..n], outcomes[n]);
  }

  lemma {:induction false} CurrentUpTo(sum: Checksummer, outcomes: seq<Option<ZoneRead>>, n: nat)
    requires n <= |outcomes| && forall m :: 0 <= m < n ==> NoticedAt(sum, outcomes, m)
    ensures IsCurrent(sum, outcomes[..n])
  {
    if n > 0 {
      CurrentUpTo(sum, outcomes, n - 1);
      CurrentNext(sum, outcomes, n - 1);
    }
  }

  /**
   * The Locator holds the records of the last successful read all along exactly if every read with the checksum of
   * the last good one before it has its records, too.
   */
  lemma AlwaysCurrentIff(sum: Checksummer, outcomes: seq<Option<ZoneRead>>)
    ensures AlwaysCurrent(sum, outcomes) <==> Noticed(sum, outcomes)
  {
    if Noticed(sum, outcomes) {
      forall n | 0 <= n <= |outcomes| ensures IsCurrent(sum, outcomes[..n]) { CurrentUpTo(sum, outcomes, n); }
    }
    if AlwaysCurrent(sum, outcomes) {
      forall n | 0 <= n < |outcomes| ensures NoticedAt(sum, outcomes, n) {
        assert IsCurrent(sum, outcomes[..n]) && IsCurrent(sum, outcomes[..n + 1]);
        CurrentNext(sum, outcomes, n);
      }
    }
  }

  /** In particular it does if no two reads with one checksum have different records. */
  lemma FaithfulIsNoticed(sum: Checksummer, outcomes: seq<Option<ZoneRead>>)
    requires forall r, q :: Some(r) in outcomes && Some(q) in outcomes && sum(r.bytes) == sum(q.bytes) ==>
        r.records == q.records
    ensures Noticed(sum, outcomes)
  {
    forall n | 0 <= n < |outcomes| ensures NoticedAt(sum, outcomes, n) {
      ChecksumIsCurrent(sum, outcomes[..n]);
      assert outcomes[n] in outcomes;
      assert LastGood(outcomes[..n]).Some? ==> LastGood(outcomes[..n]) in outcomes;
    }
  }

  /** Two outcomes with one checksum: the groups of the second are never published. */
  lemma CollisionGoesUnnoticed(sum: Checksummer, z: ZoneRead, other: ZoneRead)
    requires sum(z.bytes) == sum(other.bytes)
    ensures RunAll(sum, [Some(z), Some(other)]).located == Some(z)
  {
    assert [Some(z), Some(other)][..1] == [Some(z)];
    assert [Some(z)][..0] == [];
    assert RunAll(sum, []) == Sequence(IngestState(false, 0), None);
    assert RunAll(sum, [Some(z)]) == Sequence(IngestState(true, sum(z.bytes)), Some(z));
  }

  /** The checksum runs over the files' bytes without a mark where one ends: only their concatenation counts. */
  lemma BoundariesDoNotCount(a: FileRead, b: FileRead, c: FileRead, d: FileRead)
    requires a.File? && b.File? && c.File? && d.File? && a.bytes + b.bytes == c.bytes + d.bytes
    ensures AllBytes([a, b]) == AllBytes([c, d])
  {
    TwoFiles(a, b);
    TwoFiles(c, d);
  }

  lemma TwoFiles(a: FileRead, b: FileRead)
    requires a.File? && b.File?
    ensures AllBytes([a, b]) == a.bytes + b.bytes && AllRecords([a, b]) == a.records + b.records
  {
    assert [a, b][..1] == [a] && [a][..0] == [];
    assert AllBytes([a]) == AllBytes([]) + a.bytes && AllRecords([a]) == AllRecords([]) + a.records;
    assert AllBytes([a, b]) == a.bytes + b.bytes && AllRecords([a, b]) == a.records + b.records;
  }

  /**
   * Two checks of two files each that can all be read. If text has only moved from one file to the other, so that the
   * records are others but the concatenation is the same, the records of the first check stay the ones located.
   */
  lemma BoundariesGoUnnoticed(domain: Text, sum: Checksummer, a: FileRead, b: FileRead, c: FileRead, d: FileRead)
    requires FileOk(domain, a) && FileOk(domain, b) && FileOk(domain, c) && FileOk(domain, d)
    requires a.bytes + b.bytes == c.bytes + d.bytes && a.records + b.records != c.records + d.records
    ensures
      var outcomes := Outcomes(domain, [[a, b], [c, d]]);
      && RunAll(sum, outcomes).located == Some(ZoneRead(a.bytes + b.bytes, a.records + b.records))
      && LastGood(outcomes) == Some(ZoneRead(c.bytes + d.bytes, c.records + d.records))
      && !IsCurrent(sum, outcomes)
  {
    TwoFiles(a, b);
    TwoFiles(c, d);
    var first, second := ReadAll(domain, [a, b]), ReadAll(domain, [c, d]);
    assert Outcomes(domain, [[a, b], [c, d]]) == [first, second];
    CollisionGoesUnnoticed(sum, first.value, second.value);
    assert [first, second][..1] == [first] && LastGood([first, second]) == second;
  }

  // ---- the code

  datatype IngestEvent = IngestFailed | Ingested(groups: Groups)

  /** Groups built from records, with their index. */
  ghost predicate BuiltFrom(domain: Text, records: seq<RR>, gps: Groups) {
    Indexed(gps) && Builds(domain, records, gps.all)
  }

  lemma ReadFails(domain: Text, files: seq<FileRead>, i: nat)
    requires i < |files| && !FileOk(domain, files[i])
    ensures ReadAll(domain, files).None?
  {
    assert files[i] in files;
  }

  lemma ReadNames(texts: seq<seq<Text>>, addrs: seq<seq<Addr>>, all: seq<GroupRef>)
    requires AllReadable(texts, addrs, all)
    ensures Names(ReadGroups(texts, addrs, all)) == RefNames(all)
  {
  }

  class FileIngester {
    const discoveryDomain: Text
    const checksummer: Checksummer
    const locator: Locator  // the listener

    var first: bool
    var checksum: nat

    function State(): IngestState
      reads this
    {
      IngestState(first, checksum)
    }

    constructor (discoveryDomain: Text, checksummer: Checksummer, locator: Locator)
      ensures State() == IngestState(false, 0)
      ensures this.discoveryDomain == discoveryDomain && this.checksummer == checksummer && this.locator == locator
    {
      this.discoveryDomain, this.checksummer, this.locator := discoveryDomain, checksummer, locator;
      first, checksum := false, 0;
    }

    /** The loop over the zone files. */
    method ReadFiles(files: seq<FileRead>) returns (read: Option<Text>, rrc: RRCollector)
      ensures rrc.Valid() && rrc.discoveryDomain == discoveryDomain
      ensures fresh(rrc) && fresh(rrc.groups) && fresh(rrc.services) && fresh(rrc.endpoints)
      ensures match ReadAll(discoveryDomain, files)
              case None => read.None?
              case Some(z) =>
                read == Some(z.bytes) && (rrc.Contents(), None) == AddRecords(NOTHING, discoveryDomain, z.records)
    {
      rrc := new RRCollector(discoveryDomain);
      var bytes: Text := [];
      for i := 0 to |files|
        invariant rrc.Valid() && rrc.discoveryDomain == discoveryDomain
        invariant fresh(rrc) && fresh(rrc.groups) && fresh(rrc.services) && fresh(rrc.endpoints)
        invariant forall f :: f in files[..i] ==> FileOk(discoveryDomain, f)
        invariant bytes == AllBytes(files[..i])
        invariant (rrc.Contents(), None) == AddRecords(NOTHING, discoveryDomain, AllRecords(files[..i]))
      {
        var f := files[i];
        assert files[..i + 1][..i] == files[..i];
        if f.GlobFailed? || f.canceled || !f.openable {
          ReadFails(discoveryDomain, files, i);
          return None, rrc;
        }
        StreamAccepted(rrc.Contents(), discoveryDomain, f.records);
        AddRecordsAppend(NOTHING, discoveryDomain, AllRecords(files[..i]), f.records);
        var err := rrc.AddAll(f.records);
        if err.Some? || f.malformed {
          ReadFails(discoveryDomain, files, i);
          return None, rrc;
        }
        bytes := bytes + f.bytes;
      }
      assert files[..|files|] == files;
      read := Some(bytes);
    }

    /** Builds the groups of what was read and hands them to the listener. */
    method Publish(rrc: RRCollector, ghost records: seq<RR>) returns (event: IngestEvent)
      requires rrc.Valid() && rrc.discoveryDomain == discoveryDomain
      requires (rrc.Contents(), None) == AddRecords(NOTHING, discoveryDomain, records)
      modifies rrc.groups, rrc.services, rrc.endpoints, locator
      ensures event.Ingested? && BuiltFrom(discoveryDomain, records, event.groups)
      ensures locator.Valid() && locator.groups == Some(event.groups)
    {
      var gps := rrc.Build();
      var all := ReadGroups(rrc.groups.cells, rrc.endpoints.cells, gps.all);
      ReadNames(rrc.groups.cells, rrc.endpoints.cells, gps.all);
      event := Ingested(Groups(gps.byName, all));
      locator.Update(event.groups);
    }

    /** One Ingest that no other overlaps; returns the event it dispatches, if any. */
    method Ingest(files: seq<FileRead>) returns (event: Option<IngestEvent>)
      requires locator.Valid()
      modifies this, locator
      ensures locator.Valid()
      ensures var read := ReadAll(discoveryDomain, files);
        && State() == IngestOnce(old(State()), checksummer, read)
        && (if Publishes(old(State()), checksummer, read)
            then event.Some? && event.value.Ingested? && locator.groups == Some(event.value.groups)
                 && BuiltFrom(discoveryDomain, read.value.records, event.value.groups)
            else locator.groups == old(locator.groups) && event == if read.None? then Some(IngestFailed) else None)
      ensures event != Some(IngestFailed) <==>
        forall f :: f in files ==>
          && f.File? && !f.canceled && f.openable && !f.malformed
          && forall r, t :: r in f.records && r.TXT? && r.name == discoveryDomain && t in r.txt ==>
               ParseGroupDefinition(t).Ok?
      ensures event == Some(IngestFailed) ==> State() == old(State()) && locator.groups == old(locator.groups)
    {
      ReadSucceedsIff(discoveryDomain, files);
      var oldChecksum := checksum;
      var read, rrc := ReadFiles(files);
      event := None;
      if read.None? {
        event := Some(IngestFailed);
        return;
      }
      ghost var z := ReadAll(discoveryDomain, files).value;
      var newChecksum := checksummer(read.value);
      if !first {
        first := true;
        checksum := newChecksum;
        var published := Publish(rrc, z.records);
        event := Some(published);
      } else if checksum != newChecksum && checksum == oldChecksum {
        checksum := newChecksum;
        var published := Publish(rrc, z.records);
        event := Some(published);
      }
    }

    /** A checker that lets no two Ingests overlap: one call after the other, each on what the files then hold. */
    method IngestEach(checks: seq<seq<FileRead>>) returns (events: seq<Option<IngestEvent>>)
      requires locator.Valid() && State() == IngestState(false, 0) && locator.groups.None?
      modifies this, locator
      ensures locator.Valid()
      ensures var outcomes := Outcomes(discoveryDomain, checks);
        && State() == RunAll(checksummer, outcomes).st
        && Locates(discoveryDomain, RunAll(checksummer, outcomes).located, locator.groups)
        && Reported(checksummer, outcomes, events)
      ensures var outcomes := Outcomes(discoveryDomain, checks);
        Noticed(checksummer, outcomes) && LastGood(outcomes).Some? ==>
          locator.groups.Some? && BuiltFrom(discoveryDomain, LastGood(outcomes).value.records, locator.groups.value)
    {
      events := [];
      ghost var outcomes := Outcomes(discoveryDomain, checks);
      for i := 0 to |checks|
        invariant locator.Valid() && |events| == i
        invariant State() == RunAll(checksummer, outcomes[..i]).st
        invariant Locates(discoveryDomain, RunAll(checksummer, outcomes[..i]).located, locator.groups)
        invariant Reported(checksummer, outcomes[..i], events)
      {
        assert outcomes[..i + 1] == outcomes[..i] + [outcomes[i]];
        var event := IngestNext(checks[i], outcomes[..i]);
        ReportedNext(checksummer, outcomes[..i], events, outcomes[i], event);
        events := events + [event];
      }
      assert outcomes[..|checks|] == outcomes;
      if Noticed(checksummer, outcomes) {
        CurrentUpTo(checksummer, outcomes, |outcomes|);
      }
    }

    /** One more Ingest after those that came to `outcomes`. */
    method IngestNext(files: seq<FileRead>, ghost outcomes: seq<Option<ZoneRead>>) returns (event: Option<IngestEvent>)
      requires locator.Valid() && State() == RunAll(checksummer, outcomes).st
      requires Locates(discoveryDomain, RunAll(checksummer, outcomes).located, locator.groups)
      modifies this, locator
      ensures var after := RunAll(checksummer, outcomes + [ReadAll(discoveryDomain, files)]);
        locator.Valid() && State() == after.st && Locates(discoveryDomain, after.located, locator.groups)
      ensures event.Some? && event.value.Ingested? <==>
              Publishes(RunAll(checksummer, outcomes).st, checksummer, ReadAll(discoveryDomain, files))
      ensures event == Some(IngestFailed) <==> ReadAll(discoveryDomain, files).None?
    {
      ghost var more := outcomes + [ReadAll(discoveryDomain, files)];
      assert more[..|outcomes|] == outcomes;
      event := Ingest(files);
    }
  }

  /** Groups were dispatched exactly by the calls that were to publish, and errors by those whose read failed. */
  ghost predicate Reported(sum: Checksummer, outcomes: seq<Option<ZoneRead>>, events: seq<Option<IngestEvent>>) {
    |events| == |outcomes| && forall i :: 0 <= i < |events| ==>
      && (events[i].Some? && events[i].value.Ingested? <==> Publishes(RunAll(sum, outcomes[..i]).st, sum, outcomes[i]))
      && (events[i] == Some(IngestFailed) <==> outcomes[i].None?)
  }

  lemma ReportedNext(
    sum: Checksummer, outcomes: seq<Option<ZoneRead>>, events: seq<Option<IngestEvent>>, outcome: Option<ZoneRead>,
    event: Option<IngestEvent>)
    requires Reported(sum, outcomes, events)
    requires event.Some? && event.value.Ingested? <==> Publishes(RunAll(sum, outcomes).st, sum, outcome)
    requires event == Some(IngestFailed) <==> outcome.None?
    ensures Reported(sum, outcomes + [outcome], events + [event])
  {
    var outcomes', events' := outcomes + [outcome], events + [event];
    assert outcomes'[..|outcomes|] == outcomes;
    forall i | 0 <= i < |events|
        ensures outcomes'[..i] == outcomes[..i] && outcomes'[i] == outcomes[i] && events'[i] == events[i] {
    }
  }

  /** What the reads of all files come to, one check after the other. */
  function Outcomes(domain: Text, checks: seq<seq<FileRead>>): seq<Option<ZoneRead>> {
    seq(|checks|, i requires 0 <= i < |checks| => ReadAll(domain, checks[i]))
  }

  /** The Locator was given the groups of that read, or nothing yet. */
  ghost predicate Locates(domain: Text, located: Option<ZoneRead>, groups: Option<Groups>) {
    if located.None? then groups.None? else groups.Some? && BuiltFrom(domain, located.value.records, groups.value)
  }
}
