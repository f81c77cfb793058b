# Hashy, modelled and proved in Dafny

Hashy reads DNS zone records, joins them into named groups of endpoints, publishes the groups to a locator guarded by
a lock, and answers questions of the form "which endpoint does this object hash to". This project models that path
from a stream of records to a shuffled DNS answer, and proves what each part of it promises.

The modules, from the bottom up:

* `Ordering`, `Slices`, `Dedupe`, `Values`, `Cells`: the comparators, Go slices over arrays that other slices may
  share, and the in-place deduping and sorting done on them. A map iteration gives its keys in any order at all.
* `GroupDefinition`: the table of valid characters, the name check, and the text of a group definition.
* `Zone`: the specification. The records state a set of facts (a group is defined, a group has a service, a service
  has a target, a target has an address), and `Zone.Join` is the list of groups that follows from the facts.
* `GroupCollecting`, `ServicesCollecting`, `AddressLists`, `EndpointCollecting`, `Collecting`: the collectors as
  classes, with the slices they share, and `Build`.
* `Streams`, `StreamExamples`: what is built from whole streams of records, in any order and with repetitions.
* `SettledLists`, `StreamChanges`, `DisturbedLists`: what lists with repeated addresses come to, and which changes of
  a stream, its order or records of other groups, change a built group.
* `Groups`: the finished groups, their index by name, and their TXT records.
* `Locating`, `LocatorProtocol`: the locator as a class, and as a transition system whose steps are lock operations
  and accesses of single fields.
* `FileIngesting`, `IngestProtocol`, `IngestAgreement`: reading the zone files and publishing what changed, one call
  at a time as a class, and any number of overlapping calls as a transition system over the two atomics.
* `IngestChecking`: the background goroutine, as a class and as a transition system.
* `Floats`, `Jitter`, `Durations`: binary floating point with rounding to nearest, ties to even (section 4.3.1 of IEEE
  754), and the TTL arithmetic done with it.
* `EndpointNames`, `LocatedEndpoints`, `Shuffling`, `EndpointHandling`: parsing the name that was asked for, and the
  answer.

Imperative code is modelled imperatively: a class method or a loop, proved against a specification function, with the
promises proved as lemmas about that function. The concurrent parts are transition systems with an invariant that
every step keeps; the theorems about them hold for every sequence of actions, that is, for every interleaving.

## Where the code does not do what it says

The model follows the code. Each of these has a lemma that shows it and one that says exactly when the promise holds;
where that is one way only, it says so.

* The loops that fill the character table stop one short (service/groupDefinition.go:32, 37), so names with `z` or `9`
  are refused although the messages promise otherwise. `GroupDefinition.AcceptedNames` states exactly which names are
  taken, `GroupDefinition.PromisedNameRejected` gives three that are not.
* `Values.Dedupe` appends the unique values behind the first values instead of in place of them (values.go:42-43). All
  values survive, but the result is free of duplicates only if the input was (`Values.DedupeKeepsValues`). The form
  that starts from an empty slice, which the services go through (service/collectors.go:70), does dedupe
  (`GroupCollecting.RelistSlice`).
* Because of that, and because `endpointsFor` copies structs but not the arrays behind them
  (service/collectors.go:187-194), a target that was given an address twice comes out wrong in every group that
  reaches it, and it may come out differently in each. The exact condition is proved per list of addresses, per group
  and for the whole zone: it is right if and only if none of its own address records is repeated, whatever the other
  targets have (`Streams.BuiltEndpoint`, `Streams.BuiltGroup`, `Streams.BuiltZone`, for all map iteration orders and
  capacities). `StreamExamples.RepeatedAddressExample` is the smallest case.
* A consequence is that an unrelated group can change a group, if the two share such a target
  (`StreamExamples.SharedTargetInterferes`: two addresses become four, one of them zero), and that the order of the
  stream can (`StreamExamples.OrderMakesADifference`). Without repeated address records of the group's own targets
  neither is possible. The exact conditions are about lists. However a list is visited twice, the second visit gives
  what the first gave if and only if the list is settled: free of duplicates, or beginning with its lowest address as
  often as there are unique ones, and either exactly twice as long as that or longer, with the zero address as lowest
  (`SettledLists.SettledIff`; `DisturbedLists.DisturbedIff` says the same of whole builds with and without a second
  group). For a target that only one group reaches, another order gives the same addresses if and only if none is
  repeated or the first records, as many as there are unique ones, are the same in some order
  (`StreamChanges.OrderMattersOnce`). For any streams, `StreamChanges.BuiltDoesNotInterfere` and
  `StreamChanges.OrderIsErased` are one way: a group stays as it was if its lists are settled. In no case
  does an address of another target get in, only zero ones (`Streams.BuiltAddresses`).
* `endpointsFor` is documented as 1-1 but skips targets without an address (service/collectors.go:181-196): it is 1-1
  if and only if every name has one (`EndpointCollecting.HitsAllIff`, `EndpointCollecting.SkippedTarget`).
* The checksum runs over the concatenated bytes of all files (service/fileIngester.go:202), so moving text from one
  file to the next goes unnoticed (`FileIngesting.BoundariesGoUnnoticed`), as does any collision
  (`FileIngesting.CollisionGoesUnnoticed`). The Locator is current all along if and only if every read with the
  checksum of the last good one before it has its records, too (`FileIngesting.AlwaysCurrentIff`).
* Ingests that overlap may leave the groups of the older read published under the checksum of the newer one
  (`IngestProtocol.OverlapMayPublishStale`). A run is safe from that if and only if no checksum is written while a
  call with another one has still to publish (`IngestAgreement.AlwaysAgreesIff`).
* They may also lose the newer read: its compare-and-swap fails, and nothing tries again before the next tick
  (`IngestAgreement.NewerReadIsLost`). There is at no time a call that would lose its read if and only if no step puts
  one at risk, by writing a third checksum or by joining too late (`IngestAgreement.NeverAtRiskIff`).
* "Only (1) background goroutine will run" (service/ingester.go:70) holds for goroutines whose context is not
  canceled: `Stop` does not wait, so a canceled one may still be inside `Ingest` beside its successor
  (`IngestChecking.TwoGoroutinesAtOnce`). There is never more than one goroutine of any kind if and only if each one
  started finds the earlier ones gone (`IngestChecking.OneLeftIff`).
* Draws are promised from [(1-percent)*value, (1+percent)*value] (ttl.go:84), but cutting off the fraction may take
  the lower end below that: value 1 and percent 0.5 give 0 to 1 (`Jitter.HalfOfOne`), and rounding may take the upper
  end above it (`Jitter.UpperEndExceeds`). `Jitter.EndsHoldIff` says when either end keeps to the exact product.
* The jitter range need not hold the TTL it was made for, once binary32 cannot hold that TTL
  (`Jitter.BracketsIffExact`, `Jitter.LargeValueIsMissed`).
* `DurationToSeconds` rounds to the nearest second exactly below 2 to the 24 seconds, about 194 days
  (`Durations.RoundedToNearestIff`).

## Model

| member | source | states |
|---|---|---|
| Ordering.TextOrder | dedupe.go:65-69 | strings.Compare is a strict total order: irreflexive, transitive, connected |
| Ordering.TextLessIff | dedupe.go:65-69 | one text comes before another exactly if at the first difference its byte is lower, or it ends there |
| Ordering.AddrOrder | compare.go:10-12 | so is CompareAddrs, over addresses of both families and their zones |
| Ordering.AddrLessIff | compare.go:10-12 | bit length decides first, 0, 32 or 128, then the bits as a number, then the zone |
| Ordering.ListingUnique | service/collectors.go:76-81 | a set has only one strictly ascending listing; this is why sorting erases the order of a map iteration |
| Ordering.SortedNoDupIsListing | dedupe.go:65-69 | sorting any duplicate-free listing of a set gives that one |
| Dedupe.Deduper.Add | dedupe.go:25-33 | the values held are the old ones and the new ones, as sets |
| Dedupe.Deduper.AppendTo | dedupe.go:52-61 | the unique values, each once, in some order, go behind the destination: in its storage if they fit, else in new storage with the old left alone |
| Dedupe.Deduper.SortFunc | dedupe.go:65-69 | the result is a sorting of the unique values |
| Values.DedupeInPlace | values.go:31-45 | duplicate-free slices are untouched; otherwise the result is the first k values followed by the k unique ones, and another header over the same cells reads a zeroed tail or, with room behind it, part of what was appended |
| Values.DedupeKeepsValues | values.go:31-45 | the set of values always survives; the result is free of duplicates if and only if the input was |
| Values.DuplicatesStay | values.go:42-43 | three equal addresses become two, and a second header over them reads a zero address |
| GroupDefinition.NameValidator.constructor | service/groupDefinition.go:29-42 | the filled table: leading a-y, inner a-y, 0-8 and hyphen, trailing a-y and 0-8 |
| GroupDefinition.NameValidator.ValidateGroupName | service/groupDefinition.go:44-64 | the table-driven check returns the first complaint in the order blank, leading, trailing, inner |
| GroupDefinition.AcceptedNames | service/groupDefinition.go:29-64 | a name of any length passes if and only if it is a lowercase label in the grammar of section 2.3.1 of RFC 1035 and has no z and no 9 |
| GroupDefinition.ComplaintIff | service/groupDefinition.go:29-64 | which complaint comes first, or none, with the 25 letters, 9 digits and the hyphen that the table takes spelt out |
| GroupDefinition.PromisedNameRejected | service/groupDefinition.go:15-19 | three labels the messages promise to take that are refused, each for another reason |
| GroupDefinition.FieldsIff | service/groupDefinition.go:78-78 | the fields of a text are the one list of words of which it consists, with white space between them and maybe around them |
| GroupDefinition.ParseWritten | service/groupDefinition.go:77-91 | fields of any bytes but the six white ones, with any of these six between them and maybe around them, are parsed into just that name and these services in order, or into the complaint about the name or about too few |
| GroupDefinition.AllAreWritten | service/groupDefinition.go:77-91 | every text is written that way |
| GroupDefinition.ParsesAs | service/groupDefinition.go:73-91 | a text parses into a definition if and only if it consists of the name and then the services, at least one, in order, and the name is a lowercase label without z and 9 |
| GroupDefinition.TooFewIff | service/groupDefinition.go:78-84 | the complaint about too few fields comes if and only if the text consists of fewer than two |
| GroupDefinition.ParseSpaced | service/groupDefinition.go:77-91 | printing a definition of any number of services with spaces and parsing it gives it back |
| GroupDefinition.ParsePrinted | service/groupDefinition.go:77-91 | parsing "name service" gives back both |
| GroupCollecting.GroupCollector.Add | service/collectors.go:28-41 | the services of a definition go behind those already known under its name, other groups keep theirs |
| GroupCollecting.GroupCollector.AddTxt | service/collectors.go:45-56 | definitions are added up to the first text that does not parse, whose error is returned |
| GroupCollecting.RelistSlice | service/collectors.go:68-71 | deduping and sorting in the slice's own storage gives the ascending listing of its set, and whoever still holds the old header reads the same set |
| GroupCollecting.GroupCollector.SortedDefinitions | service/collectors.go:60-84 | definitions in name order, each with its set of services listed; what the collector still refers to keeps the same sets, so a second call gives the same |
| GroupCollecting.GroupCollector.NewGroups | service/collectors.go:88-106 | groups strictly ascending by name, their services listed, and an index that is a bijection onto the positions |
| ServicesCollecting.ServicesCollector.Add | service/collectors.go:115-125 | one more target for a service, the others unchanged |
| ServicesCollecting.ServicesCollector.TargetNames | service/collectors.go:129-136 | the ascending listing of the targets of any of the services |
| EndpointCollecting.EndpointCollector.AddIP4 | service/collectors.go:145-161 | one more IPv4 address for a target, although the append may share or move its array; all others unchanged |
| EndpointCollecting.EndpointCollector.AddIP6 | service/collectors.go:163-179 | the same for IPv6 |
| AddressLists.TurnLengths | service/collectors.go:188-192 | one Dedupe and SortFunc: the list in the map keeps its length, the new one has that length, or twice the number of unique addresses if there were duplicates |
| AddressLists.TurnValues | service/collectors.go:188-192 | no address comes into the list in the map but the zero one, which never goes away again |
| AddressLists.OutcomeRightIff | service/collectors.go:184-199 | however often the targets are visited, in whatever capacities and map orders: an endpoint's list finally reads as the ascending listing of the recorded addresses if and only if none was recorded twice |
| AddressLists.OutcomeValues | service/collectors.go:184-199 | whatever is written to shared arrays later, no endpoint shows an address that was not recorded for its own target, but for the zero one |
| EndpointCollecting.NormalizeList | service/collectors.go:188-189 | in the shared arrays: exactly what the new header and the map's header read after a turn, in the same array or in a new one |
| EndpointCollecting.EndpointCollector.EndpointsFor | service/collectors.go:184-199 | exactly the named targets that have an entry are visited, in order; each visit starts from what the visits before it, in this call and earlier ones, left in the shared arrays; all headers found so far read as those visits say, those with an array of their own exactly what their visit gave |
| EndpointCollecting.TrackedOutcome | service/collectors.go:184-199 | following all headers in the end gives an outcome of the visits: those with an array of their own, and the last ones made on a list, read what their visit gave, the others what was written to their array since |
| EndpointCollecting.HitsAllIff | service/collectors.go:181-183 | the output is 1-1 with the names if and only if every name has an address |
| EndpointCollecting.SkippedTarget | service/collectors.go:187-187 | a name without an address is skipped |
| Zone.NonInterference | service/collectors.go:218-260 | of the join: facts that are no definition of a group, no target of its services and no address of its targets leave it as it was |
| Zone.RecordsSay | service/collectors.go:218-238 | what defines a group, its services, the targets of services and the IPv4 and IPv6 addresses of a target, each exactly in terms of TXT, SRV, A and AAAA records |
| Zone.JoinIsListed | service/collectors.go:250-260 | groups, services, endpoints and addresses of the join are each the ascending listing of the relation they come from |
| Zone.TextsUpToError | service/collectors.go:45-56 | at the first text that does not parse, those before it have been taken and its error is returned |
| Zone.RecordsUpToError | service/collectors.go:218-238 | at the first record with an error, those before it have been taken, and of it what comes before the error |
| Zone.AddRecordsFacts | service/collectors.go:218-238 | the facts held after a stream are the facts held before and those of its records |
| Collecting.RRCollector.AddRR | service/collectors.go:218-238 | every kind of record is filed as specified, definitions only from the discovery domain, unknown records are ignored, and errors stop a record halfway |
| Collecting.RRCollector.Reset | service/collectors.go:242-246 | empties the collector and leaves alone the arrays that built groups refer to |
| Collecting.RRCollector.Build | service/collectors.go:250-260 | the groups read from the shared storage after the whole loop are those of the join in names, services and endpoints, with addresses that are an outcome of visiting the targets of one group after the other; the index is a bijection and the collector is empty |
| Collecting.ListsRightIff | service/collectors.go:250-260 | each list of each endpoint of a build is that of the join if and only if its own target was not given one of its addresses twice |
| Collecting.GroupRightIff | service/collectors.go:250-260 | a built group is that of the join if and only if none of its own targets was given an address twice, whatever other groups reach |
| Streams.StreamAccepted | service/collectors.go:218-238 | a stream is taken without error if and only if every text at the discovery domain parses |
| Streams.BuildZone | service/collectors.go:218-260 | from records to groups: accepted if and only if every record is, and then groups that may be built from the stream |
| Streams.BuiltEndpoint | service/collectors.go:218-260 | names, services and endpoints are those of the join; the IPv4 addresses of an endpoint are if and only if the stream repeats no A record of that target, and so for IPv6 |
| Streams.BuiltAddresses | service/collectors.go:218-260 | every address that a built endpoint shows is in an A or AAAA record of that very target, or is the zero address |
| Streams.BuiltGroup | service/collectors.go:218-260 | a group is that of the join if and only if no address record of its own targets is repeated |
| Streams.BuiltZone | service/collectors.go:218-260 | all groups are those of the join if and only if that goes for all of them |
| Streams.CollectedLists | service/collectors.go:145-179 | what is recorded for a target is what the stream gives it, in order, free of duplicates if and only if the stream repeats none of its records |
| Streams.OrderIsAccepted | service/collectors.go:218-238 | two streams of the same records, however ordered and repeated, are both taken or both refused |
| SettledLists.TurnGives | values.go:31-45 | what a visit gives depends on nothing but the list: not on capacities, arrays or map orders |
| SettledLists.OrderMattersIff | values.go:42-43 | of two orders of a list a visit gives the same if and only if nothing is repeated or the first addresses, as many as there are unique ones, are the same in some order |
| SettledLists.SettledIff | service/collectors.go:187-194 | however a list is visited twice, the second visit gives what the first gave if and only if the list is settled |
| SettledLists.SettledOutcome | service/collectors.go:184-199 | endpoints of a settled list show what one visit gives, however often and for whichever groups the target is visited |
| SettledLists.OnceOutcome | service/collectors.go:184-199 | so do endpoints of any list whose target is visited for them alone |
| StreamChanges.BuiltSettled | service/collectors.go:250-260 | in every build from a stream a settled list is shown the same by all endpoints of its target |
| StreamChanges.BuiltOnce | service/collectors.go:250-260 | a target that only one group reaches shows what one visit of what the stream gives it makes of that, settled or not |
| StreamChanges.OrderIsErased | service/collectors.go:250-260 | built from a stream and from a permutation of it, with whatever map orders: always the same names, services and endpoints, and the very same group if its lists are settled and give the same in both, as they do if no address record of its targets is repeated |
| StreamChanges.OrderMattersOnce | service/collectors.go:250-260 | for a target that only one group reaches, a permuted stream gives the same addresses if and only if none is repeated or the first records, as many as there are unique addresses, are the same in some order |
| StreamChanges.BuiltDoesNotInterfere | service/collectors.go:250-260 | records that do not concern a group, put anywhere in the stream, leave the built group exactly as it was if its lists are settled and give the same in both, in particular if no address record of its own targets is repeated |
| StreamChanges.BehindUndisturbed | service/collectors.go:250-260 | put behind all others, such records leave the lists settled and giving the same if and only if they are settled without them |
| DisturbedLists.DisturbedIff | service/collectors.go:187-194 | a second group with the same target, visited first, never changes the addresses in any build if and only if the list of that target is settled |
| Streams.RepetitionMatters | service/collectors.go:184-199 | repeating a record never changes the join, and spoils a group if and only if it is an address record of a target the group reaches |
| StreamExamples.RepeatedAddressExample | service/collectors.go:184-199 | a zone of three records whose one address record may not be repeated: the groups built then are not those of the join |
| StreamExamples.SharedTargetInterferes | service/collectors.go:187-194 | a group that shares a target with three equal addresses does not concern h, yet with it h has four addresses, one of them zero, instead of two |
| StreamExamples.OrderMakesADifference | values.go:42-43 | of two orders of the same records one gives two of an address and the other three |
| Groups.Get | service/group.go:120-126 | a group is found if and only if there is one of that name, and has that name |
| Groups.GetIsScan | service/group.go:120-126 | the index answers exactly like a linear search, and no two groups have the same name |
| Groups.RRs | service/group.go:57-104 | the texts pushed, with the reused buffer, are for TXT the group's name, a space and a service for each service, then the same for each endpoint, in order and cut off where the consumer stops, and none for other types |
| Groups.PushedIsParsed | service/group.go:57-82 | each text pushed is parsed into the name of the group and just that service, or that endpoint |
| Groups.LenRRs | service/group.go:45-51 | the number of texts that a full push gives |
| Groups.ReadBack | service/collectors.go:45-56 | collecting the texts that distinct groups push for their services adds just these names with these services in order |
| Groups.PrintThenRead | service/group.go:57-82 | for the groups of any zone, reading back the texts they push for their services gives the same map from names to services, without error |
| Locating.Locator.Update | service/locator.go:208-247 | one ring per group, in order and by name, each with exactly the endpoints of its own group |
| Locating.KeysDecide | service/locator.go:178-188 | nothing but the hash of the key decides among the members of a ring: some hash sends any two keys to any two of them |
| Locating.AnswersInTurn | service/locator.go:146-164 | the answer to several names is that to the first ones followed by that to the others |
| Locating.RingsAreIndexed | service/locator.go:225-241 | the map of rings has the same names as the index of groups and, for each, the ring of that very group |
| Locating.Locator.FindString | service/locator.go:178-188 | one endpoint for each requested name that exists, in order and with multiplicity, or one for every group if none is named |
| Locating.AnswersComeFromNamedGroups | service/locator.go:146-164 | at most one endpoint per requested name, each the nearest in a group of a requested name |
| Locating.LookupsDoNotInterfere | service/locator.go:178-188 | for groups built from the two streams: records that do not concern a group, put anywhere, change no lookup filtered to it, for any key, if its lists are settled and give the same in both, in particular if no address record of its own targets is repeated |
| LocatorProtocol.RunKeepsInv | service/locator.go:166-247 | in every interleaving of updates and readers, field by field: fields differ from one whole update only as far as the writer holding the lock has come |
| LocatorProtocol.ReadsAreLinearizable | service/locator.go:166-196 | every Find and every Groups that returns was answered by one whole published update that was current at some moment between its call and its return |
| LocatorProtocol.UpdateIsPublished | service/locator.go:208-247 | in every interleaving an Update that has returned has published its groups since it was called |
| LocatorProtocol.OnlyUpdatesArePublished | service/locator.go:208-247 | and nothing is ever published that no Update was called with |
| LocatorProtocol.FindIsAnswered | service/locator.go:166-188 | in every interleaving a Find that has returned has got the whole answer of one update not older than its call, so it sees every Update that had returned before |
| LocatorProtocol.GroupsIsAnswered | service/locator.go:190-196 | the same for Groups |
| LocatorProtocol.WholeUpdate | service/locator.go:208-247 | from any state with the lock free, an uninterrupted Update publishes its groups, leaves the fields as theirs and the lock free, and changes nothing else |
| LocatorProtocol.WholeFind | service/locator.go:166-188 | from any reachable state that no writer locks, an uninterrupted Find returns the answer of the last update and changes nothing else |
| LocatorProtocol.WholeGroups | service/locator.go:190-196 | and Groups returns the last update |
| FileIngesting.ChecksumIsCurrent | service/fileIngester.go:276-298 | over every run of calls: nothing changes before the first success; after it the stored checksum is that of the last successful read, failures in between notwithstanding |
| FileIngesting.PublishedExactlyOnChange | service/fileIngester.go:238-241 | groups are dispatched on the first success and on every change of checksum against the last success, and only then |
| FileIngesting.AlwaysCurrentIff | service/fileIngester.go:276-298 | the read published last has the records of the last successful one, at every moment of a run, if and only if every read with the checksum of the last good one before it has its records, too |
| FileIngesting.FaithfulIsNoticed | service/fileIngester.go:276-298 | that is so in particular if no two reads of the run have one checksum and different records |
| FileIngesting.CollisionGoesUnnoticed | service/fileIngester.go:284-284 | without that, the records of a second read with the same checksum are never published |
| FileIngesting.BoundariesGoUnnoticed | service/fileIngester.go:202-202 | two checks of two readable files with other records but the same concatenation, under any checksum: the records of the first check stay located, and the Locator is not current |
| FileIngesting.FileIngester.ReadFiles | service/fileIngester.go:252-273 | a read succeeds if and only if every file in turn can be opened, parsed and collected without the context expiring, and then all bytes and records of all files are in |
| FileIngesting.ReadSucceedsIff | service/fileIngester.go:202-273 | a read succeeds if and only if globbing works, no file is reached with the context expired, each can be opened and is well-formed, and every text of a TXT record at the discovery domain parses |
| FileIngesting.FileIngester.Publish | service/fileIngester.go:279-291 | the Locator is given exactly the groups built from what was read |
| FileIngesting.FileIngester.Ingest | service/fileIngester.go:242-299 | one call: checksum and first change as specified, the Locator holds the groups of this read if they are published and is untouched otherwise; an error is dispatched exactly if globbing fails, the context expires, or a file cannot be opened, is malformed or has a definition that does not parse, and then nothing is changed |
| FileIngesting.FileIngester.IngestEach | service/ingester.go:109-117 | over every run of calls on the objects themselves: state, Locator and dispatched events are as the sequential account says, and if every read with the checksum of the last good one before it has its records, the Locator holds groups built from the last successful read |
| IngestProtocol.RunKeepsInv | service/fileIngester.go:242-299 | the invariant of every interleaving of Ingest calls: one initial branch, every write owned by one call, the log of writes a chain of values |
| IngestProtocol.AtMostOneInitial | service/fileIngester.go:279-283 | at most one call ever takes the initial branch |
| IngestProtocol.ChecksumOfARead | service/fileIngester.go:283-284 | the stored checksum is the starting zero or that of a complete read |
| IngestProtocol.OnePublicationPerChange | service/fileIngester.go:284-287 | of the calls that loaded x and computed y, two dispatch only if the stored value was x again in between |
| IngestProtocol.AloneIsIngestOnce | service/fileIngester.go:242-299 | a call that nothing overlaps does, step by step, what the sequential account says |
| IngestProtocol.OverlapMayPublishStale | service/fileIngester.go:284-291 | an interleaving after which the checksum is the newer read's, the groups published last are the older's, and reading again publishes nothing |
| IngestAgreement.AgreesAnyhowIff | service/fileIngester.go:284-291 | however the calls about to publish finish, groups and checksum come to agree if and only if all of them have the stored checksum |
| IngestAgreement.AlwaysAgreesIff | service/fileIngester.go:276-291 | in a run they always come to agree if and only if no checksum is written while a call with another one has still to publish |
| IngestAgreement.SeparateWritesAgree | service/fileIngester.go:276-291 | if no write lands while a call is about to publish, then whenever none is, the checksum is that of the read published last |
| IngestAgreement.NewerReadIsLost | service/fileIngester.go:284-287 | from any state past the first success: an interleaving of two calls after which the checksum is that of the read completed first, and the newer one is never published |
| IngestAgreement.NeverAtRiskIff | service/fileIngester.go:284-287 | in a run there is at no time a call whose compare-and-swap would find a third checksum if and only if every write is of a checksum that the calls about to swap loaded or have themselves, and each call comes to its swap while what it loaded is still stored |
| IngestAgreement.NoneLost | service/fileIngester.go:276-298 | no changed read is lost if no checksum is written while another call has loaded one and not yet decided |
| IngestAgreement.OneByOneIsRunAll | service/fileIngester.go:242-299 | a run of whole calls by any goroutines comes, step by step, to what the sequential account says |
| IngestChecking.IngestChecker.Start | service/ingester.go:122-131 | afterwards exactly one goroutine is active, and nothing changes if one was; the others stay as they are |
| IngestChecking.IngestChecker.Stop | service/ingester.go:134-142 | afterwards none is active, and nothing changes if none was; no goroutine is waited for |
| IngestChecking.IngestChecker.Turn | service/ingester.go:105-118 | one turn of the loop in run: the active goroutine goes on, a canceled one may still ingest or exit |
| IngestChecking.IngestChecker.Returned | service/ingester.go:114-116 | Ingest returns to the loop: the goroutine selects again, whether it is active is unchanged, and so are all others |
| IngestChecking.OneActiveWhenUnlocked | service/ingester.go:105-142 | in every interleaving, whenever the lock is free there is exactly one live goroutine with an uncanceled context if cancelFunc is set, and none otherwise |
| IngestChecking.NeverTwoActive | service/ingester.go:67-71 | not even while the lock is held are there two goroutines with an uncanceled context |
| IngestChecking.RepeatedCalls | service/ingester.go:120-142 | Start and Stop are idempotent and keep that |
| IngestChecking.WholeCalls | service/ingester.go:122-142 | an uninterrupted call in the transition system does what the class method does |
| IngestChecking.TwoGoroutinesAtOnce | service/ingester.go:133-142 | after Start, a tick, Stop and Start two goroutines may be there at once, the canceled one inside Ingest |
| IngestChecking.CanceledMayIngest | service/ingester.go:109-117 | after Start and Stop the canceled goroutine may still take a tick and call Ingest |
| IngestChecking.OneAfterTheOther | service/ingester.go:105-142 | a run of Start, a tick, the return of Ingest, Stop, exit and Start in which there is never more than one left |
| IngestChecking.OneLeftIff | service/ingester.go:67-71 | there is at no time more than one goroutine that has not exited if and only if every one started finds the earlier ones gone |
| Floats.RoundIsNearest | ttl.go:65-66 | rounding as modelled gives a number of the format that no other number of the format is nearer to |
| Floats.NumbersAreScaled | ttl.go:65-66 | the numbers that rounding keeps are exactly those with a significand of the format's precision |
| Floats.RoundedIsScaled | ttl.go:65-66 | every rounded value is such a number |
| Floats.TiesGoToEven | ttl.go:65-66 | half-way between two multiples of the ulp the even one is taken |
| Floats.RoundMonotone | ttl.go:65-66 | rounding keeps the order |
| Floats.RoundError | ttl.go:65-66 | the relative error is at most 2 to the minus precision |
| Jitter.RangeIsEnds | ttl.go:64-82 | no uint32 wraps: Range is the two products with fractions cut off, choose is its size, and it holds the value as rounded to float32, hence the value itself up to 2 to the 24 |
| Jitter.RangeIsClose | ttl.go:64-82 | each end is within 1 and a relative 2 to the -22 of the exact product, value times 1 - percent or 1 + percent, in real arithmetic |
| Jitter.HalfOfOne | ttl.go:84-85 | value 1 and percent 0.5 give the range 0 to 1, whose lower end is below the exact product 0.5 |
| Jitter.UpperEndExceeds | ttl.go:65-70 | rounding the product may take the upper end above the exact one: value 12582912 and percent 2 to the -23 give 12582914, not 12582913.5 |
| Jitter.FactorsAreRounded | ttl.go:64-66 | the factors are rounded to float32 first: with percent 5 times 2 to the -27 the range of 12582912 is 12582911 to 12582912 |
| Jitter.EndsHoldIff | ttl.go:84-85 | the lower end is at least the exact product if and only if a whole number lies between that and the product as computed; the upper end is at most the exact one if and only if none lies beyond it up to the one computed |
| Jitter.DrawsFillRange | ttl.go:84-92 | the TTLs that can be drawn are exactly those of Range |
| Jitter.JittersAround | ttl.go:54-92 | percents outside [0, 1) and only those are errors, a zero percent or value is returned as is, and every draw is in Range |
| Jitter.BracketsIffExact | ttl.go:44-53 | the range holds the value for every percent if and only if float32 holds the value exactly |
| Jitter.LargeValueIsMissed | ttl.go:65-66 | 16777219 is rounded to 16777220, and small percents miss it |
| Durations.ToSecondsAndBack | ttl.go:16-28 | converting any uint32 to a duration and back is the identity |
| Durations.SecondsAddUp | ttl.go:25-28 | durations of seconds add up, from one second of 1000000000 nanoseconds |
| Durations.DurationToSecondsIsMonotone | ttl.go:16-23 | monotone over every duration whose rounded seconds fit in a uint32, and at least 1 for positive ones |
| Durations.ConvertibleRange | ttl.go:13-15 | these include every duration up to 2 to the 32 less 1 seconds |
| Durations.RoundedToNearestIff | ttl.go:13-23 | all durations with a given number of whole seconds are rounded to the nearest second if and only if that number is below 2 to the 24 |
| Durations.WithinHalfSecond | ttl.go:13-23 | from half a second on the result is within half a second and 2 to the -20 of the duration |
| EndpointNames.JoinOfSplit | server/endpointHandler.go:41-44 | joining what was split restores the text |
| EndpointNames.SplitOfJoin | server/endpointHandler.go:41-44 | splitting what was joined from pieces without the separator restores the pieces |
| EndpointNames.ParseOfPrinted | server/endpointHandler.go:33-60 | a subdomain written as prefix-object-extra... or as the object alone, followed by groups, is parsed into just these |
| EndpointNames.ParseSpelt | server/endpointHandler.go:33-60 | prefix-object-extra.group.group and object.group, with the separators spelt out, are parsed into just these |
| EndpointNames.PrintOfParsed | server/endpointHandler.go:33-60 | every subdomain is one of the two written forms of the request it is parsed into |
| EndpointNames.SameRequestIff | server/endpointHandler.go:47-57 | two subdomains make the same request if and only if they are equal up to an empty prefix before a lone object |
| LocatedEndpoints.AddressesAre | service/locator.go:42-87 | IPv4 addresses for A, IPv6 addresses for AAAA, each endpoint's list behind those before it, and none for other types |
| LocatedEndpoints.LenRRs | service/locator.go:23-37 | the number of records that a full push gives: of IPv4 addresses for A, of IPv6 addresses for AAAA, zero for other types |
| LocatedEndpoints.RRs | service/locator.go:42-87 | for A the IPv4 addresses and for AAAA the IPv6 addresses, endpoint by endpoint in order, as records of that type with only the class set, cut off where the consumer stops; nothing for other types |
| Shuffling.Shuffle | shuffle.go:17-21 | in place: one swap for each position from the last down to the second, with it or one before it |
| Shuffling.ShuffleKeepsAll | shuffle.go:12-21 | a shuffle is a permutation |
| Shuffling.ShortIsUnchanged | shuffle.go:12-14 | fewer than two records stay as they are |
| Shuffling.ShuffleReaches | shuffle.go:15-21 | the possible outcomes of a shuffle are exactly the permutations of what was there |
| EndpointHandling.AllFoundIff | service/locator.go:178-188 | every lookup of a request finds an endpoint if and only if none of the groups it looks into is empty |
| EndpointHandling.EndpointHandler.ServeRequest | server/endpointHandler.go:110-126 | the answer is a shuffle of the answers there were and new records, all with one header, the name asked for, one drawn TTL and class INET; their addresses are, with multiplicity, the IPv4 lists of the located endpoints for A, the IPv6 lists for AAAA, and none for other types |
| EndpointHandling.AnswerHoldsRecords | server/endpointHandler.go:110-126 | from an empty answer: as many records as LenRRs says, all with that header, their addresses a permutation of those of the located endpoints |
| EndpointHandling.OneEndpointPerGroup | service/locator.go:146-164 | the located endpoints are one per requested existing group, in request order and with multiplicity, each the nearest in that group |
| EndpointHandling.AnswerComesFromZone | service/locator.go:178-188 | from records to answer, for any request: the k-th located endpoint is a target reached from the k-th requested group that exists, or from the k-th group of all if none is requested; its addresses of a kind are all those that the zone has, each once, if and only if none of their records is repeated, whatever else is in the zone |
| EndpointHandling.AnswerRecordsComeFromZone | server/endpointHandler.go:110-126 | from the records to each record of an answer: its address is in a record of that type of a target reached from a requested group, or is the zero address, which takes a repeated record of that target |
| EndpointHandling.AnswerHasAllRecords | server/endpointHandler.go:110-126 | and every address record of that type of a located target is answered if none of these is repeated |
| EndpointHandling.ObjectIsLookedUp | server/endpointHandler.go:41-57 | a name with prefix and extras locates the same endpoints as its object alone, and from each group the one that the object is hashed to |
| EndpointHandling.NoneEmptyIff | service/locator.go:178-188 | built groups let a request be answered if and only if every group of the zone that it looks into reaches something |

## Left out

- MergeGroupDefinitions, Deduper.Slice, Values.Len and Values.All: would only add easy members.
- server/groupHandler.go, server/handler.go and server/bundle.go: short branches on top of what is modelled.
- Zone-file parsing, globbing, opening files and `$INCLUDE`: a file is what it gives, its bytes and records, or the way in which it fails.
- The consistent ring: which member a key goes to is an unknown function of the endpoint names and the key; an empty ring has no nearest endpoint, and `ServeRequest` requires that the groups a request looks into are not empty, as the source does by dereferencing the result.
- The checksum function: any function of the bytes read.
- Random numbers: any number in their range; nothing is said about distributions.
- Trimming the zone domain from a question's name: parsing starts from the subdomain, without escaped dots.
- Listeners other than the Locator, logging, options, wiring, and the writing of DNS messages.
- GroupDefinition.FieldsIff: white space is that of ASCII, which the source demands of its texts.
- GroupCollecting.GroupCollector.Add: the arrays of the collector are numbered cells of an explicit store rather than Dafny arrays, and so are those of the endpoint collector and of built groups; sharing, capacity and update in place are kept, and the methods that dedupe and sort run on real arrays loaded from a cell.
- AddressLists.OutcomeRightIff: for a list with repeated addresses it says that it comes out wrong; which addresses it then holds is stated turn by turn, by `EndpointCollecting.NormalizeList`, for the last header made on a list and those with arrays of their own by `EndpointCollecting.TrackedOutcome`, and for settled lists and targets visited once by `SettledLists`.
- StreamChanges.BuiltDoesNotInterfere: for any two streams the condition is sufficient only, since a list that is not settled may have become so by the visits of groups that both streams have; exact forms are `SettledLists.SettledIff` for lists and `DisturbedLists.DisturbedIff` for whole builds with one such group more.
- StreamChanges.OrderIsErased: the condition is sufficient only, for the same reason; the exact form for targets that one group reaches is `StreamChanges.OrderMattersOnce`.
- Locating.LookupsDoNotInterfere: the same condition, and sufficient only as well: a lookup shows one endpoint of the group.
- IngestAgreement.NoneLost: a sufficient condition on whole calls; the exact one, step by step, is `IngestAgreement.NeverAtRiskIff`.
- IngestProtocol.RunKeepsInv: reading all files is one step, since the files are not shared state of the program.
- LocatorProtocol.ReadsAreLinearizable: the lock is any that lets in many readers or one writer; fairness and blocking are not modelled.
- Jitter.RangeIsEnds: requires the upper product to be below 2 to the 32, since Go leaves other conversions to the implementation; percents that are not numbers are not modelled.
- Durations.DurationToSecondsIsMonotone: durations whose seconds do not fit in a uint32 are excluded for the same reason.
