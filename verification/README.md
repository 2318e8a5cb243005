# Verification model of the Aniraku backend

A Dafny 4.11 model of the parts of the backend that hold arithmetic, parsing,
caching and concurrency rules, with proofs of what those parts promise.
`dafny verify dfyconfig.toml` checks the whole project.

HTTP, JSON, regular expressions and logging do not occur: their results are
inputs.  Time is an integer in nanoseconds, passed in, and Go's zero time is
`None`.  A Go map is read in an arbitrary order, so a loop over one picks keys
nondeterministically.  Code that changes state step by step is a class or a
method with a loop; what it computes is a function or relation of the old
state, and the laws are lemmas about that.  Concurrent code is a state machine
whose steps are the critical sections (or, where there is no mutex, the single
map, clock and channel operations), and the laws hold in every interleaving.

| module | what it models |
|---|---|
| `TransportStream`, `TransportStreamEncoding`, `TransportStreamCapture` | the MPEG-TS audio-language reader; an encoder written from sections 2.4.3, 2.4.4 and 2.6.18 of ISO/IEC 13818-1; and the exact condition under which the reader inverts it |
| `Text`, `EpisodeRanges`, `RangeText`, `EpisodeExtension` | AniList to TMDB range maps on their strings, what that notation means, and the extension loop on heap objects |
| `DirectSlots` | season concatenation for shows without a range map |
| `LoaderCache` | `cached`: a TTL cache with single-flight on two `sync.Map`s |
| `ServerLists`, `Stability`, `FanOut`, `ServerClone`, `SnapshotKeys`, `Flights` | the server-list stability cache: merges, last-good retention, capacity, isolation on the heap, the disk snapshot, single-flight, and the round of FindAllServers around them |
| `Jwks` | the JWKS refresh monitor |
| `Outage`, `Cooldown`, `RateLimit` | outage breakers, the AnimeX 429 ladder, the per-IP token bucket |
| `ProxyCodec`, `Dice` | the AnimeX proxy URL codec (sections 3.2 and 5 of RFC 4648) and the bigram score |

## Main results

- The first section on a PID is read back if and only if it loses no byte to a pointer
  field, or what the reader keeps after the loss happens to spell the rest: the
  reader drops the bytes before a pointer target, which end the section before.
  Where the PAT and the PMT are read, the reader returns exactly the declared
  languages, with resync gaps, foreign PIDs, adaptation fields and stuffing, if
  and only if no short language descriptor makes it read a neighbour's bytes as
  an undeclared language.
- On range maps in AniBridge's notation mapEpisodeNumber answers exactly what
  the map means: an index into the concatenation of the target ranges.
- Each requested episode's mapping depends on that number and the original
  mappings only, no existing range map is written, and no extended mapping is
  ever a base.  On one aligned base verified and extended targets together are
  one strictly increasing shift.
- In every interleaving of GetKey calls and background refreshes at most one
  refresh is in flight, each call starts at most one, refreshes for unknown
  keys keep their distance, nobody is left asleep, and the keys are those of
  the last refresh that yielded any, for an hour.  What a call answers is given
  in every case: a key its own or the awaited refresh brings is returned.
- In every interleaving of `cached` at most one call per key is between
  winning the key and giving it up, an owner deletes its own channel only, every
  channel is closed once, waiters can always be woken, and every call returns
  what its loader or the entry it looked at gives it.  Undisturbed, a call is
  one on a plain TTL cache, and a second one shares the first one's load.
- A provider's slots survive every run in which it is retained, for two hours
  and no longer, and reach the client with no others; a stored list is served
  for exactly its lifetime; callers cannot reach what the cache holds.
- The wrapping shift ladder is the overflow-free ladder for every strike count,
  and the two breaker designs agree on every trace with ordered times.  However
  many 429s race in a storm, only the episodes double the cooldown.
- Tokens are conserved, which bounds what any IP is allowed in any window of
  any run from the empty limiter, while its visitor is not dropped; and an idle
  visitor's next requests are allowed.
- A restart through the snapshot file restores exactly the durable unexpired
  snapshots if and only if their keys print plainly and alone, and a provider
  that stays silent is then still listed from them.

## Where the code and its comments differ

The model follows the code.

- internal/auth/jwks.go:23-26 promises a 24 hour grace bound; `jwksGrace` is
  never read, and old keys are served after any failed refresh.
- internal/auth/jwks.go:160-166 says the refresh runs outside the lock; the
  fetch runs while `mu` is held.
- internal/auth/jwks.go:28-34 says refreshes are limited across all callers;
  refreshes of expired or missing keys are not (lines 133-141).
- internal/streaming/outage.go:18-21 calls a resolve that ran past `probeMin`
  sick; line 45 passes it as healthy.
- internal/tmdb/resolver.go:1015-1017 says flagged targets fail the alignment
  test; line 1025 strips the flag first.
- internal/streaming/animex.go:63-64 says the cooldown grows to 15 minutes; the
  shift stops at 2 (line 914), so it grows to four times the advice.
- internal/streaming/animex.go:872-873 says the advice is capped at 2 minutes;
  the cap is 15 minutes (line 876).

## Model

| member | source | states |
|---|---|---|
| TransportStream.SplitTS | internal/streaming/segment_probe.go:282-297 | the resync loop yields the packets of the scan, on any bytes: each 188 long with a leading 0x47 |
| TransportStreamEncoding.SplitInvertsFraming | internal/streaming/segment_probe.go:282-297 | packets framed by gaps without 0x47, before a truncated tail, are split back into exactly those packets |
| TransportStreamEncoding.SplitIsAFraming | internal/streaming/segment_probe.go:282-297 | conversely, whatever the bytes, they are such a framing of the packets the split returns |
| TransportStreamEncoding.PayloadOfEncoded | internal/streaming/segment_probe.go:301-324 | every encoded packet, with any flags, adaptation field and pointer field, gives back its PID and exactly its payload |
| TransportStream.TsSection | internal/streaming/segment_probe.go:327-343 | the reassembly loop returns the front section of the PID's concatenated payloads |
| TransportStreamCapture.ReassemblyInvertsPacketization | internal/streaming/segment_probe.go:327-343 | a section comes back byte for byte if and only if the bytes the reader keeps begin with it and are nine at least, and nothing comes back while only a proper prefix has arrived |
| TransportStreamCapture.PidPayloadIsKept | internal/streaming/segment_probe.go:301-343 | what the reader keeps of a PID is the wire without the bytes before pointer targets |
| TransportStreamCapture.SectionReadIff | internal/streaming/segment_probe.go:316-343 | a section on the wire is read if no byte of it lies before a pointer target, and otherwise if and only if the bytes kept after its first loss spell the rest of it |
| TransportStreamCapture.LossIsPatched | internal/streaming/segment_probe.go:316-343 | a section that loses bytes behind its header comes back with the bytes kept after the loss moved up into their place, or not at all where there are too few |
| TransportStreamCapture.TailBeforePointerIsLost | internal/streaming/segment_probe.go:316-323 | such a loss for every PMT section of 184 to 365 bytes that ends in its second packet before the next section's first byte |
| TransportStreamCapture.MidSectionStartIsNeverLeft | internal/streaming/segment_probe.go:327-343 | when the first kept byte of a PID is not the table's id, no section of it is ever returned |
| TransportStreamCapture.PacketizedSectionIsRead | internal/streaming/segment_probe.go:301-343 | a section cut into a unit-start packet and full packets with 0xFF stuffing, interleaved with other PIDs, is read back |
| TransportStream.TsPMTPID | internal/streaming/segment_probe.go:346-359 | the loop over the PAT returns the PID of the first non-zero program, or -1 |
| TransportStreamCapture.PmtPidOfEncoded | internal/streaming/segment_probe.go:346-359 | for an encoded PAT that is the PID of the first non-zero program it lists |
| TransportStream.ReadDescriptors | internal/streaming/segment_probe.go:265-275 | the descriptor loop adds exactly the languages of the descriptor walk; every index is in range and it ends |
| TransportStream.ReadStreams | internal/streaming/segment_probe.go:250-279 | the elementary-stream loop collects the languages of every stream |
| TransportStream.TsAudioLangs | internal/streaming/segment_probe.go:243-279 | on arbitrary bytes the whole reader is the composition of split, PAT lookup, reassembly and walk |
| TransportStreamEncoding.DescriptorLangsOfEncoded | internal/streaming/segment_probe.go:265-275 | on encoded descriptors the walk finds the declared triples and the stray ones, nothing else |
| TransportStreamEncoding.StreamLangsOfEncoded | internal/streaming/segment_probe.go:257-277 | the same over all streams of an encoded PMT body |
| TransportStreamEncoding.PmtLangsOfEncoded | internal/streaming/segment_probe.go:250-279 | the same for a whole PMT section, with program info and CRC |
| TransportStreamCapture.TablesReadIff | internal/streaming/segment_probe.go:327-343 | both tables of a capture come back if and only if the bytes kept of their PIDs begin with them; uncut by pointer fields, they do |
| TransportStreamCapture.AudioLangsOfCapture | internal/streaming/segment_probe.go:243-279 | end to end: a capture whose tables are read yields the declared languages plus the stray ones |
| TransportStreamCapture.BroadcastIsRead | internal/streaming/segment_probe.go:243-359 | a PAT and a PMT uncut by pointer fields, in any packets with any adaptation fields, behind the end of an earlier section and before any later ones, among any other PIDs, framed by any gaps and cut off anywhere, are read |
| TransportStreamCapture.EveryShowCanBeBroadcast | internal/streaming/segment_probe.go:243-359 | every PAT naming a program off PID 0, and every PMT, has such a broadcast |
| TransportStreamCapture.AudioLangsExactIff | internal/streaming/segment_probe.go:266-275 | where the tables are read, the result is exactly the declared languages, for every normalizer, if and only if every stray triple is declared |
| TransportStreamEncoding.LongDescriptorsDoNotStray | internal/streaming/segment_probe.go:266-275 | no triple is stray when language descriptors hold at least four bytes |
| TransportStreamEncoding.ShortDescriptorStrays | internal/streaming/segment_probe.go:269 | an empty language descriptor makes the reader take its neighbour's header for a language |
| EpisodeRanges.ParseRange | internal/tmdb/resolver.go:836-868 | a range that parses starts at 1 or later and is not empty |
| EpisodeRanges.ParseRangeOfDigits | internal/tmdb/resolver.go:836-868 | a printed number parses as the range of that one episode |
| EpisodeRanges.WalkTargets | internal/tmdb/resolver.go:887-903 | using up the offset range by range is indexing the concatenation of the target ranges, in int64 |
| EpisodeRanges.NthStep | internal/tmdb/resolver.go:892-902 | skipping a range moves the index by its length, an open one's being 2^30 |
| EpisodeRanges.MapEpisodeNumber | internal/tmdb/resolver.go:870-907 | for every map order the answer is that of some covering entry, and none exactly when none covers or the covering one has no target |
| EpisodeRanges.DisjointSourcesGiveOneAnswer | internal/tmdb/resolver.go:870-907 | with disjoint source ranges the answer is the same for every map order |
| EpisodeRanges.DisjointTargetsAreInjective | internal/tmdb/resolver.go:870-907 | with disjoint targets no two episodes share one, even where a sum wraps |
| EpisodeRanges.AnswersAreInts | internal/tmdb/resolver.go:887-903 | every answer is an int64 and differs from the episode's place in the target list by whole 64-bit words only |
| EpisodeRanges.IdentityAlignedContinuation | internal/tmdb/resolver.go:1018-1044 | ok exactly when every entry is 1..e to 1+offset..e+offset with one offset, and maxEnd is the largest e |
| EpisodeRanges.ContinuesIsUnique | internal/tmdb/resolver.go:1018-1044 | offset and end do not depend on the map order |
| EpisodeRanges.AlignedTargetIsOnlyTarget | internal/tmdb/resolver.go:1025-1030 | a target that passes the alignment test lists that one range only |
| EpisodeRanges.VerifiedRangeIsShifted | internal/tmdb/resolver.go:870-907 | an aligned map sends every n in 1..maxEnd to n+offset, for every map order, if and only if no target carries a ratio other than 1 |
| EpisodeRanges.HasOpenEndedSourceRange | internal/tmdb/resolver.go:1046-1057 | true exactly when an open key starts at or before the episode |
| EpisodeRanges.OpenEndedIff | internal/tmdb/resolver.go:1046-1057 | that is, exactly when one key covers the episode and every later one |
| EpisodeRanges.ExtendedMapIsClosed | internal/tmdb/resolver.go:1046-1057 | an extended map is never open-ended |
| RangeText.ParseInvertsPrint | internal/tmdb/resolver.go:836-868 | parsing inverts writing for every closed, open and single range, with spaces and leading zeros; numbers beyond int64 stand for the largest one |
| RangeText.ParseIff | internal/tmdb/resolver.go:836-868 | a text is read as a range if and only if it writes that range |
| Text.AtoiIff | internal/tmdb/resolver.go:879-884 | the ratio behind the bar reads as an integer exactly when it is digits, with a sign or without, within int64 |
| RangeText.TargetInvertsPrint | internal/tmdb/resolver.go:876-896 | a written target reads back as exactly the ranges listed, in order, and its ratio stops the mapping exactly when it is not 1 |
| RangeText.WrittenMapMeans | internal/tmdb/resolver.go:870-907 | on any range map in AniBridge's notation the possible answers are exactly: none under a ratio other than 1, otherwise the covering range's distance as an index into the concatenation of its target ranges |
| RangeText.EveryMapCanBeWritten | internal/tmdb/resolver.go:836-868 | any entries with different sources can be written as one map; no two ranges print alike |
| RangeText.RatioPassesAlignment | internal/tmdb/resolver.go:1015-1025 | every aligned entry with a ratio other than 1 passes the alignment test and maps no episode |
| RangeText.WrittenSourcesDisjointIff | internal/tmdb/resolver.go:870-877 | no episode is covered by two keys of a written map if and only if no two of its ranges overlap |
| EpisodeExtension.SelectTmdbMappingForEpisode | internal/tmdb/resolver.go:994-1008 | chooses a mapping exactly when one mapping alone answers, with its answer |
| EpisodeExtension.SelectionIsUnique | internal/tmdb/resolver.go:994-1008 | with disjoint sources the choice does not depend on map order |
| EpisodeExtension.OutcomeIsUnique | internal/tmdb/resolver.go:1447-1508 | verified, extended or unmapped: at most one outcome, base and target per number |
| EpisodeExtension.OutcomesShift | internal/tmdb/resolver.go:1447-1508 | on a base that passes the alignment test every target, verified or extended, is the number plus the base's offset; verified exactly for 1..end, extended exactly beyond |
| EpisodeExtension.SharedBaseIncreases | internal/tmdb/resolver.go:1447-1508 | the numbers on one such base form one strictly increasing injective map |
| EpisodeExtension.OneMappingShiftsAll | internal/tmdb/resolver.go:1447-1508 | with one aligned tv mapping and no ratio other than 1 every number from 1 on is mapped, and the whole map is the shift |
| EpisodeExtension.TargetSign | internal/tmdb/resolver.go:1485-1488 | the guard against a target below 1 catches exactly the sums that overflow an int64 |
| EpisodeExtension.FindBase | internal/tmdb/resolver.go:1466-1480 | the base is the first original tv mapping with the largest verified end before n; appended ones are never chosen |
| EpisodeExtension.ExtendedFromHighestBase | internal/tmdb/resolver.go:1466-1494 | an extended number's base is an aligned tv mapping whose verified end lies below it, the highest such end and the first of several; an unmapped number has no such mapping, or one that would take it out of int64 |
| EpisodeExtension.ExtendMapping | internal/tmdb/resolver.go:1498-1505 | the extension has a fresh range map: the base's entries and the new one; the base's map is unchanged |
| EpisodeExtension.ExtendedMapNeverContinues | internal/tmdb/resolver.go:1018-1044 | a map with an extension's entry fails the alignment test, so it is no base for a later number |
| EpisodeExtension.ExtendedMapAnswers | internal/tmdb/resolver.go:870-907 | an extended map sends its own number to the extended target |
| EpisodeExtension.ExtendNumber | internal/tmdb/resolver.go:1466-1508 | one turn of the extension loop gives the number its outcome and appends only mappings that cannot be bases |
| EpisodeExtension.ExtendUnselected | internal/tmdb/resolver.go:1462-1508 | a number with a verified mapping keeps it; any other gets its outcome with a fresh range map or none |
| EpisodeExtension.SelectRequested | internal/tmdb/resolver.go:1447-1450 | the first loop gives every number its verified selection |
| EpisodeExtension.MapRequested | internal/tmdb/resolver.go:1447-1508 | both loops: every number has an outcome of the original mappings alone; no existing heap object is modified |
| EpisodeExtension.ResolvedAnswersItself | internal/tmdb/resolver.go:1447-1508 | the range map of every mapping handed out sends the number to the target that the mapping carries, in every map order |
| EpisodeExtension.TwoRequests | internal/tmdb/resolver.go:1447-1508 | a number asked for in two requests shows the same mapping and target in both, whatever else they ask |
| DirectSlots.DirectSeasons | internal/tmdb/direct.go:198-227 | exactly the seasons with a positive number and episode count, with multiplicity, ordered by number |
| DirectSlots.PickDirectSeason | internal/tmdb/direct.go:234-275 | the first marker naming a listed season, else the lone season, else the only one with the known count, else the first; always a listed one |
| DirectSlots.AssignSeason | internal/tmdb/direct.go:301-306 | one season adds exactly its requested numbers |
| DirectSlots.AssignDirectSlots | internal/tmdb/direct.go:281-313 | number n gets the n-th slot of the seasons joined from the start, exactly for requested n in range; needed is exactly the seasons used; the early break loses nothing |
| DirectSlots.FromSeasonIsSuffix | internal/tmdb/direct.go:293-300 | the line starts at the first season of the picked number and leaves out none after it |
| DirectSlots.SlotMeans | internal/tmdb/direct.go:281-313 | number n has a slot exactly when it is requested, and that slot is episode e of season a when n counts the episodes of the seasons from the picked one up to a, and e |
| DirectSlots.LineInjectiveIff | internal/tmdb/direct.go:281-313 | no two numbers share a slot if and only if no season number repeats |
| DirectSlots.LineOrdered | internal/tmdb/direct.go:281-313 | later numbers get later slots |
| DirectSlots.PickedSeasonStartsTheLine | internal/tmdb/direct.go:293-300 | slot 1 is the first episode of the picked season |
| LoaderCache.StepKeepsInv | internal/tmdb/resolver.go:291-325 | every atomic operation of every call keeps the invariant |
| LoaderCache.EveryRunKeepsInv | internal/tmdb/resolver.go:291-325 | so does every run |
| LoaderCache.ReachableStates | internal/tmdb/resolver.go:291-325 | in every interleaving: one loader per key, owners delete their own channel, channels are closed once, and a returned value was produced by a loader for that key and unexpired at the reading it was compared with |
| LoaderCache.OwnLoadIsReturned | internal/tmdb/resolver.go:318-325 | in every run a call whose loader came back returns the loaded value, or the failure, and nothing else |
| LoaderCache.WaiterSharesIff | internal/tmdb/resolver.go:303-311 | in every run a waiter returns the entry that was there when it looked, checked against a later clock reading: for certain when it lives until the waiter has returned, and never when nothing was there |
| LoaderCache.WaitersWaitForTheOwner | internal/tmdb/resolver.go:301-303 | in every run a waiter goes on only after its channel was closed |
| LoaderCache.LoneCall | internal/tmdb/resolver.go:291-325 | from any state in which its key is not in flight, a call that runs undisturbed answers and leaves the cache as a plain TTL cache would: a hit without loading, a load kept for the ttl, an error not kept; nothing stays in flight |
| LoaderCache.SecondCallShares | internal/tmdb/resolver.go:298-324 | from any reachable state with the key in flight and no unexpired entry, a second call loads nothing and shares the first one's value and expiry, or fails with it |
| LoaderCache.OwnerCloses | internal/tmdb/resolver.go:313-324 | from any point an owner's own next steps close its channel and touch no other call |
| LoaderCache.WaitersWake | internal/tmdb/resolver.go:301-312 | a waiter can go on, or its owner's next steps wake it |
| LoaderCache.HitsAreFreshIff | internal/tmdb/resolver.go:292-296 | over all reachable states a fast-path hit is unexpired when read if and only if no time has passed since the call read the clock |
| LoaderCache.DelayedHitIsStale | internal/tmdb/resolver.go:292-296 | for every delay a run from the start in which an expired value is returned |
| LoaderCache.EvictPass | internal/tmdb/resolver.go:336-372 | on the entries it ranges over, the expired ones go, then the earliest to expire, until at most 5000 are left |
| LoaderCache.LateEntriesStay | internal/tmdb/resolver.go:355-372 | a live entry stays when at most 5000 live ones expire as late as it does |
| LoaderCache.PassIsARun | internal/tmdb/resolver.go:358-371 | the pass's deletions are steps of the protocol and touch the cache alone |
| ServerLists.KeyIsInjective | internal/streaming/servers_stability.go:292 | two servers share a slot if and only if provider and name are the same, as long as no provider has a NUL |
| ServerLists.MergeProviderServers | internal/streaming/servers_stability.go:352-369 | the loops give the fresh list followed by the previous servers of other slots |
| ServerLists.MergedProviderKeys | internal/streaming/servers_stability.go:352-369 | the slots are exactly those of both lists; fresh servers come first unchanged, and other slots show the previous server |
| ServerLists.MergeListSnapshot | internal/streaming/servers_stability.go:286-316 | the loops give the survivors of the previous list followed by the new servers |
| ServerLists.MergedOrder | internal/streaming/servers_stability.go:286-316 | the slots are the surviving previous ones in their old order, then the new ones in fresh order |
| ServerLists.CurrentIsLast | internal/streaming/servers_stability.go:290-293 | of several fresh servers with one slot the last is current |
| ServerLists.FreshWins | internal/streaming/servers_stability.go:294-314 | a slot the fresh round has shows its server, the current one where the slot is old; any other slot shows the previous server, at most two hours old |
| ServerLists.MergedDistinct | internal/streaming/servers_stability.go:286-316 | distinct slots stay distinct |
| Stability.RemoveOldest | internal/streaming/servers_stability.go:406-436 | exactly one oldest entry goes, for every map order |
| Stability.StoreWithinCapacity | internal/streaming/servers_stability.go:265-267 | making room before a store keeps the map within its capacity |
| Stability.StabilityCache.StabilizeProvider | internal/streaming/servers_stability.go:324-350 | the new provider map and the answer in every case: merge, store, fall back, expire |
| Stability.StabilityCache.LoadList | internal/streaming/servers_stability.go:244-256 | the snapshot while it has not expired; an expired one is dropped |
| Stability.StabilityCache.StoreList | internal/streaming/servers_stability.go:258-279 | the merged list is stored and returned, with the short lifetime when a critical provider is missing |
| Stability.ProvidersStayBounded | internal/streaming/servers_stability.go:324-350 | in every run from at most 2048 snapshots the provider map stays within 2048 entries |
| Stability.ListsStayBounded | internal/streaming/servers_stability.go:244-279 | in every run the list map stays within 256 entries |
| Stability.SnapshotIsLastGood | internal/streaming/servers_stability.go:324-350 | over every run, from whatever snapshots the cache starts with, a provider's snapshot is that of its last productive round, or the one it started with |
| Stability.EmptyRoundReturnsLastGood | internal/streaming/servers_stability.go:338-349 | an empty round returns the last productive round's list, or the one the cache started with, exactly when at most two hours have passed |
| Stability.ProductiveRoundReturns | internal/streaming/servers_stability.go:324-337 | a productive round returns its servers first and then every slot of the last-good list when that is at most two hours old, and its own servers alone when it is older |
| Stability.SnapshotIsRemembered | internal/streaming/servers_stability.go:324-350 | a provider never the oldest of a full map has exactly the snapshot of its last productive round, until an empty round finds it over two hours old |
| Stability.StoredListIsLoaded | internal/streaming/servers_stability.go:244-279 | the list that storeList returned is loaded again, whatever the other traffic, for 90 seconds when the title is gated or both critical providers are in it, else for 5, while it is not the oldest of a full map |
| Stability.ListIsRemembered | internal/streaming/servers_stability.go:244-279 | and a list found expired by a load is forgotten, so a later store does not merge it |
| Stability.SlotsNeverShrink | internal/streaming/servers_stability.go:324-369 | while a provider is retained, no slot it once had leaves its snapshot or its non-empty answers |
| FanOut.JoinedKeys | internal/streaming/manager.go:741-744 | joining the pools loses no slot |
| FanOut.StoredListKeepsRound | internal/streaming/servers_stability.go:258-279 | the slots storeList returns are exactly the round's, and those of the list before when that is at most two hours old |
| FanOut.ProviderSlotsReachTheClient | internal/streaming/manager.go:671-767 | whatever the interleaving, a provider's unexpired last-good slots and those it just found are in the list the client gets |
| FanOut.ClientSlotsHaveASource | internal/streaming/manager.go:749-774 | no other slot reaches the client: each is in some pool, or in the title's stored list of at most two hours ago |
| FanOut.CancelledRoundStoresNothing | internal/streaming/manager.go:772-774 | a cancelled or empty round leaves what every title loads as it was |
| ServerClone.CloneServers | internal/streaming/servers_stability.go:438-465 | the same value made of new objects only, down to headers and subtitles; nil stays nil; nothing old is touched |
| ServerClone.CloneSources | internal/streaming/servers_stability.go:450-457 | sources and their subtitle lists are copied deeply |
| ServerClone.CloneHeaders | internal/streaming/servers_stability.go:445-449 | a new map with the same entries, for every map order |
| ServerClone.WiderList | internal/streaming/servers_stability.go:438-465 | a list's value depends only on the objects it is made of |
| ServerClone.SharedLists.Keep | internal/streaming/servers_stability.go:277-278 | the cache keeps a clone nobody else reaches and hands out another |
| ServerClone.SharedLists.Lend | internal/streaming/servers_stability.go:255 | a lent list has the stored value and shares no object with the cache |
| ServerClone.CallersCannotReachTheCache | internal/streaming/servers_stability.go:244-279 | rewriting the list passed in, the one handed back and one that was lent changes nothing the cache holds or lends later |
| SnapshotKeys.PrintDigits | internal/streaming/servers_stability.go:174-191 | the digit loop prints the decimal digits |
| SnapshotKeys.ReadInt | internal/streaming/servers_stability.go:147-164 | the digit loop computes the value in a wrapping int64, and 0 for other text |
| SnapshotKeys.AtoiInvertsItoaIff | internal/streaming/servers_stability.go:147-191 | reading inverts printing on an int64 if and only if it is not the smallest |
| SnapshotKeys.SplitStabilityKey | internal/streaming/servers_stability.go:134-145 | the index loop cuts at the first four slashes and leaves the rest whole |
| SnapshotKeys.KeyRoundTripIff | internal/streaming/servers_stability.go:166-172 | parsing inverts printing a key if and only if its lang has no slash and its numbers are not the smallest int64 |
| SnapshotKeys.SlashMergesKeys | internal/streaming/servers_stability.go:166-172 | two keys, one with a slash in its lang, that are saved under one string |
| SnapshotKeys.KeyStringsDiffer | internal/streaming/servers_stability.go:166-172 | no two plain keys are merged |
| SnapshotKeys.Save | internal/streaming/servers_stability.go:203-222 | the file has an entry for exactly the providers that are not token-based |
| SnapshotKeys.Load | internal/streaming/servers_stability.go:92-132 | exactly the readable entries of durable providers younger than their lifetime are restored, for any order of the file |
| SnapshotKeys.FaithfulRestart | internal/streaming/servers_stability.go:92-222 | when the keys to be restored print plainly and alone, a restart restores exactly the durable unexpired snapshots, whatever order the maps are read in |
| SnapshotKeys.UnfaithfulRestart | internal/streaming/servers_stability.go:92-222 | otherwise some order loses one of them |
| SnapshotKeys.RestartFaithfulIff | internal/streaming/servers_stability.go:92-222 | so all restarts are exact if and only if every restorable key is plain and shares its string with no other saved key |
| SnapshotKeys.SaveThenLoad | internal/streaming/servers_stability.go:92-222 | saving and loading is such a restart |
| SnapshotKeys.RestartKeepsSize | internal/streaming/servers_stability.go:92-222 | a restart brings back no more snapshots than were saved |
| SnapshotKeys.RestartedRunStaysBounded | internal/streaming/servers_stability.go:224-350 | a run from a restored cache stays within 2048 entries |
| SnapshotKeys.LastGoodSurvivesRestart | internal/streaming/servers_stability.go:92-350 | after a restart with faithful keys an empty round of a provider that has not answered since returns the list saved before it, exactly within the last-good time of the last answer |
| Flights.FlightTable.BeginFlight | internal/streaming/servers_stability.go:387-396 | join the active flight of the key, or lead a new one |
| Flights.FlightTable.FinishFlight | internal/streaming/servers_stability.go:398-404 | publish, retire the key and close the channel |
| Flights.StepKeepsInv | internal/streaming/manager.go:602-623 | every step of every request keeps the flight invariant |
| Flights.EveryRunKeepsInv | internal/streaming/manager.go:602-623 | so does every run |
| Flights.ReachableFlights | internal/streaming/manager.go:602-623 | in every interleaving one leader per key, no channel closed twice, and each returned list is the one its own flight published |
| Flights.LeadersListIsReturned | internal/streaming/manager.go:602-623 | in every run the list a leader finishes with is the one it returns, and the one every request on its flight returns |
| Flights.BeginJoinsOrLeads | internal/streaming/servers_stability.go:387-396 | a request begins by waiting for the leader of its key if there is one, and by leading a flight of its own if not |
| Flights.CancelledReturnsNothing | internal/streaming/manager.go:604-611 | a waiter that gave up never returns a list |
| Flights.PublishedIsFinal | internal/streaming/servers_stability.go:398-404 | a closed flight never changes |
| Flights.WaitersAreServed | internal/streaming/manager.go:604-611 | a waiter can go on, or the leader that will close its channel is at work |
| Jwks.UsableLookup | internal/auth/jwks.go:195-221 | of several entries with one kid the last usable one counts |
| Jwks.JwksMonitor.DoRefreshLocked | internal/auth/jwks.go:171-234 | installs the usable keys when there are any, otherwise keeps the old ones and fails |
| Jwks.JwksMonitor.OneTurn | internal/auth/jwks.go:93-155 | one turn of GetKey's loop in every branch |
| Jwks.JwksMonitor.GetKeySection | internal/auth/jwks.go:84-158 | one critical section ends in at most two turns |
| Jwks.AttemptsIff | internal/auth/jwks.go:98-140 | exactly when a turn sets the refreshing flag, and that its attempted variable records it |
| Jwks.AgainOnlyAfterOwnRefresh | internal/auth/jwks.go:93-142 | the loop goes round without waiting only right after its own refresh, and then ends |
| Jwks.FoundIsCurrent | internal/auth/jwks.go:93-155 | a key is returned only if it is in the map, unexpired or after the call's own failed refresh |
| Jwks.KnownKidIsServed | internal/auth/jwks.go:93-97 | a kid in an unexpired set is answered at once, and nothing changes |
| Jwks.FetchedKeyIsServed | internal/auth/jwks.go:128-234 | a call that refreshes stale keys returns the last key the fetched set offers for its kid, unless the next clock reading comes an hour after the install; then the kid is unknown |
| Jwks.UnofferedKidIsUnknown | internal/auth/jwks.go:128-234 | a kid the fetched set does not offer is unknown, and the set is installed |
| Jwks.OldKeyOutlivesFailedRefresh | internal/auth/jwks.go:143-155 | after a refresh without a usable key the old key for the kid is returned, expired or not, and an error only without one |
| Jwks.OtherwiseWaitsOrUnknown | internal/auth/jwks.go:98-135 | in all other cases the call sleeps when a refresh runs or may begin, answers unknown when not, and leaves the keys alone |
| Jwks.SectionEffect | internal/auth/jwks.go:84-158 | what a whole critical section can do to the monitor |
| Jwks.StepKeepsInv | internal/auth/jwks.go:84-169 | every arrival, section, fetch and broadcast keeps the invariant |
| Jwks.EveryRunKeepsInv | internal/auth/jwks.go:84-169 | so does every run |
| Jwks.ReachableStates | internal/auth/jwks.go:84-234 | in every interleaving: one refresh in flight, one attempt per call, unknown-kid refreshes at least 60s after any attempt, no sleeper once refreshing is false, keys are those of the last successful non-empty refresh and expire an hour after it |
| Jwks.SleepersWake | internal/auth/jwks.go:108-123 | the refresh in flight, by its fetch and its broadcast alone, makes every sleeper ready again |
| Jwks.SleeperIsServed | internal/auth/jwks.go:108-234 | a sleeper for whose kid that refresh brings a key returns that key from its next section, within the hour |
| Jwks.NoDeadlock | internal/auth/jwks.go:84-158 | while a call is unfinished, a call or a refresh goroutine can move |
| Jwks.StaleRefreshesIgnoreTheInterval | internal/auth/jwks.go:133-141 | two refreshes of missing keys can follow each other at once |
| Outage.ShiftLadder | internal/streaming/outage.go:59-64 | for every strike count the clamped wrapping shift is min(10min * 2^(s-1), 1h) |
| Outage.LoopPause | internal/streaming/animegg.go:175-184 | so is the doubling loop |
| Outage.PausedIff | internal/streaming/outage.go:37-67 | after every trace the provider is paused exactly when the last resolve was sick and less than its pause ago: 10, 20, 40 and then 60 minutes |
| Outage.OutageBreaker.Note | internal/streaming/novuscloud.go:209-228 | strikes and the end of the pause after a healthy or sick resolve, in this and in outage.go |
| Outage.OutageBreaker.NoteResolve | internal/streaming/outage.go:44-46 | a resolve that reached probeMin counts as healthy |
| Outage.AnimeGGBreaker.NoteOutageHealth | internal/streaming/animegg.go:163-190 | the same for the extend-only design |
| Outage.AssignedMeans | internal/streaming/outage.go:48-67 | over every trace the strikes are the sick resolves since the last healthy one, and the pause is the ladder's from the last of them |
| Outage.ExtendedPausedIff | internal/streaming/animegg.go:163-190 | over every trace, ordered or not, the extend-only design pauses exactly while some sick resolve since the last healthy one is less than its pause ago |
| Outage.DesignsAgree | internal/streaming/animegg.go:163-190 | on every trace with non-decreasing times the two designs have the same strikes and pauses |
| Outage.DesignsNeedOrderedTime | internal/streaming/animegg.go:186-188 | with a clock that steps back they differ |
| Cooldown.AnimeXThrottle.SetCooldown | internal/streaming/animex.go:906-927 | a 429 in an open window keeps the rung, one after it climbs; the window never shrinks |
| Cooldown.AnimeXThrottle.DecayThrottle | internal/streaming/animex.go:940-949 | a healthy answer steps down once, and the last step closes the window |
| Cooldown.AnimeXThrottle.ResetThrottle | internal/streaming/animex.go:930-935 | back to idle |
| Cooldown.WindowDoubles | internal/streaming/animex.go:913-922 | of two episodes in a row the second window is twice the first, at most 15 minutes, and as long as the first from the third rung on |
| Cooldown.StormHoldsBack | internal/streaming/animex.go:892-927 | after any 429s from idle with advice d, n of which came outside an open window, the ladder is at rung n and the provider is held back for min(d * 2^min(n-1, 2), 15 minutes) from the latest |
| Cooldown.HealthyAnswersStepDown | internal/streaming/animex.go:940-949 | n healthy answers in a row take n rungs off, and the last rung takes the window with it |
| Cooldown.ResetForgets | internal/streaming/animex.go:930-935 | a run after a reset goes on as from idle |
| Cooldown.WindowIsBounded | internal/streaming/animex.go:913-922 | at every moment of every run the window ends within four times the longest advice and within 15 minutes |
| Cooldown.WindowNeverShrinks | internal/streaming/animex.go:898-905 | in a run of 429s the end of the window never moves back |
| Cooldown.EpisodesAreSpaced | internal/streaming/animex.go:898-949 | however many 429s race in, and while healthy answers do not bring the ladder all the way down, new episodes are at least one window apart |
| Cooldown.EpisodesAndClears | internal/streaming/animex.go:898-949 | the same in every run, with one early episode for each window that a healthy answer or reset closed |
| Cooldown.EpisodeRate | internal/streaming/animex.go:898-949 | from idle, in every run: episodes less closed windows are at most one per d of time after the first, when every advice is at least d |
| Cooldown.NoClearsWhileThrottled | internal/streaming/animex.go:940-949 | while the ladder does not step all the way down no window is closed |
| Cooldown.StreakCountsEpisodes | internal/streaming/animex.go:910-912 | without healthy answers the streak counts episodes, not 429s |
| Cooldown.IdleMeansOpen | internal/streaming/animex.go:930-949 | at streak zero no window is open, over every run |
| RateLimit.RateLimiter.FindOldest | internal/api/middleware/ratelimit.go:85-95 | the scan finds a least recently seen visitor, for every map order |
| RateLimit.RateLimiter.Allow | internal/api/middleware/ratelimit.go:77-119 | the buckets and the answer after one request, on the heap of visitors |
| RateLimit.TakeConserves | internal/api/middleware/ratelimit.go:104-118 | one request spends at most what was there plus the refill |
| RateLimit.TokensConserved | internal/api/middleware/ratelimit.go:104-118 | over every request sequence, allowed plus left is at most initial plus refilled |
| RateLimit.RateSinceCreation | internal/api/middleware/ratelimit.go:101-118 | from creation at t0 at most max(1, burst) + rate * floor((t-t0)/interval) are allowed |
| RateLimit.RateInWindow | internal/api/middleware/ratelimit.go:104-118 | in any window of length T at most max(0, burst) + rate * (floor(T/interval) + 1) |
| RateLimit.RunIsOwnRequests | internal/api/middleware/ratelimit.go:52-119 | while a visitor stays, other traffic and cleanup leave its bucket alone |
| RateLimit.RunRateInWindow | internal/api/middleware/ratelimit.go:52-119 | the window bound for the running limiter from a state with the bucket in order |
| RateLimit.ReachableBuckets | internal/api/middleware/ratelimit.go:52-119 | in every reachable state every bucket is: at most burst tokens, no debt when burst is positive |
| RateLimit.EveryWindow | internal/api/middleware/ratelimit.go:52-119 | for every window of every run from the empty limiter and every burst, an IP whose visitor stays is allowed at most max(0, burst) + rate * (floor(T/interval) + 1) |
| RateLimit.IdleRefills | internal/api/middleware/ratelimit.go:104-112 | k whole idle intervals leave at least min(burst, tokens + k * rate) tokens |
| RateLimit.TokensSuffice | internal/api/middleware/ratelimit.go:104-118 | as many requests as there are tokens are all allowed, whenever they come |
| RateLimit.EveryIdleVisitorIsServed | internal/api/middleware/ratelimit.go:52-119 | in every run a visitor that stays and was idle for k whole intervals has its next min(burst, k * rate) requests allowed |
| RateLimit.PollingCostsNoTime | internal/api/middleware/ratelimit.go:104-118 | whatever requests came before, allowed or denied, one at least an interval after the last refill is allowed |
| RateLimit.NewVisitorIsServed | internal/api/middleware/ratelimit.go:52-119 | a new visitor that stays has its first burst requests allowed, whatever the other traffic |
| RateLimit.VisitorStays | internal/api/middleware/ratelimit.go:52-102 | a visitor is dropped by a cleanup only, or when the map is full and nobody in it was seen before it |
| RateLimit.RunRateSinceCreation | internal/api/middleware/ratelimit.go:52-119 | the creation bound for the running limiter |
| RateLimit.SizeKeptIff | internal/api/middleware/ratelimit.go:83-102 | a request keeps the map within maxVisitors, for every map order, if and only if it does not need room while the empty IP is among the oldest |
| RateLimit.MapGrowsWithoutBound | internal/api/middleware/ratelimit.go:83-102 | when the empty IP arrives first and new IPs follow one by one, n arrivals leave n visitors in every map order, whatever maxVisitors is |
| RateLimit.ArrivalsRun | internal/api/middleware/ratelimit.go:83-102 | such a run exists for every n |
| RateLimit.SizeBounded | internal/api/middleware/ratelimit.go:52-102 | over every run without requests from the empty IP the map stays within maxVisitors |
| ProxyCodec.DecodeInvertsEncode | internal/streaming/animex.go:1412-1436 | base64 decoding inverts encoding on all bytes, in the standard and the URL alphabet |
| ProxyCodec.SymbolsSpelled | internal/streaming/animex.go:1412-1436 | the two alphabets, character by character |
| ProxyCodec.SextetsSpellBytes | internal/streaming/animex.go:1412-1436 | four six-bit values are the bits of three bytes in order |
| ProxyCodec.XorInPlace | internal/streaming/animex.go:1407-1410 | the in-place loop XORs every byte with its key byte |
| ProxyCodec.XorTwice | internal/streaming/animex.go:1438-1441 | doing it twice restores the payload |
| ProxyCodec.MaskIsKeyStream | internal/streaming/animex.go:1407-1410 | masked and plain bytes differ by the key, repeated |
| ProxyCodec.EncodeAnimeXProxyURL | internal/streaming/animex.go:1398-1414 | the URL is the prefix and the encoded masked payload |
| ProxyCodec.DecodeAnimeXProxyURL | internal/streaming/animex.go:1418-1456 | splits off and unmasks any text's token; text without a mark or with a malformed token comes back unchanged |
| ProxyCodec.NoMarkNoProxyURL | internal/streaming/animex.go:1419-1422 | a text without the mark comes back as it is |
| ProxyCodec.DecodedAtFirstMark | internal/streaming/animex.go:1418-1456 | the token is what follows the first mark, in any text; one that does not decode leaves the text as it is |
| ProxyCodec.ForeignTokenIsRefused | internal/streaming/animex.go:1424-1436 | a token with a character outside both alphabets, padding and line breaks does not decode |
| ProxyCodec.LoneSymbolIsRefused | internal/streaming/animex.go:1424-1436 | nor does one whose symbols are one more than a multiple of four |
| ProxyCodec.LineBreaksAreSkipped | internal/streaming/animex.go:1424-1436 | a line break changes nothing for either decoder, wherever it stands |
| ProxyCodec.MarkAfterPrefix | internal/streaming/animex.go:1419-1424 | the token of an encoded URL is found right after the prefix |
| ProxyCodec.RoundTripIff | internal/streaming/animex.go:1398-1456 | decoding an encoded triple gives it back if and only if its three parts have no NUL |
| ProxyCodec.TokenDecodes | internal/streaming/animex.go:1424-1436 | a payload written in either base64 alphabet, padded or not, is decoded, by the first try or the second |
| ProxyCodec.EveryTokenFormDecodes | internal/streaming/animex.go:1418-1456 | so a proxy URL decodes to its triple whichever form its token has |
| Dice.CountBigrams | internal/streaming/animegg.go:366-369 | the map counts the bigrams |
| Dice.BigramsAreWindows | internal/streaming/animegg.go:366-369 | the bigrams are the windows of two characters at every position |
| Dice.CountDown | internal/streaming/animegg.go:370-376 | one step of the decrementing loop is one step of a multiset intersection |
| Dice.Hits | internal/streaming/animegg.go:370-376 | the loop's hits are the size of the intersection of the bigram multisets |
| Dice.AnimeggDice | internal/streaming/animegg.go:358-378 | the score is twice the shared bigrams over all bigrams, with the edge cases of short titles |
| Dice.ScoreCountsDifferences | internal/streaming/animegg.go:358-378 | what the score falls short of 1 is the share of the bigrams that only one of the names has |
| Dice.ScoreLaws | internal/streaming/animegg.go:358-378 | the score is symmetric, within [0,1], and exactly when it is 1 |

## Left out

- HTTP, TLS, cookies, HTML, JSON and regular expressions: their results are inputs, and a saved snapshot's JSON is taken to keep its values.
- EpisodeExtension.MapRequested: pointers into the growing slice of mappings are values here; that the range maps are objects is kept, since those were once shared.
- TransportStreamCapture.AudioLangsOfCapture: when a table is not read, what the reader makes of the bytes it has is not described further; transport_error_indicator, scrambling, continuity counters and CRCs, which the reader ignores, carry no meaning here either.
- TransportStream.TsAudioLangs: the language-code normalizer is a parameter, and the laws hold for every one.
- DirectSlots.DirectSeasons: the library sort is an insertion by number; the order of equal numbers, which the library leaves open, is fixed.
- DirectSlots.PickDirectSeason: the season markers found in titles by regular expression are an input.
- LoaderCache.StepKeepsInv: an evicting call may delete any entries at any time, which covers EvictPass on whatever it ranged over; since other calls store meanwhile, the capacity of 5000 is claimed of that pass only. A waiter is not promised a value: an entry can be evicted or expire before it looks.
- LoaderCache.ReachableStates: the two sync.Maps are values changed by atomic steps, not objects; a loader's panic is a failing loader.
- FanOut.ProviderSlotsReachTheClient: the stages between the pools and storeList (downloads, subtitles, sort) are any change that keeps the slots; the collectors, their deadlines and the goroutines' scheduling are reduced to the order of their stabilizeProvider calls.
- Stability.StabilityCache.StoreList: lists are values here; sharing is the subject of ServerClone, where merging and expiry in turn do not occur.
- ServerClone.CloneServers: slices are arrays, without spare capacity; empty download and subtitle lists come back nil as in the source, and the value does not tell the two apart.
- Flights.ReachableFlights: a request's key and its wait are modelled; the fan-out that computes the list is any list.
- Jwks.ReachableStates: key parsing is an input; the fetch of the background refresh, which holds the lock, is one step with its installation.
- RateLimit.RunIsOwnRequests: cleanup may delete any visitors at any time, and durations are not bounded to int64.
- RangeText.WrittenMapMeans: a map with unreadable keys or list items, or with a ratio that is no plain number, is outside the notation; the code skips them, as EpisodeRanges.MapEpisodeNumber states.
- Cooldown.AnimeXThrottle.SetCooldown: the advice is any integer; reading it from the response is left out.
- Dice.AnimeggDice: the score is a real, without float rounding; title normalisation happens before.
- SnapshotKeys.Save: the periodic saver, the file and its rename are left out.
- Stability bounds no slot's age: storing resets the time of the whole merged list.
- The circuit breaker, provider health, the fill limiter, the VOD cache, metrics, provider resolve chains and title heuristics: simple, repeats of the above, or long case lists over external data.
