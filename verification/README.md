# Verified model of the proxy rotation engine and its surroundings

A Dafny model of the parts of xray-knife whose behaviour spans many steps: the outbound rotation engine and the two
rotating chain modes, the subscription codec, CIDR arithmetic and the latency scan, the SSE hub, crash recovery of the
desktop's proxy settings, link deduplication, and the JSON cleaner. `dafny verify dfyconfig.toml` checks everything.

## How it is put together

| file | models |
|---|---|
| `Text.dfy`, `Base64.dfy`, `Subscription.dfy` | byte strings, white space, UTF-8 and lines; the four encodings of RFC 4648 and the first-success cascade; the subscription decoder |
| `Cidr.dfy`, `Scanning.dfy` | increment, mask, enumeration and size of networks; the latency scan with its progress count |
| `SseHub.dfy` | the SSE hub, its channels and its clients |
| `SysProxy.dfy` | the state file and the settings, one micro-step at a time |
| `JsonCleaner.dfy` | the removal of empty values |
| `Shuffling.dfy`, `Links.dfy`, `Results.dfy` | shuffles, exact and semantic deduplication, the order of test results |
| `History.dfy`, `Core.dfy` | what an engine does as a history of events, and the laws of every run; the foreign core, the clock and cancellation |
| `StrikeTable.dfy`, `Rotation.dfy`, `Chain.dfy` | the strike table against the history; rotation mode; chain selection, exit rotation and full rotation |

The engine keeps a ghost history of events: instances built, started and closed, verdicts, links struck, released and
entering service, health checks, and returns to the wait loop. `ListenersLawful` and `RotationLawful` state for every
event what must hold of the past it follows, so that a lawful history speaks about every moment of the run. The run
methods prove their histories lawful whatever the environment does: test verdicts, failing builds and starts, timers,
manual rotations, health ticks, drains and cancellation are arbitrary choices or scripts, shuffles are arbitrary
permutations, and time is a natural number that never runs backwards. A run is any finite number of rotations and health ticks.

## What turned out not to hold

* Strikes do not accumulate over test cycles: an entry below the limit has no expiry, and the filter pass drops it
  (pkg/proxy/service.go:1181). `History.StrikesHaveOneOrigin` and `History.BannedByOneSpell` state what does hold.
* With a pool of one link the blacklist has no effect: there is no candidate, so every filter pass finds all of them
  banned and empties the table (`History.OneLinkPool`).
* The saved desktop settings survive a crash only while Restore works: both recovery and shutdown remove the state file
  even when Restore failed (pkg/proxy/service.go:220-226 and 576-585), although pkg/proxy/sysproxy/sysproxy.go:69 says
  that the file is removed after a successful restore. A state file that cannot be read is overwritten by the next
  start in system mode. `SysProxy.FailedRestoreForgets` shows the loss;
  `SysProxy.Desktop.Start` and `SysProxy.Desktop.Stop` give the exact condition.
* Enumerating a /0 network never ends, because the increment wraps into it again (`Cidr.EnumerationEnds`), and the size
  of a network is wrong from 63 host bits on (`Cidr.SizeExact`).

## Model

| member | source | states |
|---|---|---|
| `History.AtMostOneListener` | pkg/proxy/service.go:1107-1120 | in every lawful history at most one listener is up, only what was built is up, and nothing is closed twice |
| `History.SafeAtEveryMoment` | pkg/proxy/service.go:1042-1145 | at every earlier moment of a lawful run: one listener at most, no double close; in the wait loop everything ever built is closed except the current instance, which runs exactly what is published |
| `History.LawfulAtEveryMoment` | pkg/proxy/service.go:1042-1145 | the strike laws of a run hold at every earlier moment of it |
| `History.StrikesHaveOneOrigin` | pkg/proxy/service.go:1181-1183 | all strikes standing against a link come from one examination, or are health strikes of one spell in service; those against the link in service are of its present spell |
| `History.BanIffStrikes` | pkg/proxy/service.go:524-538 | in every reachable state a ban is in place exactly when the strikes have reached the limit |
| `History.BannedByOneSpell` | pkg/proxy/service.go:1174-1194 | with a limit of two or more, every strike behind a ban is a health strike, all of one uninterrupted spell in service |
| `History.SentenceServed` | pkg/proxy/service.go:1174-1194 | the latest ban since the table was last emptied is still in the table, or has ended |
| `History.TestedHasServed` | pkg/proxy/service.go:1174-1220 | at any moment of a run, a link that is tested although the latest ban ever imposed on it has not ended was let go by an emptying of the table after that ban, at a moment when every pool link but the one in service was under an unended ban |
| `History.ForgottenByClearing` | pkg/proxy/service.go:1186-1189 | a ban that the table no longer knows was imposed before an emptying of the table |
| `History.ClearedWhenAllBanned` | pkg/proxy/service.go:1186-1189 | at any moment of a run, the table is emptied only while every pool link but the one in service is under an unended ban, with its strikes at the limit |
| `History.OneLinkPool` | pkg/proxy/service.go:1186-1189 | when the pool offers nothing besides the link in service, every filter pass empties the table and no strike outlives it |
| `History.VerdictsDiffer` | pkg/proxy/service.go:1220-1240 | at most one verdict per link and search, all of pool links |
| `History.EntersBest` | pkg/proxy/service.go:1247-1299 | at any moment of a run, what enters service passed in this search, is of the pool and not the outbound it replaces, and every usable verdict of the search ordered strictly before it failed to build or start; whatever failed its test carries a strike by then |
| `History.NothingFoundIsRight` | pkg/proxy/service.go:1261-1300 | at any moment of a run, a search that ends without a find has tested something, if the pool has a second link, and has seen every usable verdict fail to build or start |
| `History.EntersClean` | pkg/proxy/service.go:1296-1299 | at any moment of a run, a link entering service carries no strikes and no ban and was not in service before |
| `History.FilterLeavesServing` | pkg/proxy/service.go:1174-1194 | at any moment of a run, after a filter pass every link with strikes is the one in service or still serves its ban |
| `History.HealthStrikeEarned` | pkg/proxy/service.go:1075-1091 | at any moment of a run, a health strike directly follows exactly the threshold number of consecutive failed checks, all against the struck link, which is in service |
| `History.StartedWasChecked` | pkg/proxy/service.go:1595-1632 | at any moment of a run of a rotating chain mode, a chain that comes up has passed its check since the search for it began |
| `Core.Engine.Make` | pkg/proxy/service.go:1277-1282 | an instance is built with a fresh identity, or the failure is recorded; nothing is started |
| `Core.Engine.Start` | pkg/proxy/service.go:1290-1295 | the instance takes the free inbound port, or fails to |
| `Core.Engine.Close` | pkg/proxy/service.go:1118-1119 | an instance that is not closed yet is closed |
| `Core.HoldReleased` | pkg/proxy/service.go:1107-1120 | closing the current listener leaves only the pending instance unclosed |
| `Core.HoldGivenUp` | pkg/proxy/service.go:1290-1295 | closing the pending instance leaves exactly the current listener unclosed |
| `Rotation.Service.constructor` | pkg/proxy/service.go:513-519 | the pool is the deduplicated list and holds trimmed, non-blank, distinct links; a zero health threshold becomes the default |
| `StrikeTable.AddStrike` | pkg/proxy/service.go:524-538 | one more strike; a ban of the configured length starts exactly when the limit is reached and none is running |
| `StrikeTable.SoundStruck` | pkg/proxy/service.go:524-538 | the table with the strike added matches the history, and the strike is lawful |
| `StrikeTable.SoundReleased` | pkg/proxy/service.go:1181-1183 | dropping an entry that serves no ban is lawful and the table still matches |
| `StrikeTable.SoundCleared` | pkg/proxy/service.go:1186-1189 | emptying the table is lawful when every pool link but the one in service serves a ban |
| `StrikeTable.SoundFiltered` | pkg/proxy/service.go:1174-1194 | a filter pass leaves strikes only against the link in service and links that serve a ban, and some clean candidate unless the table was just emptied |
| `StrikeTable.SoundEnd` | pkg/proxy/service.go:1247-1300 | the best usable verdict may enter service, or the search may end, once everything that failed is struck |
| `StrikeTable.FilterNext` | pkg/proxy/service.go:1177-1185 | one turn of the filter loop keeps the link exactly when it serves no ban |
| `StrikeTable.FilterKeepsSome` | pkg/proxy/service.go:1190-1193 | after the loop the kept links are exactly the candidates without an entry, and the others serve a ban |
| `StrikeTable.FilterKeepsNone` | pkg/proxy/service.go:1186-1189 | the loop keeps nothing only when every candidate serves a ban |
| `Rotation.Service.RecordStrike` | pkg/proxy/service.go:524-538 | with blacklisting on and a link given, exactly one lawful strike is recorded and only its entry changes; otherwise nothing happens |
| `Rotation.Service.PutStrike` | pkg/proxy/service.go:528-537 | the entry has one more strike and the ban that the limit asks for |
| `Rotation.DropLink` | pkg/proxy/service.go:1164-1171 | exactly the link in service leaves the candidates |
| `Rotation.Service.FilterOne` | pkg/proxy/service.go:1177-1185 | a link is kept exactly when it serves no unexpired ban, and then its entry is gone |
| `Rotation.Service.FilterTurn` | pkg/proxy/service.go:1177-1185 | one turn of the loop |
| `Rotation.Service.FilterLinks` | pkg/proxy/service.go:1177-1185 | the kept links are exactly those that serve no unexpired ban, and exactly their entries are gone |
| `Rotation.Service.ClearTable` | pkg/proxy/service.go:1186-1189 | asks that every pool link but the one in service serves a ban, and empties the table |
| `Rotation.Service.FilterOrClear` | pkg/proxy/service.go:1174-1194 | the candidates that serve no ban, or all of them with an emptied table, exactly when all serve one; what is kept is what has no entry |
| `Rotation.Service.FilterPass` | pkg/proxy/service.go:1174-1194 | after the pass every surviving entry belongs to the link in service or to a link that still serves its ban |
| `Rotation.Service.ShuffledPool` | pkg/proxy/service.go:1157-1171 | the pool without the link in service, in any order |
| `Rotation.Service.Candidates` | pkg/proxy/service.go:1157-1194 | exactly the pool links other than the one in service that have no entry after the filter pass; not empty when the pool has two links |
| `Rotation.BatchSize` | pkg/proxy/service.go:1197-1209 | never more than there are candidates, never zero when there are some, and 10 to 200 or all of them when not configured |
| `Rotation.Service.ExamineNext` | pkg/proxy/service.go:1236 | one more link of the batch is tested, and its verdict is on record |
| `Rotation.Service.Examine` | pkg/proxy/service.go:1220-1240 | the results are exactly the verdicts of this search on record, one for each link of the batch, in order; the batch is cut short only by cancellation |
| `Rotation.Service.ExamineOne` | pkg/proxy/service.go:1236 | one test, with its verdict on record, of a pool link without strikes that is not in service and not yet tested in this search |
| `Rotation.Service.StrikeTest` | pkg/proxy/service.go:1257 | a strike after an examination is the first against its link and touches no other entry |
| `Rotation.Service.StrikeFailures` | pkg/proxy/service.go:1251-1259 | exactly the tested links that did not pass have an entry afterwards |
| `Rotation.Service.TestCandidates` | pkg/proxy/service.go:1197-1240 | as many candidates as the batch size says are tested, unless cancelled, and the results are the verdicts on record |
| `Rotation.Service.TestBatch` | pkg/proxy/service.go:1197-1259 | the verdicts on record in sorted order, entries exactly for those that failed; nothing happened to instances |
| `Rotation.BestInOrder` | pkg/proxy/service.go:1261-1300 | in sorted results, a usable one behind nothing but failures is the best of the verdicts |
| `Rotation.Service.ReleaseOld` | pkg/proxy/service.go:1107-1120 | the old listener is closed once and before the new one starts; with none, nothing happens |
| `Rotation.Service.BringUp` | pkg/proxy/service.go:1290-1299 | either the instance is the only listener and its link is the published outbound with no strikes, or it is closed and its link struck |
| `Rotation.Service.Enter` | pkg/proxy/service.go:1296-1299 | the best usable verdict is published, lawfully |
| `Rotation.Service.NotMade` | pkg/proxy/service.go:1277-1282 | what could not be built is struck; the listener and the outbound stay |
| `Rotation.Service.GiveUp` | pkg/proxy/service.go:1290-1295 | what did not start is closed and its link struck; the outbound in service and its failed checks are as before |
| `Rotation.Service.Attempt` | pkg/proxy/service.go:1276-1299 | one candidate: in service and published, or closed and struck with the old outbound still published |
| `Rotation.Service.TryOne` | pkg/proxy/service.go:1262-1300 | after each result that does not come up, every usable result so far failed and nothing else changed |
| `Rotation.Service.StartFirst` | pkg/proxy/service.go:1261-1300 | the first usable result that can be built and started is in service; otherwise all usable ones failed |
| `Rotation.Service.StartBest` | pkg/proxy/service.go:1261-1300 | after the tests, the best verdict that comes up is in service, or every usable verdict failed |
| `Rotation.Service.FindAndStart` | pkg/proxy/service.go:1151-1300 | what is found is, of all verdicts on record for this search, a usable one such that every strictly better usable one failed to build or start; it is of the pool, not the last one used, and carries no strikes; without a find every usable verdict failed unless cancelled, and the published outbound and the count of failed checks are as before |
| `Rotation.Service.HealthCheck` | pkg/proxy/service.go:414-437 | one check against the published outbound; a temporary instance is closed and never takes the port |
| `Rotation.Service.Probe` | pkg/proxy/service.go:430-436 | the temporary instance is closed; the listener, the outbound and the failed checks are as before |
| `Rotation.Service.Trip` | pkg/proxy/service.go:1085-1091 | the link in service is struck after exactly the threshold number of failed checks, and the run of failed checks starts over |
| `Rotation.Service.HealthTick` | pkg/proxy/service.go:1075-1091 | the counter equals the consecutive failed checks, all against the link in service, stays below the threshold, and calls for a rotation exactly at it |
| `Rotation.Service.Wait` | pkg/proxy/service.go:1060-1093 | one check for each tick until one trips the threshold; otherwise a rotation or the end as the environment says; the published outbound is the one started last and the counter stays below the threshold |
| `Rotation.Service.Rotate` | pkg/proxy/service.go:1099-1143 | exactly one search: a different link in service with a clean counter, or the published link and the counter kept, and then the search ended with every usable verdict failed, or the run is cancelled |
| `Rotation.Service.Loop` | pkg/proxy/service.go:1042-1144 | one search for each turn of the wait loop until the run is cancelled; the published outbound is the one started last |
| `Rotation.Service.Finish` | pkg/proxy/service.go:1007-1011 | the listener that is left is closed once |
| `Rotation.Service.Run` | pkg/proxy/service.go:1000-1145 | every run keeps the listener and strike laws; it ends by cancellation, or because its first search found nothing: then something was tested, if the pool has a second link, and every usable verdict failed; one search for each turn; at the end no listener is up, every instance ever built was closed exactly once, and the published outbound is the last started |
| `Shuffling.Shuffle` | pkg/proxy/chain.go:68-69 | any permutation may come out, and nothing else |
| `Chain.WalkedNext` | pkg/proxy/chain.go:72-88 | each step of the walk draws the position exactly when its link is non-blank and parses |
| `Chain.GoodCount` | pkg/proxy/chain.go:60-62 | a pool shorter than the chain cannot hold enough links that parse, so the early return loses nothing |
| `Chain.DrawnCount` | pkg/proxy/chain.go:71-92 | no more hops can be drawn than positions that parse, and a full walk draws them all |
| `Chain.SelectChain` | pkg/proxy/chain.go:56-95 | succeeds exactly when at least numHops >= 2 links of the pool are non-blank and parse, for every shuffle, and then gives exactly numHops hops from distinct positions |
| `Chain.DrawnIsChain` | pkg/proxy/chain.go:72-88 | on a deduplicated pool the hops are pairwise distinct pool links that parse |
| `Chain.Unused` | pkg/proxy/chain.go:114-121 | the candidates are exactly the non-blank trimmed pool links not in use |
| `Chain.SelectExit` | pkg/proxy/chain.go:99-146 | succeeds exactly when some unused pool link parses, and then keeps the fixed hops and appends such a link, different from them and from the excluded one |
| `Chain.NewExit` | pkg/proxy/chain.go:137-141 | a new exit keeps all hops pairwise distinct and was not in the old chain |
| `Chain.ExitsNext` | pkg/proxy/service.go:1638-1640 | one more chain with the same entry hops and another exit keeps the law of exit rotation |
| `Chain.NoSpareNoRotation` | pkg/proxy/service.go:1587-1592 | a pool with no more links that parse than hops never rotates: at most one chain ever comes up |
| `Chain.Service.constructor` | pkg/proxy/service.go:1480-1483 | the pool is deduplicated and a chain has at least two hops |
| `Chain.Service.Probe` | pkg/proxy/service.go:1595-1607 | a test instance is closed and never takes the inbound port; a failure is recorded exactly when the probe failed |
| `Chain.Service.Release` | pkg/proxy/service.go:1620-1630 | the old listener, if any, is closed once before the new one starts |
| `Chain.Service.Bind` | pkg/proxy/service.go:1632-1638 | the pending instance is the only listener, or it is closed |
| `Chain.Service.Switch` | pkg/proxy/service.go:1609-1645 | the new chain is up and published with the old listener closed before, or the published chain is as before and the new instance is closed |
| `Chain.Service.Replace` | pkg/proxy/service.go:1609-1649 | the new chain is up and published, or the rotation stalls because that chain failed and the old one stays published |
| `Chain.Service.Launch` | pkg/proxy/service.go:1507-1525 | the first chain is up and published, or nothing is and its instance is closed |
| `Chain.Service.Finish` | pkg/proxy/service.go:1513-1517 | the listener that is left is closed once |
| `Chain.Service.DrawProbed` | pkg/proxy/service.go:1486-1505 | with too few links that parse nothing happens; otherwise a chain of distinct pool links has a passed check on record, or is the next failure on record |
| `Chain.Service.HealthCheck` | pkg/proxy/service.go:1337-1360 | a check changes neither the listener nor the published chain |
| `Chain.Service.Wait` | pkg/proxy/service.go:1555-1577 | one check for each tick until one fails; otherwise a rotation or the end as the environment says; the published chain is the one started last |
| `Chain.Service.Cancel` | pkg/proxy/service.go:1558-1560 | the run is cancelled in the wait loop, with the published chain as it was |
| `Chain.Service.ChooseExit` | pkg/proxy/service.go:1587-1592 | a chain with the same entry hops and an exit new to it, exactly when there is a candidate |
| `Chain.Service.PickExit` | pkg/proxy/service.go:1587-1607 | such a chain with a passed check on record; without one there was no candidate or the chain failed |
| `Chain.Service.LaunchDrawn` | pkg/proxy/service.go:1486-1525 | the first chain is drawn, passes its check and is up, or too few links parse, or exactly one failure is on record |
| `Chain.Service.RotateExit` | pkg/proxy/service.go:1583-1649 | exactly one search: a success keeps the entry hops and takes an exit that was nowhere in the old chain; a stall keeps the chain, and then there was no candidate or the new chain failed in this search |
| `Chain.Service.ExitLoop` | pkg/proxy/service.go:1546-1650 | the laws of exit rotation hold through any number of rotations |
| `Chain.Service.RunExitRotation` | pkg/proxy/service.go:1479-1651 | over every run: listener laws, nothing comes up without a passed check of its own search, length and entry hops never change, hops pairwise distinct, each exit differs from the one before, the published chain is the last started, one rotation for each turn, all instances closed exactly once; it fails to start only with too few links or one failure on record |
| `Chain.Service.FindWorkingChain` | pkg/proxy/service.go:1789-1815 | a chain found has the wanted number of distinct hops from the pool after fewer failures on record than attempts; without one the run is cancelled, too few links parse, or the failures on record are exactly as many fitting chains as attempts |
| `Chain.Service.RotateFull` | pkg/proxy/service.go:1735-1781 | the published chain is the last started; one that stalls keeps it, and then the run is cancelled, too few links parse, or one to all attempts failed on record |
| `Chain.Service.FullLoop` | pkg/proxy/service.go:1700-1782 | through any number of rotations the published chain is the last started and every chain is lawful |
| `Chain.Service.RunFullRotation` | pkg/proxy/service.go:1654-1783 | over every run: listener laws, nothing comes up without a passed check of its own search, every chain has the wanted number of distinct pool links, the published chain is the last started, one rotation for each turn, all instances closed exactly once; it fails to start only when cancelled, with too few links, or with failures on record |
| `Results.LessIsStrictWeakOrder` | pkg/http/httptester.go:59-75 | Less is irreflexive, transitive, and incomparability is transitive |
| `Results.LessPrefers` | pkg/http/httptester.go:59-75 | a shorter delay comes first and a failed test last, then the faster download, then the faster upload |
| `Results.Sort` | pkg/proxy/service.go:1247 | any sorted permutation of the results |
| `Results.LessStandsEarlier` | pkg/http/httptester.go:59-75 | in a sorted list whatever is strictly less stands earlier |
| `Links.Deduplicate` | pkg/http/httptester.go:244-258 | the first occurrence of each trimmed non-blank link, in order, and how many links are gone |
| `Links.SemanticDeduplicate` | pkg/http/httptester.go:262-283 | the first link of each key class, in order, and how many non-blank links are gone |
| `Links.UnparseableNeverMerge` | pkg/core/identity.go:66-67 | a link that does not parse shares its key only with itself |
| `Links.KeysTellConnections` | pkg/core/identity.go:66-67 | two links have one key exactly when they have the same digest or are the same text that does not parse |
| `Links.OneRepresentative` | pkg/http/httptester.go:262-283 | for every link exactly one link of the same connection is kept, the first in the list |
| `Links.SharedRepresentative` | pkg/http/httptester.go:262-283 | two links share a kept representative exactly when they are the same connection |
| `Links.FirstsPositions` | pkg/http/httptester.go:275-280 | exactly the links whose key no earlier one has are kept, in the order of the list |
| `Links.FirstsKeys` | pkg/http/httptester.go:275-280 | no key class is lost |
| `Links.FirstsMember` | pkg/http/httptester.go:275-280 | only links of the list are kept |
| `Links.FirstsDistinct` | pkg/http/httptester.go:275-280 | no two kept links share a key |
| `Links.KeptIsFirst` | pkg/http/httptester.go:275-280 | the first link of each class is kept |
| `Links.SemanticSubsumesExact` | cmd/http/http.go:321-335 | semantic after exact deduplication keeps the same links in the same order as semantic alone, and exact deduplication of its output changes nothing |
| `Links.DeduplicatedPool` | pkg/proxy/service.go:513-519 | a deduplicated pool holds trimmed, non-blank, pairwise distinct links |
| `Base64.GlueCut` | pkg/subscription/subscription.go:61-67 | gluing the 6-bit groups of any bytes gives the bytes back |
| `Base64.SymbolTable` | pkg/subscription/subscription.go:61-67 | the symbols are those of tables 1 and 2 of RFC 4648 |
| `Base64.GlueExact` | pkg/subscription/subscription.go:61-67 | sextets stand for given bytes exactly when they are their cut up to unused bits |
| `Base64.AcceptsExactly` | pkg/subscription/subscription.go:61-67 | a decoder accepts exactly the encodings, with any values in the unused bits, and returns the encoded bytes |
| `Base64.BreaksIgnored` | pkg/core/identity.go:124-131 | carriage returns and line feeds may stand anywhere |
| `Base64.AcceptedIsOriginal` | pkg/subscription/subscription.go:61-67 | any of the four decoders that accepts any of the four encodings returns the original bytes, and the matching one accepts |
| `Base64.DecodeEncoded` | pkg/subscription/subscription.go:61-67 | the same for the decoder that ignores line breaks |
| `Base64.CascadeRoundTrip` | pkg/core/identity.go:124-131 | for all bytes and each of the four encodings the first-success cascade returns exactly the original |
| `Base64.DecodeAny` | pkg/core/identity.go:124-131 | the loop computes the first success |
| `Text.TrimSpaceTrims` | pkg/subscription/subscription.go:77-78 | trimming leaves no Unicode white space at either end, keeps a middle segment, and fixes exactly the trimmed strings |
| `Text.TrimSpaceCuts` | pkg/subscription/subscription.go:77-78 | only white-space characters are cut off |
| `Text.TrimSpaceUnique` | pkg/subscription/subscription.go:77-78 | whatever trimmed text stands between white space comes out |
| `Text.SpacesAreUnicode` | pkg/subscription/subscription.go:77-78 | white space is what unicode.IsSpace says, at either end |
| `Text.CleanPositions` | pkg/http/httptester.go:247-251 | exactly the lines that are not blank are there, trimmed and in order |
| `Text.EncodedIsValid` | pkg/subscription/subscription.go:72-74 | the UTF-8 encoding of any scalar values is valid |
| `Text.ValidIsEncoded` | pkg/subscription/subscription.go:72-74 | every valid text is the encoding of scalar values |
| `Text.SplitJoin` | pkg/subscription/subscription.go:76 | splitting undoes joining for lines without line feeds |
| `Text.JoinSplit` | pkg/subscription/subscription.go:76 | joining undoes splitting for every text |
| `Subscription.ValidScheme` | pkg/subscription/subscription.go:97-108 | exactly the schemes of section 3.1 of RFC 3986 |
| `Subscription.CollectLines` | pkg/subscription/subscription.go:75-90 | the loop over the lines computes the specified collection |
| `Subscription.CollectExact` | pkg/subscription/subscription.go:76-89 | collecting succeeds exactly when all non-blank lines are links and fit the limit, and then returns all of them in order; too many links is reported exactly when those up to the first too many are links, an invalid format otherwise |
| `Subscription.Decode` | pkg/subscription/subscription.go:40-91 | the loops compute the specified decoding, with each error in its order |
| `Subscription.DecodePlain` | pkg/subscription/subscription.go:75-91 | every list of well-formed links within the limits, joined with newlines, decodes to itself |
| `Subscription.DecodeSpaced` | pkg/subscription/subscription.go:48-51 | white space around a printed list changes nothing |
| `Subscription.DecodeLines` | pkg/subscription/subscription.go:75-91 | any lines, blank or with white space around: the trimmed lines that are not blank, exactly when all of them are links and fit |
| `Subscription.DecodeOutcome` | pkg/subscription/subscription.go:41-51 | negative limits, a body too large, a blank body, and text that no decoder accepts |
| `Subscription.DefaultLimits` | pkg/subscription/subscription.go:112-123 | zero limits admit 64 MiB and 100000 links |
| `Subscription.MarkIgnored` | pkg/subscription/subscription.go:93-95 | a leading byte order mark is no part of the body |
| `Subscription.DecodeMarked` | pkg/subscription/subscription.go:48-51 | a leading byte order mark changes nothing as long as the body fits |
| `Subscription.SchemeCharacters` | pkg/subscription/subscription.go:103-110 | which characters schemes, separators and blanks are made of |
| `Subscription.BlanksIgnored` | pkg/subscription/subscription.go:54-59 | a blank may stand anywhere in the encoded text, and nothing else is taken out |
| `Subscription.NoSeparator` | pkg/subscription/subscription.go:52 | base64 text in blanks is never mistaken for plain text |
| `Subscription.DecodeWrapped` | pkg/subscription/subscription.go:52-91 | the same list in any of the four base64 forms with blanks and line breaks anywhere decodes to itself |
| `Subscription.DecodedIsPrintable` | pkg/subscription/subscription.go:40-91 | an accepted body yields well-formed links whose printed form fits the limits that admitted the body |
| `Subscription.DecodePrinted` | pkg/subscription/subscription.go:40-91 | printing a decoded list and decoding again under the same limits gives the same list |
| `Cidr.IncrementIP` | utils/ip.go:10-20 | in place, the address with one added |
| `Cidr.Inc` | pkg/scanner/scanner.go:706-713 | in place, the address with one added |
| `Cidr.NextModulo` | utils/ip.go:10-20 | both increments are +1 modulo 256^n |
| `Cidr.ValInjective` | utils/ip.go:30 | different addresses of one length stand for different numbers |
| `Cidr.MaskValue` | utils/ip.go:29 | clearing the host bits rounds the number down to a multiple of 2^hostBits |
| `Cidr.ContainsIsInterval` | utils/ip.go:29 | byte-wise membership is the interval of 2^hostBits numbers from the network number |
| `Cidr.AddressesExact` | utils/ip.go:22-33 | the enumeration holds exactly the members of the network, each once, consecutive and increasing, 2^hostBits of them |
| `Cidr.LeavesAfterLast` | utils/ip.go:29 | the loop test holds up to the last address and fails right after it, also when the network ends at all ones |
| `Cidr.EnumerationEnds` | utils/ip.go:29 | the loop ever ends exactly when the prefix length is at least 1 |
| `Cidr.ListAddresses` | utils/ip.go:22-33 | the loop lists exactly the addresses of the network, in order |
| `Cidr.SizeExact` | utils/ip.go:37-44 | the computed size is the number of addresses exactly when the host part has at most 62 bits |
| `Scanning.TotalIPs` | web/services.go:477-483 | for all parsable subnets, /0 included, the announced 64-bit total is the number of addresses exactly when that number fits 63 bits |
| `Scanning.SizeFits` | utils/ip.go:37-44 | a network of at most 2^63-1 addresses has its size computed right |
| `Scanning.ShuffledSubnets` | pkg/scanner/scanner.go:375-379 | shuffling the subnets does not change what is to be scanned |
| `Scanning.Scanner.Visit` | pkg/scanner/scanner.go:398-410 | a resumed address is notified at once, any other is submitted once |
| `Scanning.Scanner.VisitShuffled` | pkg/scanner/scanner.go:388-410 | every address of the network is visited exactly once |
| `Scanning.Scanner.VisitSequential` | pkg/scanner/scanner.go:411-439 | every address of the network is visited exactly once while it is enumerated |
| `Scanning.Scanner.VisitSubnet` | pkg/scanner/scanner.go:381-440 | a subnet that does not parse is skipped, any other is visited completely |
| `Scanning.Scanner.VisitAll` | pkg/scanner/scanner.go:381-440 | all parsable subnets are visited completely, and whether there was any is known |
| `Scanning.Scanner.Drain` | pkg/scanner/scanner.go:402-409 | every submitted address is scanned and notified once, in any order |
| `Scanning.Scanner.RunLatencyScan` | pkg/scanner/scanner.go:367-447 | an uncancelled scan notifies once per address of the parsable subnets, scans exactly those not in the resumed set, and its 32-bit counter agrees unless it overflows; it fails exactly when there is nothing to do |
| `SseHub.Hub.TrySend` | web/hub.go:58-62 | a non-blocking send: it panics exactly on a closed queue and drops exactly on a full one |
| `SseHub.Hub.CloseQueue` | web/hub.go:50 | a close panics exactly on a queue that is closed already |
| `SseHub.Hub.Broadcast` | web/hub.go:109-115 | a message is accepted exactly when the channel has room |
| `SseHub.Hub.Read` | web/server.go:270-277 | the client gets the oldest message of its queue |
| `SseHub.Hub.Register` | web/hub.go:41-44 | the new client's stream starts at the messages not yet taken |
| `SseHub.Hub.Unregister` | web/hub.go:46-52 | the client leaves, on record as having asked to, and its queue is closed once; an unknown client changes nothing |
| `SseHub.Hub.Remove` | web/hub.go:69-74 | a client whose queue was full leaves and its queue is closed once |
| `SseHub.AccountSent` | web/hub.go:58-59 | the message in hand extends the stream of a late client whose queue has room |
| `SseHub.AccountFull` | web/hub.go:60-61 | a full queue holds exactly 256 messages that the client has not read |
| `SseHub.Hub.Offer` | web/hub.go:57-62 | the client gets the message in hand exactly when its queue has room |
| `SseHub.Hub.OfferNext` | web/hub.go:57-62 | after any reads and broadcasts one client is given the message exactly when fewer than 256 are unread, and is stale exactly when 256 are |
| `SseHub.Hub.OfferAll` | web/hub.go:55-64 | each client got the message, or a message found its queue full during this broadcast and it is stale |
| `SseHub.Hub.DropStale` | web/hub.go:67-76 | exactly the stale clients leave, each queue closed once |
| `SseHub.Hub.Pump` | web/hub.go:54-76 | one message is taken; every client still registered got it, and whoever left had a full queue during this broadcast |
| `SseHub.StreamIsSegment` | web/hub.go:38-79 | what a client received is a gap-free segment of the accepted sequence from its registration on |
| `SseHub.Hub.Interfere` | web/server.go:270-277 | any reads and broadcasts by others keep everything that holds of the streams |
| `SseHub.Hub.Choose` | web/hub.go:40-77 | each choice of the select does exactly its own: a new client, a client less, or one message taken |
| `SseHub.Hub.Turn` | web/hub.go:39-77 | the same after any reads and broadcasts; where a stream starts and who has left never changes |
| `SseHub.Hub.Run` | web/hub.go:38-79 | over every interleaving no send on or second close of a closed queue; every client's stream is such a segment; whoever is registered was given everything taken since; whoever is not has asked to leave, or 256 unread messages were in its queue |
| `SysProxy.Desktop.SaveState` | pkg/proxy/sysproxy/sysproxy.go:37-47 | the file holds the settings when the write completed, is garbled when it broke off, and stays as it was when it could not be opened |
| `SysProxy.Desktop.ClearState` | pkg/proxy/sysproxy/sysproxy.go:70-80 | the file is gone when it can be removed |
| `SysProxy.Desktop.Restore` | pkg/proxy/service.go:222-224 | the saved settings are in force when Restore works and the process lives |
| `SysProxy.Desktop.Recover` | pkg/proxy/service.go:220-226 | a completed recovery that can read the file and has a working Restore puts the user's settings back; the settings are lost exactly when the file is removed without a successful Restore; an unreadable file is left alone |
| `SysProxy.Desktop.TakeOver` | pkg/proxy/service.go:341-360 | the settings in force are on disk before they are replaced, for a crash at any step |
| `SysProxy.Desktop.Start` | pkg/proxy/service.go:220-360 | a start in any mode, dying at any step, keeps the user's settings safe exactly unless StartForgets holds of the state before it; a start that does not run in system mode leaves the settings as recovery left them |
| `SysProxy.Desktop.Stop` | pkg/proxy/service.go:576-585 | the settings and the file afterwards, exactly; safe exactly unless Restore fails and the file is removed |
| `SysProxy.Desktop.Run` | pkg/proxy/service.go:220-226 | over every sequence of starts, stops and deaths at any step in which no session may forget (a condition on its mode and on how the system answers), the user's settings are in force or in the file |
| `SysProxy.Desktop.RunThenRecover` | pkg/proxy/service.go:220-226 | after any such sequence a completed recovery restores the user's settings |
| `SysProxy.FailedRestoreForgets` | pkg/proxy/service.go:220-226 | a concrete run in which a failed Restore loses the user's settings for good |
| `JsonCleaner.RemoveEmptyValues` | cmd/parse/parse.go:35-111 | the loops compute the specified cleaning, map keys in any order |
| `JsonCleaner.CleanIsClean` | cmd/parse/parse.go:35-111 | no empty value remains at any depth |
| `JsonCleaner.CleanIdempotent` | cmd/parse/parse.go:35-111 | cleaning is idempotent and leaves a tree alone exactly when it holds no empty value |
| `JsonCleaner.CleanKeepsLeaves` | cmd/parse/parse.go:35-111 | every non-empty leaf survives under its key path and in its order, and none is added |
| `JsonCleaner.CleanPrunes` | cmd/parse/parse.go:35-111 | what remains is the tree with items and fields dropped that hold no non-empty leaf: leaves the same, arrays stay arrays in order, objects stay objects |
| `JsonCleaner.PrunedIsClean` | cmd/parse/parse.go:35-111 | any such pruning without empty values is what cleaning gives |
| `JsonCleaner.CleanIsThePruning` | cmd/parse/parse.go:35-111 | cleaning gives the one pruning of the tree that holds no empty value |
| `JsonCleaner.NothingRemains` | cmd/parse/parse.go:35-111 | nothing remains exactly when the tree has no non-empty leaf |

## Left out

- The foreign cores, URL parsing and SHA-256: parsing is an arbitrary function of the link, the fingerprint an arbitrary digest, instances are identities that are built, started and closed.
- The examiner, pre-scan and speed tests: their verdicts are arbitrary. That the examiner closes its own test instances is not modelled.
- Durations: timers, back-off and the drain dwell are only points where something may happen or the run may be cancelled.
- runSingleMode, fixed chains and chains without rotation, app mode and host-tun mode.
- Cidr.ListAddresses: asks for a prefix length of at least 1, because the source never returns on a /0 network.
- Scanning.Scanner.RunLatencyScan: covers uncancelled scans over networks of prefix length at least 1.
- Parsing and rendering of IP text, and IPv4-mapped IPv6 networks (for which Contains converts the address): a network is its address bytes and prefix length, and rendering is taken as injective.
- Text encoding of links: links are byte strings; in Subscription.StripBlanks an invalid byte stays as it is where the source writes the replacement character, which no base64 alphabet holds either.
- Results.LessIsStrictWeakOrder: speeds are real numbers, so NaN is not covered.
- SysProxy.Desktop.Run: asks that no session may forget, because the source loses the settings otherwise; one process at a time, Set and Restore take effect at once or leave the settings as they were, and the user changes nothing in between.
- JsonCleaner.RemoveEmptyValues: covers the kinds that decoded JSON has; pointers and fixed-width integers are not covered, and numbers are reals.
- SseHub.Hub.Run: every client registers once, as the handler does; the locks of the hub are not modelled, since only its own goroutine touches the client set.
- The order in which concurrent examinations finish: results are collected in batch order and then sorted from an arbitrary permutation.
- The lifecycle of the web runners, the database, CSV and TXT files, authentication, command-line flags, logging and the frontend.
