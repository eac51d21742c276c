# dns-edge: a verified model

dns-edge is an authoritative DNS server. It answers from an in-memory, copy-on-write zone store that follows two PostgreSQL
tables. This project models the parts of it whose correctness is not visible in any one function, in Dafny 4.11, and proves
what they promise. `dafny verify dfyconfig.toml` checks all of it.

| part | files | main results |
|---|---|---|
| Replication | `Database`, `Changes`, `Replication`, `ReplicationProof`, `ReplicationTheorems`, `ReplicationStuck`, `ReplicationLimits`, `ReplicationClock`, `PullEndToEnd` | an inductive invariant over every run of any number of instances; quiescent convergence; a completing pull always exists; order independence and replay; both loaders from table rows to the heap store; exact limits, in every phase, with concrete divergences |
| Zone store | `Records`, `Names`, `ZoneSpec`, `ZoneStore` | heap-level snapshot isolation; refinement to the set of (apex, record) pairs; the label walk finds the longest apex |
| Loaders | `Loader` | the pull loop and the bulk load against their specifications; bulk equals incremental; the exact condition under which the two read a row alike |
| Sync loop | `TokenBucket`, `SyncLoop` | closed form and greedy exactness of the rate limiter; windows tile time; trigger accounting |
| Queries | `Query`, `Transfer`, `Weights` | total and exclusive response classification; zone transfers under concurrent writes and a failing connection; exactly proportional choice; when fallback weights are transparent |
| Configuration | `Lexer`, `Decimal`, `Corefile`, `CorefileGrammar`, `Printer` | a lossless lexer; a parser that accepts exactly a grammar and ignores what follows; a round trip, and exactly which configurations the format can express |

Objects that the program updates in place are classes (`RWMutexStore`, `ZoneMap`, `Zone`, `RecordMap`, `Bucket`, `PGSyncer`,
`NacosProvider`, `Msg`, `Conn`, `Parser`); their methods are proved against functions on values, and the laws are lemmas about
those functions. The replication protocol is a step system.

## Assumptions of the replication results

They are written into the step system (`Replication.Enabled`, `Database.Tame`, `Database.FreshIdOk`), because the program does
not converge without them. `ReplicationLimits` and `ReplicationClock` drop them one at a time and prove when that does no
harm, and `ReplicationStuck` what harm is: any stamp (`StampExactly`, and for whole runs `InvOutOfOrder`), memory writes that
come late (`LateUpsertExactly`, `LateTombstoneExactly`, `LateZoneGoneHarmless`, `ResetExactly`), writes that race a zone
deletion (`OrphanExactly`), records that move (`MoveExactly`, `MoveServedExactly`), POST of a live domain
(`PostLiveDomainExactly`) and rows the loader skips (`SkippedStaysExactly`).

- One clock. A commit is stamped strictly later than every earlier clock reading, and stamping and commit are one event, so
  a query sees every commit stamped up to its start.
- A request that writes to the serving instance's memory makes its zone check, its commit and that write in one step. Requests
  that only commit, with the zone check at any earlier time and the zone deleted since, and pulls that fail at any point, are
  included; the memory write of a request that raced is judged by `OrphanExactly` and `LateTombstoneExactly`.
- A PUT keeps name and type; a POST of a domain does not name a live one.
- Rows are fully qualified and parse, as the API checks before it commits. `Loader` handles all rows.

## Where the code and its comments or its own intent differ

- `internal/pg/zone.go:55` says a zone's soft delete cascades to its records. Only the zone row is stamped
  (`internal/pg/zone.go:58-59`, and no trigger in `migrations/001_init.sql` touches records). The model follows the code;
  convergence holds because both queries look at the zone.
- `internal/pg/record.go:20` names the partial unique index as a constraint in `ON CONFLICT ON CONSTRAINT`. The model follows the
  behaviour described at `internal/pg/record.go:44-47`.
- The bulk load parses the ttl as it stands, the pull after conversion to 32 bits (`internal/pg/load.go:69`,
  `internal/pg/sync.go:99`), so a negative ttl is skipped by one and loaded by the other: `Loader.LoadersAgreeExactly`.
- POST of a live domain empties it in memory. The next pull refills only the rows stamped after `lastAt`, and the rest stay
  away: `ReplicationLimits.PostLiveDomainExactly`, `ReplicationStuck.StuckForever`.
- A record inserted while its zone is being deleted stays in memory once the deletion is no longer after `lastAt`:
  `ReplicationLimits.OrphanStaysExactly`.

## Model

| member | source | states |
|---|---|---|
| ReplicationTheorems.AgreeDirtyOrPending | internal/pg/sync.go:40-128 | In every state of every run, for every serving instance and record id: memory agrees with the tables, or the row or its zone's deletion is stamped after `lastAt`; and during a pull, or it is stamped after the pull's start, or the pull still has it to query or apply |
| ReplicationTheorems.QuiescentConvergence | internal/syncer/syncer.go:92-113 | Whatever failed before, an idle instance with nothing stamped after its `lastAt` holds exactly the live rows of live zones, each once and under its own key |
| ReplicationTheorems.SuccessfulPull | internal/syncer/syncer.go:96-113 | When a pull succeeds, every id not dirty since the pull's start agrees, whatever is committed meanwhile |
| ReplicationTheorems.ReadYourWrites | internal/api/record.go:97-105 | The serving instance agrees at once on every id a request covers, even in the middle of a pull |
| ReplicationTheorems.ServedCurrent | internal/api/record.go:155-171 | The change a request writes to memory is the present version of the row in the tables it just committed |
| ReplicationTheorems.DeleteReaches | internal/api/record.go:196-205 | In every run: after a DELETE, wherever committed, and until its row is written again, no instance that has since completed a pull holds any version of the record |
| ReplicationTheorems.PutReaches | internal/api/record.go:155-171 | In every run: after a PUT, in the same circumstances, every such instance holds the record with the request's fields and no other version |
| ReplicationTheorems.PostReaches | internal/api/record.go:97-105 | The same for a POST, under the fresh id |
| ReplicationTheorems.RequestsPossible | internal/api/record.go:62-208 | Every request but POST of a live domain and PUT that changes the key can be served or committed in every state, at any later time |
| ReplicationTheorems.InstanceFree | internal/syncer/syncer.go:86-114 | An instance can go down in any phase, come up, begin a pull when it has none, and fail it at any point |
| ReplicationTheorems.EventualConsistency | internal/syncer/syncer.go:86-114 | From every reachable state a serving instance has pull steps of its own that end in exact agreement with unchanged tables |
| ReplicationTheorems.Drain | internal/pg/sync.go:71-115 | Whatever rows a pull has fetched, they can all be applied, one at a time |
| ReplicationTheorems.DistinctValues | migrations/001_init.sql:44-47 | The unique index reaches the replicas: a converged instance has distinct values in every rrset |
| ReplicationTheorems.PullIsOrderly | internal/pg/sync.go:14-31 | What a pull fetches, the zones as the first query sees the tables and the records as the second one later does, has one version per id, agrees on keys with memory and has no row of a removed zone, so the order results apply to it |
| ReplicationTheorems.PullAlwaysOrderly | internal/pg/sync.go:40-71 | In every run, with any steps of anyone between the two queries, the rows a pull fetches are orderly for the memory it began with, so the loader's outcome is unique |
| ReplicationTheorems.PullAppliesRows | internal/pg/sync.go:48-115 | The protocol's apply steps, for the rows of either query in any order, take memory where the loader takes its store |
| ReplicationTheorems.PullAppliesAll | internal/pg/sync.go:40-115 | The whole pull as protocol steps: both queries, all their rows in any order, and the new `lastAt`, with any steps of others between its halves |
| ReplicationTheorems.RunGrows | internal/pg/zone.go:16-34 | Along every run rows keep their zone and key and a deleted zone stays deleted |
| PullEndToEnd.Pull | internal/pg/sync.go:40-128 | The pull on the heap store, fed the rows of the tables at the instants of its two queries: whatever is committed between them, wherever they break off and whatever rows the loader skips, every id agrees or is dirty since `lastAt`; when both end well, since the pull's start but for skipped rows, about which memory is as before; and if none was skipped and nothing is dirty since then, the store is exactly the live rows |
| PullEndToEnd.Load | internal/pg/load.go:35-114 | The bulk load on the rows of the tables, into an empty store: it agrees with them on every id but those of skipped rows, and then satisfies the invariant with any `since` read before; a failed query leaves the store empty |
| PullEndToEnd.BulkAgrees | internal/pg/load.go:46-97 | The same on values |
| PullEndToEnd.PullSettles | internal/pg/sync.go:40-115 | The pull on values: each query's changes in any order, repeated or in part; what is left wrong since the start is exactly among the rows returned and not applied |
| PullEndToEnd.ZonesDelivered | internal/pg/sync.go:14-17 | The delivered zone rows make changes of the zone query, and all of them when it ended well |
| PullEndToEnd.RecordsDelivered | internal/pg/sync.go:19-31 | The delivered record rows make only changes of the record query, and none for the rows the loader skips |
| PullEndToEnd.RecordsArrive | internal/pg/sync.go:19-31 | And all of them when it ended well |
| ReplicationProof.CommitInst | internal/pg/sync.go:19-31 | No commit anywhere breaks an instance's part of the invariant, whatever phase its pull is in |
| ReplicationProof.ApplyHarmless | internal/store/rwmutex.go:125-215 | A fetched or served change settles what it covers, unless that is dirty, and leaves every other id's agreement alone |
| ReplicationProof.HarmlessInst | internal/api/record.go:167-171 | A memory write by a request keeps the invariant even while a pull has fetched but unapplied rows |
| ReplicationProof.ZonesQueried | internal/pg/sync.go:14-17 | After the zone query every disagreement is dirty since the pull's start, awaits a fetched zone deletion, or will be returned by the record query |
| ReplicationProof.ZoneApplied | internal/pg/sync.go:48-59 | Applying one zone deletion keeps that |
| ReplicationProof.RecordsQueried | internal/pg/sync.go:19-31 | After the second, separate query every disagreement is dirty since the pull's start or has its present version fetched |
| ReplicationProof.RecordApplied | internal/pg/sync.go:71-112 | Applying one fetched row, possibly overtaken by a newer commit, keeps that |
| ReplicationProof.LoadAgrees | internal/pg/load.go:14-28 | A bulk load agrees with the tables its query saw on every id |
| ReplicationProof.InvStep | internal/syncer/syncer.go:86-114 | Every step of every instance, and every commit, keeps the invariant of all instances |
| ReplicationProof.InvAlways | internal/syncer/syncer.go:70-114 | The invariant holds in every state of every run |
| ReplicationLimits.OneVersionExactly | internal/store/rwmutex.go:141-160 | Writing a version of an id leaves it the only one in the zone if and only if no copy is filed under another key |
| ReplicationLimits.MoveExactly | internal/pg/record.go:27-31 | A PUT elsewhere that changes name or type keeps the invariant of an instance, in any serving phase, if and only if no version of the row is in its memory or among its fetched rows |
| ReplicationLimits.MoveServedExactly | internal/api/record.go:155-171 | The same condition decides for the instance that serves the move and writes the new version to memory |
| ReplicationLimits.LeftBehindForever | internal/store/rwmutex.go:141-160 | The old copy of a moved record survives any number of pulls |
| ReplicationLimits.MovedDiverges | internal/api/record.go:155-171 | A concrete served move that leaves the old copy |
| ReplicationLimits.PutMoves | internal/pg/record.go:27-31 | Every accepted PUT with another name or type is such a move |
| ReplicationLimits.MovedRecordStays | internal/store/rwmutex.go:141-154 | A pull of a record moved to another key leaves both versions in memory |
| ReplicationStuck.InstOkExactly | internal/syncer/syncer.go:86-114 | In every serving phase the invariant says: each id agrees or is still going to be repaired |
| ReplicationStuck.StuckForever | internal/syncer/syncer.go:86-114 | An id that disagrees and is not dirty stays wrong in every run, whatever anybody pulls or requests, until a step writes its row or its zone or takes the instance down |
| ReplicationStuck.DoomedUntilDone | internal/syncer/syncer.go:92-113 | An id that is not going to be repaired by the pull in progress stays wrong in every such run in which that pull does not fail, and is stuck once it has completed |
| ReplicationStuck.BrokenIsDoomed | internal/syncer/syncer.go:86-114 | An instance outside the invariant in any serving phase, with its frame intact, has such an id, so the conditions below mark permanent divergence |
| ReplicationStuck.FetchedAlways | internal/pg/sync.go:17-31 | In every run what a pull has fetched is about rows and zones stamped after `lastAt`, which that conclusion needs |
| ReplicationLimits.LateUpsertExactly | internal/api/record.go:155-171 | A handler's late memory write, in any phase of the instance, keeps the invariant if and only if its version is still the live one or the row is still going to be repaired by that phase |
| ReplicationLimits.LateUpsertDooms | internal/api/record.go:155-171 | In every run a late write that breaks the invariant dooms its id |
| ReplicationLimits.LateTombstoneExactly | internal/api/record.go:196-205 | A late drop keeps it if and only if the row is not live again or is still going to be repaired |
| ReplicationLimits.LateZoneGoneHarmless | internal/api/zone.go:68-78 | In every run a late removal of a deleted zone from memory is harmless, however late |
| ReplicationLimits.ResetExactly | internal/api/zone.go:51-55 | An empty zone put into memory, by a stalled or a repeated POST, in any phase, keeps the invariant if and only if every live row of the domain is still going to be repaired |
| ReplicationLimits.StalledPutDiverges | internal/api/record.go:155-171 | A concrete stalled PUT leaves an id stuck |
| ReplicationLimits.MidPullDiverges | internal/api/record.go:155-171 | A concrete late write in the middle of a pull: the row is dirty since `lastAt`, yet the pull's success leaves it stuck |
| ReplicationLimits.StalledDeleteDiverges | internal/pg/record.go:27-31 | A concrete stalled DELETE, overtaken by a PUT that revives the row, leaves it stuck |
| ReplicationLimits.PostLiveDomainExactly | internal/api/zone.go:45-55 | POST of a live domain leaves the tables alone and keeps the invariant, in any phase, if and only if every live row of the domain is still going to be repaired |
| ReplicationLimits.PostDomainDiverges | internal/api/zone.go:51-55 | A concrete POST, repeated or stalled, empties a zone that no pull refills |
| ReplicationLimits.OrphanExactly | internal/api/record.go:86-105 | A record committed and written to memory under a zone deleted since the zone check, in any phase, is harmless if and only if the deletion is still going to be pulled by that phase |
| ReplicationLimits.OrphanStaysExactly | internal/pg/sync.go:28-31 | Through a whole pull, its two queries at two instants, such a record stays if and only if the deletion is not stamped after `lastAt` |
| ReplicationLimits.OrphanDiverges | internal/api/record.go:86-105 | A concrete insert racing a zone deletion is stuck in memory |
| ReplicationLimits.SkippedStaysExactly | internal/pg/sync.go:91-104 | Through a whole pull, its two queries at two instants, a skipped row leaves memory as it was about its id, so the pull makes it agree if and only if it agreed before |
| ReplicationClock.StampExactly | internal/pg/sync.go:14-31 | A request committed elsewhere with any stamp at all, its zone live or not, keeps the invariant of an instance, in any phase, if and only if what it changes is in time: stamped after `lastAt`, or after the pull's start once the query that would return it has run, or nothing in memory or in the fetched rows contradicts it |
| ReplicationClock.StampInvExactly | internal/pg/sync.go:14-31 | The whole invariant survives such a commit if and only if it is in time for every instance |
| ReplicationClock.InvOutOfOrder | internal/syncer/syncer.go:70-114 | The invariant holds in every run in which commits may be stamped out of order, each in time for every instance |
| ReplicationClock.OutOfOrderConvergence | internal/syncer/syncer.go:92-113 | And with it quiescent convergence |
| ReplicationClock.RowStampExactly | internal/pg/sync.go:30-31 | The same for one row written |
| ReplicationClock.ZoneStampExactly | internal/pg/sync.go:17 | The same for one zone deleted |
| ReplicationClock.ExecuteTarget | internal/pg/record.go:17-35 | Every commit changes nothing, one row, or one live zone |
| ReplicationClock.SameInstantDiverges | internal/pg/sync.go:30 | A concrete PUT stamped at the instant a pull began, but made after its queries, leaves the row stuck |
| Database.ExecuteWellformed | internal/pg/record.go:17-35 | Every commit, its zone live or not and its stamp in order or not, keeps the tables well formed: ids, zone references, stamps in the past |
| Database.ExecuteCommits | internal/pg/record.go:27-35 | Every commit, its zone live or not, stamps every row and zone it changes, keeps each row's zone and key, and never revives a zone |
| Database.ExecuteNoDuplicates | migrations/001_init.sql:44-47 | Every commit, moving ones included, keeps live rows distinct by zone, name, type and value |
| Database.ServeKeeps | internal/api/record.go:86-97 | So does a request that makes its zone check in the same step |
| Database.PostOutcome | internal/pg/record.go:17-25 | POST of a record leaves a live row with the request's own fields under the fresh id and nothing else changed, and writes that to memory; a live row of the same zone, name, type and value is returned as it is instead |
| Database.PutOutcome | internal/pg/record.go:27-31 | PUT leaves the row live with the request's own fields, deleted before or not, and nothing else changed; it does nothing when the row is not of the zone or another live row has the same data |
| Database.DeleteOutcome | internal/pg/record.go:33-35 | DELETE leaves a live row deleted with its record as it was and nothing else changed, and drops the id from memory; otherwise it does nothing |
| Database.DomainOutcome | internal/pg/zone.go:16-67 | POST of a domain makes a new live zone, DELETE deletes a live one; no record row changes; memory is reset, cleared or left accordingly |
| Database.ServeOutcome | internal/api/record.go:86-95 | A request on a record does nothing unless its zone is live |
| Changes.ApplySettles | internal/pg/sync.go:48-115 | Applying a pull's changes in sequence leaves exactly what the set of changes settles, stated on sets alone |
| Changes.ApplyZones | internal/pg/sync.go:48-115 | Which zones exist after a pull, and with which SOA |
| Changes.OrderIrrelevant | internal/pg/sync.go:14-31 | Two sequences with the same changes, whatever order or repetition, give the same store up to order within an rrset |
| Changes.ReplayAfterFailure | internal/syncer/syncer.go:100-104 | A pull that failed after any prefix and is replayed in full, in any order, ends where an undisturbed pull ends |
| ZoneStore.ReadAcrossWrites | internal/store/rwmutex.go:43-50 | After any sequence of in-place writes to the store's map, the zone found, the rrset looked up, the snapshot map and every zone in it still have the values they had when read |
| ZoneStore.ReadAll | internal/store/rwmutex.go:32-50 | The three reads return the closest zone, the closest zone's rrset and a fresh map of every zone |
| ZoneStore.RWMutexStore.PutRecord | internal/store/rwmutex.go:125-168 | The store becomes `Put` of its old value under a fresh zone; no object that existed is written but the store's own map |
| ZoneStore.RWMutexStore.WriteInto | internal/store/rwmutex.go:144-159 | A fresh array equal to the rrset with the record replaced by positive id or appended |
| ZoneStore.RWMutexStore.CopyMap | internal/store/rwmutex.go:135-139 | A fresh map with the same entries |
| ZoneStore.RWMutexStore.DropRecord | internal/store/rwmutex.go:172-215 | The first copy of the id in some rrset is cut, with its rrset if that empties, under a fresh zone; nothing changes when zone or id is absent |
| ZoneStore.RWMutexStore.FindId | internal/store/rwmutex.go:181-197 | Finds a position exactly when some rrset has the id, and the first one in its rrset |
| ZoneStore.RWMutexStore.CutMap | internal/store/rwmutex.go:199-211 | A fresh map with one position cut and an emptied rrset removed |
| ZoneStore.RWMutexStore.Update | internal/store/rwmutex.go:89-94 | Replaces or inserts one zone and nothing else |
| ZoneStore.RWMutexStore.Delete | internal/store/rwmutex.go:97-105 | Removes one zone, and reports whether it was there |
| ZoneStore.RWMutexStore.Snapshot | internal/store/rwmutex.go:108-116 | The copy loop ends with a fresh map, apart from the one that later writes change in place, of the same zone objects |
| ZoneStore.RWMutexStore.LockedFindZone | internal/store/rwmutex.go:73-86 | The loop ends with the zone of the closest apex, or nil if and only if no label suffix is an apex |
| ZoneStore.RWMutexStore.FindZone | internal/store/rwmutex.go:46-50 | Same, through the public entry |
| ZoneStore.RWMutexStore.Lookup | internal/store/rwmutex.go:32-41 | The rrset filed in the closest zone under exactly the name and type, or nothing; nothing when no zone covers the name |
| ZoneSpec.LookupExactly | internal/store/rwmutex.go:32-41 | A look-up gives that rrset and no other, stated without the walk |
| ZoneSpec.LookupFiled | internal/store/rwmutex.go:32-41 | On a filed store every record found has the name and type asked for |
| ZoneStore.RWMutexStore.NameExists | internal/store/rwmutex.go:55-69 | True if and only if the closest zone has an rrset at the name |
| Names.FindApexIsClosest | internal/store/rwmutex.go:73-86 | The walk returns the longest label-aligned suffix that is an apex, and nothing if and only if there is none |
| Names.FindApexExact | internal/store/rwmutex.go:73-86 | The walk returns an apex if and only if it is the closest, stated without the walk |
| Names.ClosestApexUnique | internal/store/rwmutex.go:73-86 | A name has at most one closest apex |
| Names.FindApexAdd | internal/store/rwmutex.go:73-86 | A new apex changes the walk's answer only for names it is closest to |
| Names.Fqdn | internal/iface/iface.go:13-18 | Ends in a dot, unchanged exactly when it did already, and never loses characters |
| ZoneSpec.PutThenLookup | internal/store/rwmutex.go:125-168 | A written record is found at its key if the written apex is the closest to its name; otherwise the look-up does not notice the write |
| ZoneSpec.PutHas | internal/store/rwmutex.go:125-168 | Refinement: with stable keys a write replaces the pair of that apex and id and nothing else |
| ZoneSpec.PurgeHas | internal/store/rwmutex.go:172-215 | Refinement: a drop removes the pair of that apex and id and nothing else |
| ZoneSpec.RemoveHas | internal/store/rwmutex.go:97-105 | Refinement: a zone removal takes exactly its own pairs |
| ZoneSpec.PutBag | internal/store/rwmutex.go:141-160 | With no assumption: one copy is added when the id is not in the target rrset, else one record with that id is exchanged |
| ZoneSpec.PutKeepsPlaces | internal/store/rwmutex.go:144-159 | A write takes the place of the first record with its positive id or goes to the end, and no other record moves |
| ZoneSpec.CutKeepsPlaces | internal/store/rwmutex.go:203-211 | A cut closes the gap and moves nothing else; an emptied rrset goes |
| ZoneSpec.DropBag | internal/store/rwmutex.go:181-211 | With no assumption: exactly one copy of one record with the id is removed, or nothing changes |
| ZoneSpec.DropsInIsPurge | internal/store/rwmutex.go:172-215 | On a good store dropping is deterministic although map iteration is not |
| ZoneSpec.PutGood | internal/store/rwmutex.go:125-168 | With stable keys a write keeps: no empty rrset, records filed under their key, positive ids unique |
| ZoneSpec.PurgeGood | internal/store/rwmutex.go:172-215 | A drop keeps the same |
| ZoneSpec.PutKeepsFiled | internal/store/rwmutex.go:125-168 | Without stable keys a write still keeps rrsets non-empty and filed |
| ZoneSpec.SameRecordsSameZone | internal/store/rwmutex.go:125-215 | On good zones the set of records determines the zone up to order within an rrset |
| Loader.IncrementalLoad | internal/pg/sync.go:40-128 | On any store and rows, the store is one that the delivered rows' calls, in order, can lead to, also when a query fails part way; it succeeds exactly when both queries do; every row is counted once, tombstones as deleted |
| Loader.OrderlyReaches | internal/pg/sync.go:48-115 | On an orderly pull that outcome is unique, whatever the map iteration inside a drop: it is `ApplyAll`, the form the order and replication results are about |
| Loader.PullShows | internal/pg/sync.go:82-109 | A live row becomes an upsert of exactly the record it shows, field by field; a deleted row only a tombstone of its id |
| Loader.ApplyZoneRows | internal/pg/sync.go:48-62 | The zone loop applies exactly the deletions |
| Loader.ApplyRow | internal/pg/sync.go:82-113 | One row makes its one call, or none, and is counted once |
| Loader.ApplyRecordRows | internal/pg/sync.go:71-117 | The record loop applies each row's change in turn, with its counters |
| Loader.LoadAll | internal/pg/load.go:35-114 | A complete load publishes the grouped zones over the old ones, a failed one publishes nothing, and loaded plus skipped is the row count |
| Loader.GroupRows | internal/pg/load.go:46-97 | The loop groups every valid row, in order, and counts loaded and skipped |
| Loader.PublishAll | internal/pg/load.go:102-106 | Each grouped zone is published, in any order, and no other is touched |
| Loader.GroupedExactly | internal/pg/load.go:46-97 | The grouped zones hold exactly the records the rows show, field by field: none lost, none invented, each in its row's zone |
| Loader.BulkIsIncremental | internal/pg/load.go:77-96 | With distinct ids, the grouped zones are exactly the store obtained by writing the valid rows one at a time, rrset order included |
| Loader.LoadersAgreeExactly | internal/pg/load.go:68-75 | On live rows the two loaders make the same writes if and only if no row that would otherwise load has a negative ttl |
| Loader.NegativeTtlSplits | internal/pg/sync.go:99-109 | A concrete row with ttl -1 is skipped at start-up and loaded with ttl 4294967295 by a pull |
| Loader.Wrap32 | internal/pg/sync.go:99 | The 32-bit conversion is congruent modulo 2^32 and the identity exactly in range |
| TokenBucket.ClosedForm | internal/syncer/syncer.go:126-151 | The tokens before a call are the least allowance over all earlier start points, and some start point attains it |
| TokenBucket.GrantedExactly | internal/syncer/syncer.go:136-151 | A call is granted if and only if, from every earlier start point, grants so far plus this one stay within capacity times one plus the seconds since |
| TokenBucket.TokensBounded | internal/syncer/syncer.go:136-151 | Tokens stay between 0 and capacity |
| TokenBucket.WindowBound | internal/syncer/syncer.go:126-151 | No window grants more than capacity times one plus its length in seconds |
| TokenBucket.Bucket.Allow | internal/syncer/syncer.go:136-151 | The object's fields are those of the call history with this call added, and the answer is that history's |
| SyncLoop.WindowsTile | internal/syncer/syncer.go:86-114 | In every run each load begins where the last successful one started its query; failures and refusals move nothing |
| SyncLoop.ConsecutiveWindows | internal/syncer/syncer.go:92-113 | Consecutive successful loads leave neither gap nor overlap |
| SyncLoop.LastAtMonotone | internal/syncer/syncer.go:111-113 | With a clock that does not run backwards `lastAt` never decreases |
| SyncLoop.TriggerAccounting | internal/syncer/syncer.go:57-83 | Accepted triggers are the received ones plus the one that may wait, and loads never exceed ticks plus accepted triggers |
| SyncLoop.PendingExactly | internal/syncer/syncer.go:60-66 | A trigger waits if and only if some call came after the last receive |
| SyncLoop.PGSyncer.constructor | internal/syncer/syncer.go:40-55 | Starts from `since` with an empty slot and a full bucket; a rate limit that is not positive counts as 1 |
| SyncLoop.PGSyncer.TriggerSync | internal/syncer/syncer.go:60-66 | Fills the one-place slot and changes nothing else |
| SyncLoop.PGSyncer.DoSync | internal/syncer/syncer.go:86-114 | Loads exactly when the bucket grants, from the old `lastAt`, which moves to the start only on success |
| SyncLoop.PGSyncer.Start | internal/syncer/syncer.go:70-83 | The moves made are the events delivered, one for one; from a new object loads never exceed the ticks and receives delivered, and receives plus the waiting trigger never exceed the calls |
| SyncLoop.EventAccounting | internal/syncer/syncer.go:57-83 | The trigger accounting over the events delivered |
| SyncLoop.LoadsBounded | internal/syncer/syncer.go:86-90 | All loads an instance ever made are within the rate limit over its lifetime |
| Query.HandleQuery | internal/dns/handler.go:106-167 | Refused exactly when no suffix is an apex, NXDOMAIN exactly when the closest zone has nothing at the name, one SOA exactly for NXDOMAIN and NODATA and that of the closest zone; the answer section is told from the rrsets of the store alone: for an address type the RR of the record whose slice the draw falls in, for other types every RR that parsed and in order, for an alias its RR and then what a direct query for the target gets; a query for every type gets one fixed record whatever the store holds (section 4.2 of RFC 8482) |
| Query.ResponsesPartition | internal/dns/handler.go:120-166 | Every query is exactly one of refused, no such name, no data, direct answer and alias |
| Query.KnownMeansPopulated | internal/store/rwmutex.go:52-69 | Without empty rrsets a name is known if and only if some type has records there |
| Query.Negative | internal/dns/handler.go:149-166 | The negative half: code and SOA |
| Query.Chase | internal/dns/handler.go:128-146 | The first alias's RR when it parsed, then exactly what a direct query for its target and the type gets, and nothing if there is none |
| Query.AnswerIsDirect | internal/dns/handler.go:172-186 | The answer from an rrset, told by positions and weights |
| Query.EveryRecordDrawn | internal/dns/handler.go:318-324 | Every record of an address rrset is the answer to some draw |
| Query.PopulatedLookup | internal/dns/handler.go:120-122 | A look-up finds something exactly when the closest zone has records at that name and type |
| Query.AddAnswers | internal/dns/handler.go:172-186 | Address rrsets give the one record the draw selects, other rrsets everything that parsed, in order |
| Transfer.ServeAxfr | internal/dns/handler.go:221-286 | Whatever is written to the store between messages, the messages are a transfer of the zone as it stood when found, or a prefix of one after a write error; refused exactly off TCP or when no zone covers the name |
| Transfer.TransferMember | internal/dns/handler.go:263-275 | An RR is in some middle message exactly when some record of the zone carries it |
| Transfer.RRBagExactly | internal/dns/handler.go:263-275 | The RRs to send hold each RR as often as positions of the zone carry it |
| Transfer.TransferZone | internal/dns/handler.go:238-286 | The same for a zone object already found |
| Transfer.StreamIsTransfer | internal/dns/handler.go:249-285 | In any map order the stream is the SOA, then every RR exactly as often as records carry it in non-empty messages of at most 500, as few as possible, and the SOA |
| Transfer.FullChunks | internal/dns/handler.go:263-275 | Full batches come off the front of the stream unchanged |
| Transfer.ChunksSizes | internal/dns/handler.go:250-262 | n records make n/500 messages, rounded up, each of 1 to 500 |
| Transfer.ChunksConcat | internal/dns/handler.go:250-262 | Batching loses, repeats and reorders nothing |
| Weights.Pick | internal/dns/handler.go:295-326 | The record returned is the one whose slice the draw falls in, the slices being the provider's weight where it names the value, the record's own where it does not, and 1 where that is not positive; the final fallback is unreachable |
| Weights.ShareOfDraws | internal/dns/handler.go:302-324 | Of all draws exactly that many select each record |
| Weights.WeightsLocal | internal/dns/handler.go:304-316 | An answer about one value changes the weight of no record with another value |
| Weights.EffectiveExactly | internal/dns/handler.go:304-316 | The weights computed are exactly those |
| Weights.ExactlyProportional | internal/dns/handler.go:318-324 | Of all draws exactly as many as its weight select each record, at least one |
| Weights.SelectsUnique | internal/dns/handler.go:318-324 | A draw selects one record only |
| Weights.TotalFits | internal/dns/handler.go:302-318 | With 32-bit weights and fewer than 2^31 records the total is positive and fits 64 bits |
| Weights.StaticGetWeights | internal/weight/static.go:25-37 | Answers exactly when some record has a positive weight; a value has an entry exactly when some record with it has one, and it is that of the last such record |
| Weights.StaticTransparentExactly | internal/weight/static.go:25-37 | The static provider changes no effective weight if and only if records of equal value are consistently weighted |
| Weights.StaticOverrides | internal/weight/static.go:28-31 | A concrete rrset with equal values where it does change one |
| Weights.DistinctIsConsistent | migrations/001_init.sql:44-47 | Distinct values are always consistent |
| Weights.FallbackTransparentExactly | internal/weight/composite.go:24-29 | Falling back to static weights changes nothing if and only if the primary answers or the rrset is consistent |
| Weights.CacheKeyInjective | internal/weight/nacos.go:140-149 | The cache key determines name and type, even for names with colons |
| Weights.NacosProvider.Interleave | internal/weight/nacos.go:60-86 | In every interleaving of queries, prefetches and pushes each pair asked for has exactly one watch, and each key's entry is that of its last well-formed push |
| Weights.NacosProvider.GetWeights | internal/weight/nacos.go:60-72 | The cached weights of the key, never an empty map; the first call for a pair starts its watch |
| Weights.NacosProvider.Update | internal/weight/nacos.go:114-128 | Malformed data changes nothing, an empty map clears the entry, and no empty map is ever stored |
| Weights.WeightsAfter | internal/weight/composite.go:24-29 | After any interleaving the composite answers with the last well-formed push for the key when it had weights, and with the static weights when it had none |
| Lexer.LexExactly | config/parser.go:67-107 | The lexer answers the one layout of blanks, braces, quoted strings and maximal bare words that spells the line, and fails exactly when there is none |
| Lexer.LexSound | config/parser.go:67-107 | The pieces reassemble the line exactly |
| Lexer.LexComplete | config/parser.go:67-107 | Every layout is read back as itself |
| Lexer.LexLine | config/parser.go:67-107 | The loop computes those pieces' tokens, stamped with the line number |
| Lexer.ScanPiece | config/parser.go:71-104 | The two scanning loops find the first piece, or nothing for an unclosed quote |
| Lexer.Tokenize | config/parser.go:41-61 | The tokens of all lines after comment stripping, or failure when some line fails |
| Lexer.CommentIgnored | config/parser.go:49-52 | A hash and whatever follows it do not matter; without a hash nothing is lost |
| Lexer.LinesExactly | config/parser.go:43-47 | How a text falls into lines, the last one with or without a newline |
| Lexer.CarriageReturn | config/parser.go:43-47 | One carriage return before the newline belongs to the line break |
| Lexer.LinesAppend | config/parser.go:46-60 | Lines are read one after the other, and a text fails exactly when one of its lines does |
| Lexer.WordsSplit | config/parser.go:71-104 | Two words with a space, tab or carriage return between them are two tokens |
| Lexer.BraceSplits | config/parser.go:79-104 | A brace ends a word and is a token of its own |
| Lexer.QuotesSplit | config/parser.go:84-104 | What stands between two quotes is one token, whatever else it holds |
| Lexer.OpenQuoteFails | config/parser.go:84-92 | A quote that is not closed is refused |
| Corefile.Parser.Parse | config/parser.go:150-167 | The parser object computes `ParseTokens` |
| Corefile.Parser.ParseMain | config/parser.go:169-250 | The main loop computes `ParseBlock` of the main block |
| Corefile.Parser.ParseSub | config/parser.go:252-400 | The loop of each sub-block computes `ParseBlock` and stops just behind the closing brace |
| Corefile.ParseIgnoresTail | config/parser.go:150-167 | Appending any tokens to an accepted, non-empty token list leaves the result unchanged |
| Corefile.BlockIgnoresTail | config/parser.go:169-400 | The same for one block, with what is left over |
| CorefileGrammar.FileExactly | config/parser.go:150-167 | A token list is accepted, with this configuration, if and only if it is empty and the configuration the defaults, or items that fit the grammar spell it and mean that configuration |
| CorefileGrammar.BlockExactly | config/parser.go:169-400 | The same for one block, with the tokens left |
| CorefileGrammar.MainNames | config/parser.go:181-247 | The main block has exactly its four keys |
| CorefileGrammar.SectionNames | config/parser.go:214-247 | And exactly its four sections, which have none |
| CorefileGrammar.SmallSectionNames | config/parser.go:252-400 | The keys of the api, postgres and sync blocks are exactly the documented ones |
| CorefileGrammar.NacosNames | config/parser.go:311-350 | The keys of the nacos block are exactly the documented ones |
| CorefileGrammar.EmptyReads | config/config.go:43-62 | An empty text, and a comment alone, read as the documented defaults |
| Corefile.ParseText | config/parser.go:25-32 | The whole reader, from text to configuration |
| Printer.RoundTrip | config/parser.go:25-32 | Printing a representable configuration with quoted values and reading it back gives the same configuration |
| Printer.RepresentableExactly | config/parser.go:25-32 | Some text reads as a configuration if and only if its strings have no quote, hash or newline and are not a closing brace, its integers fit 64 bits and its duration and probability are accepted |
| Printer.ReadIsRepresentable | config/parser.go:41-107 | Whatever is read is representable |
| Printer.MainKeys | config/parser.go:182-213 | A file with one key of the main block parses to the defaults with exactly that setting changed, for every value; a bad integer is refused |
| Printer.ServiceKeys | config/parser.go:252-298 | The same for the keys of the api and postgres blocks |
| Printer.NacosPlaceKeys | config/parser.go:312-323 | The same for the nacos block's address and namespace |
| Printer.NacosGroupKeys | config/parser.go:324-335 | The same for its group and prefix |
| Printer.NacosLoginKeys | config/parser.go:336-347 | The same for its user and password |
| Printer.SyncKeys | config/parser.go:366-385 | The same for the sync block's interval and probability, refused when not accepted |
| Printer.RateLimitKey | config/parser.go:386-395 | The same for its rate limit, refused when no integer |
| Decimal.AtoiItoa | config/parser.go:192-196 | Decimal printing of a 64-bit integer reads back |
| Decimal.AtoiExactly | config/parser.go:192-196 | A text is read as an integer exactly when it is an optional sign and digits that stand for it and it fits 64 bits |

## Left out

- HTTP routing, JSON binding, status codes, health and metrics endpoints: no property beyond one branch.
- Connection handling, schema creation and the SQL engine: only the table semantics of the statements are modelled; a query is one instant.
- The DNS library: RRs are opaque values, type names and RR parsing are parameters, wire encoding is absent.
- The Nacos client: how an initial fetch and pushes are ordered is not visible here; pushes may come in any order.
- The name server, mailbox and timers of a made-up SOA: settled by reading one literal.
- EDNS0 and client subnet handling, query logging, and the random choice of when a query triggers a sync.
- Goroutine scheduling and locks: each locked store call is one step.
- Query.HandleQuery: is stated for a store that does not change between its several look-ups, because with writes in between no single store value describes the answer.
- TokenBucket.Bucket.Allow: does not model float64 rounding, rates and tokens are reals; the clock does not run backwards.
- Zone ids: a zone row is identified with its name, which is unique, never updated and never freed.
- Loader.LoadAll: the local zones are values until they are published; nobody else can reach them before.
- Empty zones are compared by their records only: a pull does not create them, as in the program.
- Overflow of record ids and of the summed weights beyond the bound of `Weights.TotalFits`.
- Durations and probabilities are kept as accepted text, with acceptance a parameter; lines longer than the scanner's buffer and invalid UTF-8 are not modelled.
- Corefile.Parser.Parse: an error says its kind and how many tokens were left, not the message and line number.
- Listing endpoints, the seed zone, process start and shutdown.
