# kvllay, verified model

A Dafny model of kvllay, a Redis-compatible in-memory store, and proofs about it. `dafny verify
dfyconfig.toml` checks everything.

The store is modelled as the object it is: 32 shards, each with its table and its TTL index, a memory
counter, and methods that change them step by step. Its specification is one flat map of items and a
clock (`Keyspace`). Every method is proved to do to the live part of that map what the specification
says, and the theorems are about whole runs: `Runs` (refinement of the flat map over any sequence of
operations), `Laws` (what operations undo and read of one another), `Meanings` (how long a lock or a
value lasts, over a run), `Locks` (all interleavings of commands on one key or several are serializable
and none deadlocks), `Waiters` (blocking pops), `Eviction`.

Around it stand the ways a store leaves the process and comes back:

- the append-only log: the double-buffered writer, with its background rewrite, as a state machine over
  its critical sections and as an object (`AofLog`), the decision what to log and the interpreter that
  replays it (`Commands`, `Replay`), what each command means from its words to the store and the log
  (`Words`), the background rewrite as a compiler from a store to a command program (`Rewrite`), and what
  a restart finds after a crash, a shutdown or a rewrite (`Durability`, `Reorder`);
- the snapshot file with its writer, its cursor-based reader and its checksum (`Snapshot`, `Crc`);
- the wire: the RESP2 printer and parser (`Resp`) with its grammar (`Grammar`) and the inline form
  (`Inline`), framing of a stream cut anywhere (`Stream`), and a connection with its transactions and its
  output buffer (`Connection`);
- the formats and figures shared with clients, files and other programs, in literal bytes (`Formats`).

Conventions. Time is a parameter: a steady clock for deadlines in memory and a wall clock for files.
The order in which a hash table is walked is arbitrary, so every statement holds for all orders. Values
and keys are byte strings; a score is the 64 bits of a double.

Some statements one would expect are false of the code. They appear as an exact condition, most with
an input or a run that shows the failure:

- the memory counter after `hsetnx` and `sadd` (`Store.Hsetnx`, `Store.Sadd`);
- the order in which commands reach the log (`FlushKeepsOrderIff`, `EveryRunOrdersIffSafe`, with the run
  `AlwaysCanReorder`);
- what a rewrite leaves in the file (`RewriteExactIff`, with the runs `RewriteRepeats` and
  `RewriteLoses`);
- replay of a logged pop of zero elements (`ZeroPopKeepsIff`), of BRPOP (`BrpopKeepsIff`), of a push that
  wakes a waiting client (`PushKeepsIff`) and of a relative expiry (`RelativeTightIff`), with the
  commands `ZeroPopLoses`, `BrpopKeeps`, `PushKeeps` and `RelativeLate`;
- a log read past a refused command (`CorruptionIgnoredIff` for all cuts and `CorruptionInChunksIff` for
  the one `load` makes, with the file of `CorruptionResumed`);
- an inline command in a stream (`InlineFinalIff`);
- clients left waiting beside a list (`PushSleepsIff`, `RegisterSleepsIff`, with the runs
  `PushLeavesSleeper` and `WakeupLost`);
- a key that holds a star (`ValueIsSafeIffStarFree`);
- a batch of replies the kernel interrupts (`Connection.SendBatch`).

The hypotheses of the log theorems are stated in `Replay.Fair` and in the theorems themselves. Of a
request: no deadline before a horizon that lies after the run and after the replay; no wrap-around; a
pop of zero elements or a BRPOP finds no list, and a push wakes no waiting client, which are the exact
conditions above. Of the store: maxmemory is 0 (`Replay.Dispatch`), so nothing is evicted or refused. Of
the writer, in `Durability`: for the final store, that commands that share a key are appended in the
order they were executed in (`Reorder.Reordered`); for a file cut off by a crash, that all commands are;
and for a rewrite, that what is appended after the dump is what was executed after it. The code appends
after it has released the shard lock (`include/kvllay/commands.hpp:313-322`), so with several workers
this is a restriction; `AppendOrderMatters` shows what happens without it.

Where documentation and code differ the code is followed: the documentation gives `CLIENT_BUFFER_SIZE`
as 4096 (`docs/en.md:595`), the code as 65536; the documentation lists four pattern shapes for KEYS
(`docs/en.md:117`), the code falls back to the general matcher for all others.

## Model

| member | source | states |
|---|---|---|
| `Runs.ExecuteAll` | include/kvllay/store.hpp:457-2412 | for every sequence of store operations at non-decreasing times, with sweeps and restores in between, the sharded store gives the replies of one flat map and is indistinguishable from it at every later time; its invariant holds throughout, no empty collection appears unless nothing is added to an absent key, and the counter equals the sum of the estimates as long as hsetnx and sadd create no key |
| `Runs.Execute` | include/kvllay/store.hpp:457-2685 | any single operation: reply and new live view are functions of the old live view at that time |
| `Runs.LiveViewSuffices` | include/kvllay/store.hpp:655-691 | two stores with the same live view answer every run alike, whatever expired entries they still hold |
| `Runs.SweepsUnobservable` | include/kvllay/store.hpp:2390-2412 | leaving all active-expiry sweeps out of a run changes no reply and no later view |
| `Runs.AgreeForEver` | include/kvllay/store.hpp:457-517 | agreement of two live views at one time is agreement at every later time: expired items never come back |
| `Runs.DeadlineKept` | include/kvllay/store.hpp:2628-2685 | counters and collection operations keep the deadline of an existing key and give none to a new one, as the documentation promises |
| `StoreModel.Store.constructor` | include/kvllay/store.hpp:204-208 | a new store is empty, valid and exactly accounted |
| `StoreModel.Store.FindAlive` | include/kvllay/store.hpp:466-474 | an expired entry is gone after the lookup, and the live view is unchanged by that |
| `StoreModel.Store.SetWithOptions` | include/kvllay/store.hpp:457-517 | SET with NX, XX, KEEPTTL and a duration, on the flat map; index and counter follow |
| `StoreModel.Store.Setex` | include/kvllay/store.hpp:572-605 | value and deadline replaced together |
| `StoreModel.Store.Mset` | include/kvllay/store.hpp:523-570 | later pairs win, deadlines are cleared, every other key is untouched |
| `StoreModel.Store.Get` | include/kvllay/store.hpp:655-691 | a value, a missing key or a wrong type, judged on the live view; an expired entry is gone afterwards |
| `StoreModel.Store.Mget` | include/kvllay/store.hpp:750-805 | one answer for each named key, expired and non-string keys being absent; the expired ones are gone afterwards |
| `StoreModel.Store.Exists` | include/kvllay/store.hpp:2003-2088 | each mention of a live key counts, and the expired ones named are gone afterwards |
| `StoreModel.Store.Del` | include/kvllay/store.hpp:1903-1943 | the named keys are gone and each live one is counted once, however often it is named |
| `StoreModel.Store.ModifyInt` | include/kvllay/store.hpp:2628-2685 | INCRBY and DECRBY: the exact 64-bit sum or an overflow error, never a wrapped value; deadline kept |
| `StoreModel.AddInt64` | include/kvllay/store.hpp:431-438 | the overflow tests reject exactly the sums that do not fit, using only values that do |
| `StoreModel.SubInt64` | include/kvllay/store.hpp:440-447 | likewise for differences |
| `StoreModel.Store.Hset` | include/kvllay/store.hpp:847-880 | fields overlaid in order; the reply counts the new ones |
| `StoreModel.Store.Hsetnx` | include/kvllay/store.hpp:882-910 | inserts only an absent field; the counter stays exact if and only if the key existed |
| `StoreModel.Store.Hincrby` | include/kvllay/store.hpp:983-1012 | as for counters, on one field |
| `StoreModel.Store.Hdel` | include/kvllay/store.hpp:1029-1056 | the named fields are gone, counted once, and an emptied hash disappears |
| `StoreModel.Store.Sadd` | include/kvllay/store.hpp:1089-1111 | the union, counting the new members; the counter stays exact if and only if the key existed |
| `StoreModel.Store.Srem` | include/kvllay/store.hpp:1113-1135 | the difference, and an emptied set disappears; an expired set is missing though left in place |
| `StoreModel.Store.Zadd` | include/kvllay/store.hpp:1149-1184 | scores overlaid in order, new members counted, bytes charged as the estimate would |
| `StoreModel.Store.Zrem` | include/kvllay/store.hpp:1186-1214 | the named members are gone and the bytes released match the estimates |
| `StoreModel.Store.Push` | include/kvllay/store.hpp:1256-1372 | the values in front, reversed, or behind, in order; charged exactly |
| `StoreModel.Store.Pop` | include/kvllay/store.hpp:1474-1572 | the first or last elements in pop order, the rest kept, an emptied list gone |
| `StoreModel.Store.Expire` | include/kvllay/store.hpp:2221-2258 | a new deadline, or removal for a duration of 0, with the wall-clock deadline that is to be logged |
| `StoreModel.Store.ExpireAt` | include/kvllay/store.hpp:2260-2291 | a wall-clock deadline converted to the steady clock, or removal when it has passed |
| `StoreModel.Store.Ttl` | include/kvllay/store.hpp:2293-2323 | the time left, rounded up to seconds, or -1 or -2; an expired entry is gone afterwards |
| `StoreModel.Store.Persist` | include/kvllay/store.hpp:2325-2348 | the deadline removed, and 1 only when there was one |
| `StoreModel.Store.Flushdb` | include/kvllay/store.hpp:2350-2359 | nothing left, and the counter exact again |
| `StoreModel.Store.Size` | include/kvllay/store.hpp:2361-2373 | the number of live keys |
| `StoreModel.Store.ExpiresSize` | include/kvllay/store.hpp:2375-2388 | the number of live keys with a deadline |
| `StoreModel.Store.Keys` | include/kvllay/store.hpp:2142-2219 | no duplicates, only live keys the documented glob meaning accepts, and all of them but for keys holding a star on the general path |
| `StoreModel.Store.EvictExpired` | include/kvllay/store.hpp:2390-2412 | invisible in the live view; an expired key survives only in a shard whose index outnumbers its share of the batch |
| `StoreModel.Store.EraseEntry` | include/kvllay/store.hpp:469-474 | entry, index entry and charge go together |
| `StoreModel.Store.SubMemory` | include/kvllay/store.hpp:294-302 | the counter never goes below 0 |
| `StoreModel.Store.AddMemory` | include/kvllay/store.hpp:287-292 | the peak follows the counter |
| `Memory.EstimateEntryMemory` | include/kvllay/store.hpp:257-281 | the estimate is a sum over the entry that no iteration order changes |
| `Memory.TotalErase` | include/kvllay/store.hpp:257-302 | the sum of all estimates splits off any one entry |
| `Memory.TotalPut` | include/kvllay/store.hpp:257-302 | and takes in a new value for it |
| `ValueLoops.PutScores` | include/kvllay/store.hpp:1168-1179 | the bytes zadd counts are the growth of the estimate |
| `ValueLoops.RemoveScores` | include/kvllay/store.hpp:1196-1204 | the bytes zrem counts are its decrease |
| `ValueLoops.PopBack` | include/kvllay/store.hpp:1552-1560 | rpop pops from the back, and counts what the estimate loses |
| `Sharding.ShardIndex` | include/kvllay/store.hpp:2695-2702 | every key has one of the 32 shards |
| `Sharding.Involved` | include/kvllay/store.hpp:526-532 | the shards a command locks: ascending, each once, exactly those of its keys |
| `Laws.PushPopStack` | include/kvllay/store.hpp:1256-1572 | a list is a stack at either end: popping what was pushed returns it last first and restores the list |
| `Laws.PushPopQueue` | include/kvllay/store.hpp:1256-1572 | and a queue across its ends |
| `Laws.PopTwice` | include/kvllay/store.hpp:1474-1572 | popping in two portions is popping at once |
| `Laws.IncrUndone` | include/kvllay/store.hpp:2628-2685 | the answer of INCRBY is what GET then prints, and subtracting again answers the number before |
| `Laws.HincrbyUndone` | include/kvllay/store.hpp:974-1012 | likewise for a field, whose stricter parser reads what is printed |
| `Laws.HashIntegerExact` | include/kvllay/store.hpp:974-981 | the parser of HINCRBY accepts exactly the texts that HINCRBY writes |
| `Laws.SaddUndone` | include/kvllay/store.hpp:1089-1135 | SREM of the members SADD added restores the set |
| `Laws.SaddTwice` | include/kvllay/store.hpp:1089-1111 | adding again adds nothing |
| `Laws.HsetnxUndone` | include/kvllay/store.hpp:882-910 | a present field is left alone; an added one can be taken out again |
| `Laws.OverlayHolds` | include/kvllay/store.hpp:871-874 | the last value given for a field or member is the one kept, and one that is given none is as it was |
| `Laws.SetRead` | include/kvllay/store.hpp:457-517 | after SET, GET returns the value and PTTL the duration or -1 |
| `Laws.ExpireRead` | include/kvllay/store.hpp:2221-2348 | after EXPIRE, PTTL answers the duration and TTL rounds it up; PERSIST removes it; PEXPIREAT of the logged deadline sets the same one |
| `Laws.MsetMget` | include/kvllay/store.hpp:523-805 | MGET returns what MSET of distinct keys stored |
| `Laws.MsetHolds` | include/kvllay/store.hpp:523-570 | of repeated keys the last pair wins, and a key that is not named is as it was |
| `Laws.DelCounts` | include/kvllay/store.hpp:1903-1943 | DEL answers by how many keys the map shrank, and EXISTS finds none of them |
| `Laws.ExistsIsDel` | include/kvllay/store.hpp:2034-2088 | of distinct keys EXISTS counts what DEL would remove |
| `Laws.SetExact` | include/kvllay/store.hpp:457-517 | SET NX is applied if and only if the key was absent, SET XX if and only if it was present, a refused SET changes nothing; after an applied one PTTL answers the duration given, with KEEPTTL what it was, or else -1 |
| `Laws.IncrExact` | include/kvllay/store.hpp:2628-2685 | an absent key counts from 0; a printed number is added to, and left alone where the sum does not fit |
| `Laws.HincrbyExact` | include/kvllay/store.hpp:974-1012 | so does an absent field, and the other fields stay |
| `Laws.IncrRefuses` | include/kvllay/store.hpp:418-430 | a text with anything but digits behind its sign is no integer, and stays |
| `Laws.HsetHolds` | include/kvllay/store.hpp:847-880 | HSET of some fields leaves every other field as it was, and answers by how many the hash grew |
| `Laws.ZaddHolds` | include/kvllay/store.hpp:1149-1184 | likewise for members and scores |
| `Laws.HdelTakes` | include/kvllay/store.hpp:1029-1056 | exactly the fields named are taken out, the answer is how many there were, an emptied hash is gone |
| `Laws.ZremTakes` | include/kvllay/store.hpp:1186-1214 | likewise for members of a sorted set |
| `Laws.SetMembers` | include/kvllay/store.hpp:1089-1135 | SADD adds and SREM removes exactly the members named; the answers are growth and shrinkage |
| `Meanings.LockHeldIff` | include/kvllay/store.hpp:457-517 | over every run that leaves the key alone, a second SET NX is refused, and GET returns the first value, if and only if the duration of the first has not passed |
| `Meanings.ReadUntilIff` | include/kvllay/store.hpp:457-691 | over every such run GET returns what SET stored if and only if its duration has not passed |
| `Meanings.StaysUntil` | include/kvllay/store.hpp:457-2412 | a key that a run leaves alone is at every later time as it was, or has expired |
| `Meanings.WrongTypeIff` | include/kvllay/store.hpp:655-1372 | a command answers WRONGTYPE if and only if the key holds another kind of value, which it then leaves alone |
| `Eviction.CheckMemoryAndEvict` | include/kvllay/store.hpp:304-400 | true exactly when the limit holds at exit; only expired or eligible keys go, at most 10000, each lowering an exact counter by at least 112, and none more than needed; each victim is the one its policy prefers among those looked at when it went; a failure means 10000 removals or nothing eligible left, and under an allkeys policy with nothing requested always the former |
| `Eviction.FindVictim` | include/kvllay/store.hpp:321-382 | the victim is expired or eligible; unless it is expired, up to five eligible keys of every shard were looked at, and volatile-ttl chose one whose deadline, the two least-recently-used policies one whose stamp, none of those undercuts; none is found only when no key may go |
| `Eviction.SampleShard` | include/kvllay/store.hpp:335-377 | one shard: five eligible keys or all of them, in any iteration order |
| `Eviction.SampledJustifies` | include/kvllay/store.hpp:335-377 | the best of a search is, in terms of deadlines and stamps alone, what the policy asks for among five keys, or all there are, of every one of the 32 shards |
| `Dump.GetAllEntries` | include/kvllay/store.hpp:2453-2514 | every live item once, in any order, with its wall-clock deadline |
| `Dump.RestoreEntry` | include/kvllay/store.hpp:2516-2626 | one entry put back, skipped when empty and dropped when its deadline has passed; index and counter follow |
| `Dump.RestoreCarries` | include/kvllay/store.hpp:2453-2626 | a dump restored into nothing at any later time gives what the store has become by then |
| `Locks.Serializable` | include/kvllay/store.hpp:523-570 | every interleaving of the lock, access and unlock steps of any mixture of MSET, DEL, MGET, EXISTS, the dump and commands on one key, which may write what they make of what they read: a finished command has read what it would have read running alone between two whole commands of one serial order, and the final store is that of the order |
| `Locks.OrderGrows` | include/kvllay/store.hpp:693-730 | the serial order only grows at its end, so it respects real time |
| `Locks.NoDeadlock` | include/kvllay/store.hpp:526-538 | whatever the clients and their number, some unfinished one can step, even if readers queue behind a waiting writer |
| `Locks.SourceDisciplined` | include/kvllay/store.hpp:1903-1943 | those commands lock in ascending order, access under the right lock and mode, and let everything go |
| `Locks.CommandsAreOperations` | include/kvllay/store.hpp:523-2514 | alone, each of them does to the flat map what its operation does: MSET, DEL with its count, MGET and EXISTS, the dump, whose tables together are the whole map, and every operation on one key |
| `Locks.ErasureUnobservable` | include/kvllay/store.hpp:731-745 | the erasure of an expired key that follows MGET and EXISTS, a command of its own, changes nothing in the live view |
| `Locks.LongerClientsOrdered` | include/kvllay/store.hpp:1635-1644 | clients that lock more than once keep the lock order too: a push releases its shard before blocked_mutex_ is taken for its notification, and MGET and EXISTS release theirs before they erase expired keys one by one |
| `Locks.Sharing` | include/kvllay/store.hpp:523-805 | two readers of a key may be inside together, a writer and anyone else may not, and two writers exactly when their keys are in different shards |
| `Locks.ExclusionStep` | include/kvllay/store.hpp:2687-2693 | no two clients ever hold a lock in conflicting modes |
| `Locks.NoConflict` | include/kvllay/store.hpp:523-570 | two admitted clients have no conflicting accesses ahead of them |
| `Locks.InvStep` | include/kvllay/store.hpp:523-805 | the serializability invariant is kept by every step |
| `Waiters.RunEvents` | include/kvllay/store.hpp:1256-1681 | every run of the critical sections at non-decreasing times answers as RunOf does and ends in its state, also when lists expire meanwhile, a push and its notification, an attempt and the registration after it and even the single pops of a notification being events with others in between; on lists without deadlines what the lists held and the pushes of the run brought is what the lists hold, its pops and attempts gave out and the waiting clients were handed; a client waits once, and no registration is answered twice or waits after its answer |
| `Waiters.RunConserves` | include/kvllay/store.hpp:1256-1681 | conservation over every run of the specification: each pushed element is in a list, given to a caller or handed to a waiter, as often as it was pushed |
| `Waiters.StepConserves` | include/kvllay/store.hpp:1256-1681 | elements come with a push and go with a pop or an attempt; a notification and its single pops move them to the answers; registrations, cancellations and timeouts move none |
| `Waiters.Handle` | include/kvllay/store.hpp:1256-1681 | the method of each critical section does to lists, queue and answers what StepEvent says |
| `Waiters.PushSleepsIff` | include/kvllay/store.hpp:1631-1658 | a push and its notification leave no client waiting beside the list if and only if it brought one element or woke at most one client |
| `Waiters.PushLeavesSleeper` | include/kvllay/store.hpp:1631-1658 | two elements pushed beside two waiting clients leave the second asleep |
| `Waiters.RegisterSleepsIff` | include/kvllay/store.hpp:1600-1621 | a registration leaves no client waiting beside a list if and only if none of its lists has an element by then |
| `Waiters.WakeupLost` | include/kvllay/commands.hpp:767-781 | which the attempt before it does not ensure: a push in between finds nobody waiting |
| `Waiters.BlockedPops.Notify` | include/kvllay/store.hpp:1631-1658 | at most one waiter is served, the earliest watcher whose attempt succeeds, and the others keep their places |
| `Waiters.BlockedPops.Push` | include/kvllay/store.hpp:1256-1372 | a push, then its notification on the lists as they then are |
| `Waiters.BlockedPops.PushValues` | include/kvllay/store.hpp:1256-1306 | the push alone |
| `Waiters.BlockedPops.Offer` | include/kvllay/store.hpp:1583-1647 | one pop of a notification: the element of one list goes to the waiter it was popped for |
| `Waiters.BlockedPops.Pop` | include/kvllay/store.hpp:1474-1572 | the first or last elements leave the list in pop order, and the queue is as it was |
| `Waiters.BlockedPops.Brpop` | include/kvllay/commands.hpp:753-785 | an attempt, and a registration only when every list was missing |
| `Waiters.BlockedPops.Attempt` | include/kvllay/commands.hpp:767-776 | the attempt alone, whose element the caller gets |
| `Waiters.BlockedPops.Register` | include/kvllay/store.hpp:1600-1621 | the new registration replaces an older one of the client |
| `Waiters.BlockedPops.Cancel` | include/kvllay/store.hpp:1623-1629 | exactly the client's registration goes |
| `Waiters.BlockedPops.CheckTimeouts` | include/kvllay/store.hpp:1660-1681 | exactly the registrations whose time is up are answered, in order; `StaysIff` and `ExpiresIff` say which those are |
| `Waiters.StaysIff` | include/kvllay/store.hpp:1660-1681 | a check keeps a waiter if and only if it has no deadline or one still to come |
| `Waiters.ExpiresIff` | include/kvllay/store.hpp:1660-1681 | and tells exactly the others, when now has reached their deadline, that their time is up |
| `Waiters.TimeoutIff` | include/kvllay/store.hpp:1600-1681 | over every run, a client registered at t0 with a timeout of s seconds and neither served nor cancelled is told so if and only if a check comes at t0 + 1000 * s or later; with s = 0 never |
| `Waiters.BlockedPops.TryPopKeys` | include/kvllay/store.hpp:1583-1598 | the first list with an element gives its last one; a key of another type ends the attempt |
| `Waiters.TryPopSkipsAbsent` | include/kvllay/store.hpp:1583-1598 | an attempt finds nothing exactly when all keys are absent, and changes nothing unless it succeeds |
| `Waiters.TryPopFindsList` | include/kvllay/store.hpp:1583-1598 | it succeeds exactly when the first of the keys that is present holds a list |
| `Waiters.TryPopElements` | include/kvllay/store.hpp:1583-1598 | a successful attempt moves one element out of the lists |
| `AofLog.EveryRunConserves` | include/kvllay/aof.hpp:172-486 | in every interleaving of append, swap, write, flush_sync, closing, dumps and switches of files, the replaced files, the file and the buffers hold each appended command exactly once |
| `AofLog.EveryRunOrdersIffSafe` | include/kvllay/aof.hpp:298-347 | with the file open, replaced files, file, flushing and active buffer are the append order at the end of a run if and only if every flush of it was safe |
| `AofLog.FlushKeepsOrderIff` | include/kvllay/aof.hpp:328-347 | flush_sync keeps the append order if and only if one of the buffers is empty |
| `AofLog.AlwaysCanReorder` | include/kvllay/aof.hpp:185-188 | under the policy always two concurrent appends can reach the file in the wrong order |
| `AofLog.NoFlushIsSafe` | include/kvllay/aof.hpp:185-189 | under everysec and no every run is safe |
| `AofLog.AlwaysWrites` | include/kvllay/aof.hpp:172-189 | with the file open an append under `always` leaves nothing in the buffers, so all appends are on file; while it is closed nothing is written |
| `AofLog.LoopWrites` | include/kvllay/aof.hpp:298-326 | one round of the background loop brings the open file up to all appends, in order |
| `AofLog.ShutdownCompletes` | include/kvllay/aof.hpp:138-170 | the flush of an orderly stop completes the file in append order |
| `AofLog.RewriteCarriesIff` | include/kvllay/aof.hpp:452-468 | a switch of files carries exactly the commands after the dump if and only if exactly those before it had been written; otherwise it loses or repeats the difference |
| `AofLog.RewriteExactIff` | include/kvllay/aof.hpp:264-486 | over every run with a rewrite, whatever is appended later: file and buffers behind the compacted part are exactly the commands appended after the dump if and only if as many commands reached the old file between dump and switch as were buffered at the dump |
| `AofLog.QuietRewriteExact` | include/kvllay/aof.hpp:264-486 | so it is when both buffers are empty at the dump and nothing is appended before the switch |
| `AofLog.RewriteRepeats` | include/kvllay/aof.hpp:458-465 | a run in which a command buffered at the dump is written again behind the compacted part that holds it |
| `AofLog.RewriteLoses` | include/kvllay/aof.hpp:458-484 | a run in which a command appended and written between dump and switch is lost |
| `AofLog.AofManager.constructor` | include/kvllay/aof.hpp:65-75 | a fresh writer holds nothing |
| `AofLog.AofManager.Append` | include/kvllay/aof.hpp:172-212 | the printed command joins the active buffer, and is flushed at once under always |
| `AofLog.AofManager.BackgroundSwap` | include/kvllay/aof.hpp:299-309 | the buffers change places when there is something to write |
| `AofLog.AofManager.BackgroundWrite` | include/kvllay/aof.hpp:311-316 | the flushing buffer reaches the file |
| `AofLog.AofManager.FlushSync` | include/kvllay/aof.hpp:328-347 | both buffers reach the file, the newer first |
| `AofLog.AofManager.SwitchFiles` | include/kvllay/aof.hpp:449-484 | the new file is the compacted text followed by what the buffers held |
| `AofLog.AofManager.RewriteAsync` | include/kvllay/aof.hpp:264-295 | one rewrite at a time, and none when disabled or stopped |
| `AofLog.AofManager.AbandonRewrite` | include/kvllay/aof.hpp:367-448 | a rewrite whose new file fails leaves log and buffers alone |
| `Commands.ReplayReadsHandled` | include/kvllay/commands.hpp:121-322 | every write a handler accepts is read back by replay as the same operation, deadlines excepted, although the two parse numbers and options differently |
| `Commands.OptionsAgree` | include/kvllay/commands.hpp:1083-1148 | replay reads every SET option list the handler accepted as the handler did |
| `Commands.DurationAgrees` | include/kvllay/commands.hpp:1110-1120 | including a plus sign in front of the duration |
| `Commands.StollStrict` | include/kvllay/aof.hpp:547-547 | std::stoll agrees with std::from_chars wherever the latter accepts |
| `Commands.StoullDigits` | include/kvllay/aof.hpp:565-572 | a printed deadline is read back exactly |
| `Words.ExpireMeans` | include/kvllay/commands.hpp:1389-1437 | EXPIRE k n sets the deadline n seconds ahead and PEXPIRE n milliseconds, and logs PEXPIREAT with the wall-clock time; n that is not positive removes the key; an absent key changes and logs nothing |
| `Words.PersistMeans` | include/kvllay/commands.hpp:1455-1466 | PERSIST takes a deadline away, and is logged when there was one |
| `Words.SetexMeans` | include/kvllay/commands.hpp:1468-1497 | SETEX counts in seconds and refuses what is not positive |
| `Words.OptionsExact` | include/kvllay/commands.hpp:1083-1148 | a list of SET options is accepted if and only if no two clash, KEEPTTL stands beside no duration and durations are positive and in range; in any order it means what its words name |
| `Words.SetMeans` | include/kvllay/commands.hpp:1083-1173 | SET with any options in any order: when it is refused, and the value, the deadline and the log entry when it is not; EX in seconds, PX in milliseconds |
| `Words.SetExIsSetex` | include/kvllay/commands.hpp:1083-1497 | SET EX n leaves the store as SETEX n does, and as SET PX of n times 1000 |
| `Words.PushMeans` | include/kvllay/commands.hpp:1640-1666 | LPUSH puts its words in front, the last one first, and RPUSH behind in order |
| `Words.PopMeans` | include/kvllay/commands.hpp:1668-1760 | LPOP takes from the front and RPOP from the back, one element or as many as asked for and there; a negative count is refused; an emptied list is gone |
| `Words.PopMissing` | include/kvllay/commands.hpp:1668-1760 | a pop of an absent key changes nothing and is logged; on another type it is refused |
| `Words.IncrMeans` | include/kvllay/commands.hpp:1499-1549 | INCR and INCRBY add, DECR and DECRBY subtract, starting from 0; a sum that does not fit leaves the key and the log alone |
| `Words.HsetMeans` | include/kvllay/commands.hpp:527-542 | HSET and HMSET both overlay their pairs and keep the deadline |
| `Words.HsetnxMeans` | include/kvllay/commands.hpp:544-560 | HSETNX writes and is logged only where there is no such field |
| `Words.HincrbyMeans` | include/kvllay/commands.hpp:457-480 | HINCRBY adds to the field or to 0 |
| `Words.HdelMeans` | include/kvllay/commands.hpp:586-608 | HDEL takes the fields named out, and is logged when there were any |
| `Words.SaddMeans` | include/kvllay/commands.hpp:611-644 | SADD puts its names in, and is logged when that changed the set |
| `Words.SremMeans` | include/kvllay/commands.hpp:611-644 | SREM takes them out, and is logged when there were any |
| `Words.ZaddMeans` | include/kvllay/commands.hpp:646-671 | ZADD reads scores before members; one text that is no number spoils it |
| `Words.ZremMeans` | include/kvllay/commands.hpp:672-690 | ZREM takes its members out, and is logged when there were any |
| `Words.DelMeans` | include/kvllay/commands.hpp:1183-1197 | DEL takes the keys out, and is logged when there were any |
| `Words.MsetMeans` | include/kvllay/commands.hpp:1560-1572 | MSET stores its pairs without deadlines |
| `Words.FlushMeans` | include/kvllay/commands.hpp:1224-1227 | FLUSHDB and FLUSHALL leave nothing |
| `Words.BrpopMeans` | include/kvllay/commands.hpp:753-784 | the last word of BRPOP is the timeout, the others are the keys, and nothing is logged |
| `Words.AttemptMeans` | include/kvllay/store.hpp:1583-1599 | an attempt stops at the first key that is present and takes the last element of its list |
| `Words.DeadlineReplayed` | include/kvllay/aof.hpp:488-671 | in the log PEXPIREAT is a wall-clock time in milliseconds; EXPIRE counts seconds and PEXPIRE milliseconds from the replay |
| `Words.AnyCase` | include/kvllay/commands.hpp:81-90 | names may be spelled in any case |
| `Words.WrongLength` | include/kvllay/commands.hpp:1389-1760 | commands that take a fixed number of words are refused with any other |
| `Words.TooFew` | include/kvllay/commands.hpp:1083-1666 | so are the others with too few, or with pairs left incomplete |
| `Replay.Dispatch` | include/kvllay/commands.hpp:91-323 | what a command does to the live view and to the queue of waiting clients, and what is appended to the log |
| `Replay.ReplayCommand` | include/kvllay/aof.hpp:488-671 | what a logged command does to the store it is replayed on |
| `Replay.LogReplays` | include/kvllay/commands.hpp:121-322 | log-replay simulation: from agreeing stores, any fair requests on one and the replay of their log on the other end in agreement: same keys, same values, same wall-clock deadlines but for those set by SET EX, SET PX or SETEX |
| `Replay.RequestMirrored` | include/kvllay/commands.hpp:313-322 | one request and the replay of its log entry keep two stores in agreement |
| `Replay.UnloggedMirrored` | include/kvllay/commands.hpp:121-130 | a request that logs nothing needs no replay |
| `Replay.UnloggedSame` | include/kvllay/commands.hpp:448-701 | a write that is not logged has changed nothing |
| `Replay.LoggedAgrees` | include/kvllay/commands.hpp:1389-1437 | an operation and the replay of its logged form act alike, EXPIRE and PEXPIRE being logged as PEXPIREAT |
| `Replay.ExpireAgrees` | include/kvllay/commands.hpp:1389-1437 | the logged wall-clock deadline restores the deadline whatever the clock of the new process |
| `Replay.PexpireatReplays` | include/kvllay/aof.hpp:565-572 | the logged PEXPIREAT is understood |
| `Replay.ZeroPopKeepsIff` | include/kvllay/commands.hpp:1668-1700 | LPOP k 0 is replayed as a pop of one, so the stores still agree if and only if the key was absent |
| `Replay.ZeroPopLoses` | include/kvllay/commands.hpp:1668-1700 | LPOP k 0 on a list of one element: the store keeps it and its log loses it |
| `Replay.BrpopKeepsIff` | include/kvllay/commands.hpp:753-773 | BRPOP is not logged, so the stores still agree if and only if the first of its keys that is present holds no list, or none is present |
| `Replay.BrpopKeeps` | include/kvllay/commands.hpp:753-773 | BRPOP k 0 on a list of one element: the store gives it away and its log keeps it |
| `Replay.PushKeepsIff` | include/kvllay/store.hpp:1631-1658 | a push is logged and the pop of the client it wakes is not, so the stores still agree if and only if it wakes none |
| `Replay.PushKeeps` | include/kvllay/store.hpp:1631-1658 | RPUSH k x with a client waiting on k: the store has handed x on and its log keeps it |
| `Replay.RelativeTightIff` | include/kvllay/commands.hpp:1083-1148 | the deadline of SET EX, SET PX and SETEX is restored exactly if and only if the command is replayed at the wall-clock time of its first execution |
| `Replay.RelativeLate` | include/kvllay/commands.hpp:1083-1148 | SETEX k 1 v replayed a millisecond later sets a deadline a millisecond later |
| `Replay.AgreementMeans` | include/kvllay/aof.hpp:488-671 | agreement is equality of keys and values, and of wall-clock deadlines outside the loose keys |
| `Rewrite.RewriteCarries` | include/kvllay/aof.hpp:367-447 | the rewrite is a correct compiler: replaying its program from nothing at any later time gives what the store has become by then, for all five kinds of value |
| `Rewrite.ProgramReplays` | include/kvllay/aof.hpp:379-447 | the program does exactly what restoring the dump would |
| `Rewrite.EntryReplays` | include/kvllay/aof.hpp:379-447 | entry by entry |
| `Rewrite.CreateReplays` | include/kvllay/aof.hpp:379-443 | the creating command of each kind of value rebuilds the value it lists |
| `Rewrite.WriteProgram` | include/kvllay/aof.hpp:379-447 | the file text is the printed program |
| `Rewrite.Load` | include/kvllay/aof.hpp:214-262 | load replays the commands of the stream, read after read, dropping what follows a refused command in the same read |
| `Rewrite.ReplayBuffer` | include/kvllay/aof.hpp:236-254 | its inner loop drains the buffer |
| `Rewrite.CarriedAgrees` | include/kvllay/aof.hpp:264-295 | before any deadline a store carried over agrees with the original |
| `Durability.RestartAfterCrash` | include/kvllay/aof.hpp:214-262 | in whatever way appends, background writes and safe flushes were interleaved, with the file cut at any byte and read in any pieces, the restarted store mirrors the live store after some prefix of its requests, and no request whose command had reached the file is missing when the file is whole; appends are in the order of execution |
| `Durability.AppendOrderMatters` | include/kvllay/commands.hpp:313-322 | two SETs of one key logged the other way round, which the code does not rule out between threads, restore the other value |
| `Durability.RestartAfterShutdown` | include/kvllay/aof.hpp:138-170 | after an orderly shutdown, in whatever way appends, background writes and safe flushes were interleaved, and though commands on different keys may have been appended in another order than that of execution, the file restores the final store |
| `Durability.RestartAfterRewrite` | include/kvllay/aof.hpp:264-486 | over every run of the writer with a rewrite that meets the condition of RewriteExactIff, whatever was appended before the dump, the new file, cut at any byte behind its compacted part, restores the store as it was at some time since the dump, and the final store when whole and the buffers are empty; appends since the dump are in the order of execution |
| `Durability.ShutdownAfterRewrite` | include/kvllay/aof.hpp:138-486 | such a run that ends in an orderly shutdown restores the final store, though commands on different keys may have been appended in another order |
| `Durability.PrefixRestores` | include/kvllay/aof.hpp:214-262 | a program and the beginning of a log behind it restore the store the log had then reached |
| `Durability.WholeRestores` | include/kvllay/aof.hpp:214-262 | a program and a whole log behind it, in order up to commands on different keys, restore the final store |
| `Reorder.Commute` | include/kvllay/aof.hpp:488-671 | logged commands that share no key may be replayed in either order |
| `Reorder.ReorderedReplays` | include/kvllay/aof.hpp:488-671 | a log in which any two commands that share a key keep their order replays the same |
| `Reorder.ReorderedSame` | include/kvllay/commands.hpp:313-322 | such a log holds the same commands as often |
| `Reorder.SameOrder` | include/kvllay/commands.hpp:313-322 | the order of execution is one of those orders |
| `Durability.RewriteAndLoad` | include/kvllay/aof.hpp:264-486 | the same on store objects: dump, compile, print, read in chunks, parse, replay |
| `Durability.ReadChunks` | include/kvllay/aof.hpp:224-234 | the file arrives in chunks of 65536 bytes and nothing is lost |
| `Snapshot.SaveAndLoad` | include/kvllay/snapshot.hpp:160-581 | saving a store and loading the file elsewhere at any later time succeeds and gives what the store has become by then |
| `Snapshot.BurstRejected` | include/kvllay/snapshot.hpp:191-200 | a saved file changed only within four consecutive body bytes fails the checks |
| `Snapshot.FileReadBack` | include/kvllay/snapshot.hpp:442-542 | a saved file is accepted and read back entry by entry |
| `Snapshot.OldFileReadBack` | include/kvllay/snapshot.hpp:212-239 | a file of the first version, with strings only and no type bytes, is accepted and read back too |
| `Snapshot.Save` | include/kvllay/snapshot.hpp:442-542 | the file is the format followed by the checksum of exactly that, though computed piece by piece |
| `Snapshot.Load` | include/kvllay/snapshot.hpp:160-381 | nothing is restored from a file that fails the checks, else every entry up to the first malformed one |
| `Snapshot.Writer.constructor` | include/kvllay/snapshot.hpp:456-457 | the running checksum starts as that of nothing |
| `Snapshot.Writer.WriteData` | include/kvllay/snapshot.hpp:458-464 | the running checksum stays that of all bytes written |
| `Snapshot.ReadEntryBack` | include/kvllay/snapshot.hpp:240-373 | each entry is read back and the cursor ends behind it |
| `Snapshot.ReadPartsBack` | include/kvllay/snapshot.hpp:270-362 | so are counted lists of elements, fields, members and scores |
| `Snapshot.LeRoundTrip` | include/kvllay/snapshot.hpp:204-210 | little-endian words are read back |
| `Snapshot.CrcRoundTrip` | include/kvllay/snapshot.hpp:192-200 | so is the checksum word |
| `Crc.Update` | include/kvllay/snapshot.hpp:54-61 | the table-driven loop computes the bit-by-bit CRC-32 of section 8 of RFC 1952 |
| `Crc.BuildTable` | include/kvllay/snapshot.hpp:38-49 | the table holds the CRC of every byte |
| `Crc.Crc32Concat` | include/kvllay/snapshot.hpp:458-464 | updating piece by piece is one update of the whole |
| `Crc.FeedInjective` | include/kvllay/snapshot.hpp:54-61 | different states stay different over any data |
| `Crc.FourBytesInjective` | include/kvllay/snapshot.hpp:54-61 | different groups of four bytes lead one state to different ones |
| `Crc.BurstDetected` | include/kvllay/snapshot.hpp:191-200 | changing four consecutive bytes changes the checksum |
| `Crc.CheckValue` | include/kvllay/snapshot.hpp:38-61 | the checksum of the digits 1 to 9 is 0xCBF43926, the check value of CRC-32 |
| `Resp.PrintParse` | include/kvllay/resp.hpp:167-174 | parsing a printed command followed by any bytes returns it and consumes exactly its length |
| `Resp.PrefixIncomplete` | include/kvllay/resp.hpp:189-284 | every proper prefix of a printed command is incomplete |
| `Resp.ParseStable` | include/kvllay/resp.hpp:189-284 | a verdict on a buffer that starts with a star is not changed by later bytes |
| `Resp.SuccessLocal` | include/kvllay/resp.hpp:220-284 | a complete array command is recognised from its own bytes |
| `Resp.InlineFinalIff` | include/kvllay/resp.hpp:286-292 | an inline command's verdict is final if and only if its line ends in CRLF |
| `Resp.SuccessStays` | include/kvllay/resp.hpp:189-292 | a complete command stays complete whatever follows, in either form |
| `Resp.PrintInjective` | include/kvllay/resp.hpp:101-119 | no printed command is the beginning of another's text |
| `Grammar.ArrayIff` | include/kvllay/resp.hpp:220-284 | the array parser is the exact reader of a grammar: it accepts a prefix of the buffer, as these words, if and only if that prefix spells a count and as many bulk strings with their lengths |
| `Inline.LineReadBack` | include/kvllay/resp.hpp:286-345 | a line of words, bare or in double quotes with escapes, is read back word by word up to its CRLF, whatever follows |
| `Inline.NegativeRead` | include/kvllay/resp.hpp:220-284 | a negative length stands for an empty word and a negative count for a command without words |
| `Resp.Array` | include/kvllay/resp.hpp:167-174 | the printer writes the RESP2 array of bulk strings |
| `Resp.ParseRespArray` | include/kvllay/resp.hpp:220-284 | the array parser's loop and its cursor |
| `Resp.Parser` | include/kvllay/resp.hpp:189-203 | which of the two parsers a buffer goes to |
| `Stream.DrainAppend` | include/kvllay/event_loop.hpp:522-557 | draining a buffer can be stopped anywhere and resumed with more bytes |
| `Stream.LoadedAnyCut` | include/kvllay/aof.hpp:214-262 | a log cut off inside its last command and read in any pieces yields exactly the complete commands |
| `Stream.LoadedIsDrain` | include/kvllay/aof.hpp:227-258 | a file that is nowhere refused is read the same however it is cut |
| `Stream.CorruptionIgnoredIff` | include/kvllay/aof.hpp:248-257 | of a file with a refused command every cut replays just the commands before it if and only if at no place behind the bytes that get it refused a command can be read |
| `Stream.CorruptionInChunksIff` | include/kvllay/aof.hpp:224-257 | for the reads load makes: just the commands before the refused one are replayed if and only if what follows the read in which it is refused would replay nothing as a file of its own, as when nothing follows |
| `Stream.LoadedRestarts` | include/kvllay/aof.hpp:248-257 | for any reads: behind the read in which a command is refused load starts afresh |
| `Stream.CorruptionResumed` | include/kvllay/aof.hpp:224-257 | a file of more than 65536 bytes whose first read is refused and whose next one is replayed, though nothing is replayed of it when read at once |
| `Connection.FramingIndependent` | include/kvllay/event_loop.hpp:522-557 | a connection's state, output and unread bytes do not depend on how the stream was cut into reads |
| `Connection.FramingOfPrinted` | include/kvllay/event_loop.hpp:522-557 | printed commands with a truncated tail are dispatched exactly, in order, for any cut |
| `Connection.RunReachesHandler` | include/kvllay/event_loop.hpp:405-495 | until the password has been given the handler sees AUTH and HELLO only; from there on the commands that reach it are those outside MULTI plus each EXECuted queue in order; discarded ones never do, and no queue exceeds 32768 |
| `Connection.ServeIsRun` | include/kvllay/event_loop.hpp:522-548 | the read loop executes the drained commands as a run of the session |
| `Connection.Connection.constructor` | include/kvllay/event_loop.hpp:303-306 | a new connection |
| `Connection.Connection.DispatchConnectionCommand` | include/kvllay/event_loop.hpp:405-495 | MULTI, EXEC, DISCARD, QUIT and the password gate, as the session specification says |
| `Connection.Connection.ExecQueue` | include/kvllay/event_loop.hpp:455-475 | the queue runs in order and is emptied; `TransactionSends` says what is sent |
| `Connection.TransactionSends` | include/kvllay/event_loop.hpp:405-495 | MULTI, n commands and EXEC, n up to 32768, send +OK, n times +QUEUED, the header of an array of n and the n replies of the handler in order, byte for byte |
| `Connection.DiscardSends` | include/kvllay/event_loop.hpp:440-451 | with DISCARD the last answer is +OK and nothing is executed |
| `Connection.GateAnswers` | include/kvllay/event_loop.hpp:405-426 | what is sent for an empty command, for QUIT and before the password has been given, in its words, with nothing executed |
| `Connection.PasswordGate` | include/kvllay/event_loop.hpp:405-426 | before the password has been given AUTH and HELLO reach the handler, and every other command but QUIT is refused, in its words |
| `Connection.PlainIff` | include/kvllay/event_loop.hpp:405-490 | the commands queued inside MULTI are all but QUIT, MULTI, DISCARD, EXEC and the empty one |
| `Connection.ServeStops` | include/kvllay/event_loop.hpp:522-548 | a refused command is answered once and closes the connection, and QUIT closes it with what follows unread |
| `Connection.MisplacedAnswers` | include/kvllay/event_loop.hpp:428-490 | likewise for EXEC and DISCARD without MULTI, a nested MULTI and a full queue |
| `Connection.ArityAnswers` | include/kvllay/event_loop.hpp:428-458 | and for MULTI, EXEC and DISCARD with arguments |
| `Connection.Connection.ParseLoop` | include/kvllay/event_loop.hpp:522-548 | the loop over the receive buffer |
| `Connection.Connection.Compact` | include/kvllay/event_loop.hpp:550-557 | compaction never touches unread bytes |
| `Connection.Connection.HandleRead` | include/kvllay/event_loop.hpp:497-585 | the arrived bytes are served; no output is lost if and only if the send makes progress or would block |
| `Connection.Connection.SendBatch` | include/kvllay/event_loop.hpp:559-582 | likewise for one batch of replies |
| `Connection.Connection.HandleWrite` | include/kvllay/event_loop.hpp:372-399 | sent and unsent bytes together stay the whole output, in order |
| `Connection.Connection.ProcessAsync` | include/kvllay/event_loop.hpp:320-338 | delivered replies join the output behind what is already waiting |
| `Glob.GlobMatch` | include/kvllay/constants.hpp:128-149 | the backtracking loop terminates with the answer of its specification |
| `Glob.AnswerComplete` | include/kvllay/constants.hpp:128-149 | for a value without a star, or a pattern without one, the answer is the documented meaning, both ways |
| `Glob.AnswerSound` | include/kvllay/constants.hpp:128-149 | a positive answer is always right |
| `Glob.PlainMeaning` | include/kvllay/constants.hpp:128-149 | the documented meaning of a pattern without a star: the same length, and every byte the same or a question mark |
| `Glob.StarMeaning` | include/kvllay/constants.hpp:128-149 | and of one with a star: what is before it matches the beginning, and what is behind it matches from some place on |
| `Glob.ValueIsSafeIffStarFree` | include/kvllay/constants.hpp:134-134 | a value is matched correctly by every pattern if and only if it holds no star |
| `Glob.RouteIsGlob` | include/kvllay/store.hpp:2142-2219 | each fast path of KEYS keeps exactly the keys the documented meaning accepts |
| `Glob.RouteSound` | include/kvllay/store.hpp:2142-2219 | no path keeps a key it refuses |
| `Glob.MatchRoute` | include/kvllay/store.hpp:2142-2219 | the tests of the paths |
| `Bytes.FromCharsSigned` | include/kvllay/store.hpp:2664-2667 | a printed 64-bit number is read back |
| `Formats.NumbersPrinted` | include/kvllay/resp.hpp:101-119 | numbers are printed in decimal, most significant digit first |
| `Formats.CommandPrinted` | include/kvllay/resp.hpp:101-119 | a command of three words, byte for byte, for all words |
| `Formats.HashValues` | include/kvllay/store.hpp:2695-2702 | the published 64-bit FNV-1a values of nothing and of `a`, and the shard of `a` |
| `Formats.Charges` | include/kvllay/store.hpp:257-281 | what an entry of each kind is charged, in bytes, for all keys and contents of one or two parts |
| `Formats.EntrySaved` | include/kvllay/snapshot.hpp:442-542 | the bytes of a saved entry of each kind, for all short keys and parts |
| `Formats.EmptySaved` | include/kvllay/snapshot.hpp:442-542 | the bytes of a snapshot of nothing, and the byte order of its checksum |
| `Formats.FirstRead` | include/kvllay/aof.hpp:224-234 | the log is read 65536 bytes at a time |

## Left out

- Sockets, epoll, signals, threads, fsync and rename mechanics: a file is a byte string, a rename replaces it at once, and one step of a lock-protected section is atomic.
- Memory orderings, data races inside a section, and condition-variable timing.
- 64-bit wrap of `now + ttl`, of a number of seconds times 1000 in SETEX, and of the memory counter: clocks, deadlines and byte counts are unbounded.
- Each operation reads the clock once; the code sometimes reads it a second time before a lazy deletion.
- Access stamps (`touch`): the eviction loop takes the stamps as a parameter, and is proved for all stamps and deadlines below the initial search value 2^64 - 1.
- The read-only operations `key_type`, `llen`, `lrange`, `lindex`, `hget`, `hmget`, `hkeys`, `hvals`, `hlen`, `hexists`, `hgetall`, `smembers`, `zrangebyscore` and `zscore`: they would add easy members only. `get_and_append`, `mget_and_append`, `lpop_one` and `rpop_one` are their plain counterparts with the reply printed.
- The text of `%.17g` and `std::stod`: what is printed for a score and what is read from a text are parameters, with the hypothesis that a printed score reads back.
- Replies of command handlers as bytes, AUTH, HELLO, CLIENT, CONFIG, INFO and pub/sub; only which commands write and what is logged.
- `Replay.LogReplays`: deadlines set by SET EX, SET PX and SETEX start again on replay, as the code logs them (`Replay.RelativeTightIff`); commands refused or keys evicted for lack of memory are outside it.
- `Durability.RestartAfterRewrite`: needs the exactness condition of `AofLog.RewriteExactIff`, because the code has no rewrite buffer; for runs that miss it `AofLog.RewriteCarriesIff` says which commands are lost or repeated, but not what the store restored from such a file looks like.
- `Durability.RestartAfterCrash`: commands that are appended in another order than they were executed in are outside it; for an orderly shutdown (`Durability.RestartAfterShutdown`, `Durability.ShutdownAfterRewrite`) only those that share a key are.
- `Waiters.RunConserves`: lists with deadlines are outside it, since their elements can vanish by expiry; `Waiters.RunEvents` follows them all the same.
- Progress of BRPOP beyond `Waiters.PushSleepsIff` and `Waiters.RegisterSleepsIff`: a DEL of a key of another type can also leave a client waiting beside a list. The condition-variable fallback `brpop` is not modelled.
- The inline command parser has no framing theorem, because its result depends on later bytes; `Resp.InlineFinalIff` says when.
- `Locks.Serializable`: takes the time a command runs at as part of the command, so an expired key is erased or hidden by the function the command applies; FLUSHDB, KEYS and DBSIZE, which take the shard locks one after the other, are no transactions and outside it.
- The receive loop of `handle_read`: the bytes it has collected are a parameter.
- Loading a snapshot and a log together at start: the code applies one on top of the other without a common position.
- Restoring at several clock readings: a snapshot or log is loaded at one reading, but `Replay.LogReplays` allows a different one for every command.
- The `to_remove` case of a TTL index entry without a table entry: the invariant excludes it.
- Allocation failures, for example for a huge declared array length.
