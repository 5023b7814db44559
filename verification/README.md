# A verified model of the Redis 2.6.7 server core

This project models the parts of the vendored Redis server (`Redis/mac_linux/src`) that transform, store
and ship data, and proves what they are for. Routines that change things in place are methods on arrays and
classes; each is proved against a specification function, and the theorems are about those functions, over
all inputs or all runs. `dafny verify dfyconfig.toml` checks everything.

## What is modelled, and the main results

* **LZF codec** (`Lzf*`). The compressor back-patches run headers, uses a hash table that holds arbitrary
  addresses and compares up to 16 octets beyond its bound; the decompressor copies overlapping stretches.
  The format is a language of tokens. Whatever `Compress` returns, if it is not 0, decodes to exactly the
  input, for every output size; sizes and writes stay within the documented bounds; every repeat that the
  table knows of is used (`LzfCompress.Compress`, `LzfDecompress.Decompress`, `LzfFormat.DecodeSerialized`,
  `LzfSearch.EqualMoves`).
* **Partial quicksort** (`PqSort`, `Permutations`). Fat-pivot partition, the switch to insertion sort and
  range pruning: `PqSort.Pqsort` leaves in the requested range what a full sort puts there.
* **Dictionary** (`Dict*`). Two tables, one rehash step per operation, safe iterators.
  `DictRuns.BehavesLikeMap`: indistinguishable from a map in every run. `DictIterRuns.SafeIteration`: no entry
  twice, none missed. `DictRuns.GrowthBounded`, `DictLaws`: growth, load and the pace of a rehash.
* **Append only persistence** (`Keyspace*`, `Aof*`). Commands, with a law for each that says what every key
  holds afterwards (`KeyspaceLaws`), lazy and active expiry, feeding with forced SELECT and absolute expiries,
  flush, fork, swap, switching on and off, as a state machine on typed commands (`AofMachine.AlwaysSafe`,
  `RestartExact`, `SwapLosesNothing`, `AofLaws.FlushedIsDurable`), a class whose methods make exactly its
  transitions (`AofServer`), and the octets: printer, loader, truncated files, block list, rewrite loops
  (`AofRestart.RestartFromOctets`, `AofFile.FrontLoads`, `AofEmit.RewriteAppendOnlyFile`).
* **Snapshots** (`Rdb*`, `Decimal`, `Endian`, `Rio`). Length, integer, compressed and verbatim forms
  (`RdbFormat.StringRoundTrip`), objects, whole files (`RdbSnapshot.SnapshotRoundTrip`), damaged and
  cut files (`RdbLaws.DamageRefused`, `TruncatedRefused`), with writer and loader as methods on a stream
  (`RdbFile`).
* **CRC-64** (`Crc64`). The literal table divides by the polynomial; differences within eight octets are
  always detected.
* **Integer sets** (`Intset`). Sorted numbers packed in octets, with binary search, overlapping moves and
  back-to-front widening, as a set of 64-bit numbers.
* **Request parser** (`Resp`, `Query*`). `QueryRuns.FragmentsReassemble`: any fragmentation of a printed
  stream of commands gives back exactly the commands; `QueryLaws`: inline lines execute exactly their words,
  and what breaks the protocol closes the connection.
* **Reply queue** (`Reply*`). Conservation is the class invariant of `ReplyClient.RedisClient`: octets sent,
  then the unsent static buffer, then the unsent list are all replies in order, with missing counts as holes.
* **WATCH, MULTI and EXEC** (`Watch*`). The two-way index is always inverse; `WatchLaws.ExecIffUntouched`
  says over every interleaving what EXEC does and when.
* **48-bit generator** (`Rand48`). Limb arithmetic against the recurrence of `lrand48` in the drand48() entry
  of POSIX.1-2008, System Interfaces.

## Where the code does not do what it promises

* A rewrite that meets a key past its expiry writes its value and skips only its PEXPIREAT
  (`aof.c:903-907`): the restarted server has a persistent key. `AofRewrite.RewriteExactlyWhenFresh` gives the
  exact condition, `AofRewrite.StaleKeyBecomesPersistent` an instance; `AofMachine.AlwaysSafe` holds
  unconditionally up to such expiries, and `AofMachine.RestartExact` is exact whenever no rewrite met one.
* MOVE changes two keys and touches neither (`db.c:399-440`), and neither lazy nor background expiry touches
  the key it deletes (`db.c:503-529`, `redis.c:664-675`), so that a transaction on a watched key that was
  moved away or expired is executed. `WatchRuns.ChangesUntouched` says exactly when a command changes a value
  it does not touch; `WatchEscapes.MoveEscapes`, `ExpiryEscapes`, `GetEscapes` and `ActiveExpiryEscapes` say,
  for every reachable world, that the watching client stays unmarked, and `DeceivedExecutes` that its EXEC
  applies the queue; the three examples beside them are runs from the start that end so.
  `WatchLaws.ExecIffUntouched` says what EXEC does guarantee.
* EXPIRE and PERSIST find a key whose time has passed, as long as nobody has looked it up since
  (`db.c:552`, `db.c:628`), and bring it back: `KeyspaceLaws.StaleKeyRevived`; every other command treats it as
  absent, as their laws say (DEL removes it and counts it).

## Conventions

Octets are integers from 0 to 255 (`Bytes`), C integers carry their wrap-around explicitly where it
matters, and clocks, dictionary visits, hash functions and what a network write accepts are parameters. The
clock stands still within one command. Addresses in the compressor are 64-bit numbers, the input lying
neither in the first 8192 octets of memory nor across its end. Classes keep `adlist` lists and sds strings
as sequences.

## Model

| member | source | states |
|---|---|---|
| LzfFormat.CopyFrom | Redis/mac_linux/src/lzf_d.c:133-143 | an octet-by-octet forward copy inside one buffer only appends: the earlier data stay at the front and exactly n octets are added, also when source and target overlap |
| LzfFormat.CopyFromRepeats | Redis/mac_linux/src/lzf_d.c:133-143 | in the result of an overlapping copy every new octet equals the one a fixed distance before it, whether or not that one was itself just written |
| LzfFormat.CopyFromReproduces | Redis/mac_linux/src/lzf_d.c:133-143 | copying a stretch that a text repeats at that distance reproduces the text, even when the stretch overlaps itself |
| LzfFormat.DecodeFrom | Redis/mac_linux/src/lzf_d.c:55-149 | on arbitrary octets the decoder ends, and data it yields start with what was there, grow, and never exceed the output buffer |
| LzfFormat.DecodeToken | Redis/mac_linux/src/lzf_d.c:64-146 | wherever a token stands in the input, the decoder undoes exactly it and goes on behind it, or reports that the output is too small |
| LzfFormat.DecodeSerialized | Redis/mac_linux/src/lzf_d.c:55-149 | decoding a serialised token sequence gives what the tokens mean if and only if the output buffer can hold it, and E2BIG otherwise |
| LzfFormat.SerializedRepresents | Redis/mac_linux/src/lzf_c.c:98-294 | a serialised token sequence is a compressed form of what it means, for every size of output buffer |
| LzfFormat.RepresentsUnique | Redis/mac_linux/src/lzf_c.c:98-294 | compressed forms are unambiguous: no octets are a compressed form of two different texts |
| LzfFormat.TruncatedInvalid | Redis/mac_linux/src/lzf_d.c:76-129 | input that ends in the middle of a token is reported as malformed, whatever precedes it |
| LzfFormat.FarReferenceInvalid | Redis/mac_linux/src/lzf_d.c:120-131 | so is a reference to something before the beginning of the data |
| LzfSearch.NextSlot | Redis/mac_linux/src/lzf_c.c:46-59 | the rolling hash value gives, at every position, the slot of the three octets there, whatever passed through it before |
| LzfSearch.EqualMoves | Redis/mac_linux/src/lzf_c.c:142-275 | under the rule by which the compressor moves, a run of equal octets has literals only among its first two and last four octets, and all its references but the last are 264 octets long |
| LzfSearch.EqualSmall | Redis/mac_linux/src/lzf_c.c:142-275 | so n equal octets take about 3n/264 octets, however far the compressor has come |
| LzfCompress.RoomUsed | Redis/mac_linux/src/lzf_c.c:173-177 | inside a literal run the output is never further ahead of the input than one octet in 32 and the open header |
| LzfCompress.StopRun | Redis/mac_linux/src/lzf_c.c:173-174 | back-patching the reserved header turns the open run into a finished token; the header of an empty run is taken back |
| LzfCompress.PutLiteral | Redis/mac_linux/src/lzf_c.c:266 | one more literal keeps the open run a correct account of the input |
| LzfCompress.PutReference | Redis/mac_linux/src/lzf_c.c:211-224 | a reference to a stretch that repeats earlier input accounts for exactly that stretch |
| LzfCompress.MatchLength | Redis/mac_linux/src/lzf_c.c:168-209 | the unrolled loop finds at least three repeating octets, at most 264, never beyond the input although the first 16 comparisons are not bounded one by one, and stops early only at a difference |
| LzfCompress.EmitReference | Redis/mac_linux/src/lzf_c.c:214-224 | the two- and three-octet forms of a reference are written, and nothing else changes |
| LzfCompress.CopyLiteral | Redis/mac_linux/src/lzf_c.c:263-272 | a literal enters the run, which is closed at 32 octets; both loop invariants (correct account, size bound) are kept and nothing beyond the announced output is touched |
| LzfCompress.EndRun | Redis/mac_linux/src/lzf_c.c:290-291 | ending a run leaves whole tokens only |
| LzfCompress.PutMatch | Redis/mac_linux/src/lzf_c.c:167-229 | a match is emitted or the output is found too small; in both cases writes stay inside the buffer and the account stays correct |
| LzfCompress.DistanceIdentifies | Redis/mac_linux/src/lzf_c.c:149-157 | whatever address the uninitialised table held: a distance in range and an address after the start of the input identify an earlier position of the input |
| LzfCompress.CopyTail | Redis/mac_linux/src/lzf_c.c:276-293 | the last one or two octets and the last header fit, and the whole input is accounted for |
| LzfCompress.Compress | Redis/mac_linux/src/lzf_c.c:98-294 | for every input, every content of the hash table and every output size: n = 0, or the first n octets are a compressed form of exactly the input; n never exceeds in_len + in_len/32 + 1, no octet beyond out_len + 1 is written, and an output of four octets more than that bound always suffices. The form follows the rule that an octet becomes a literal only if the position last entered with its slot cannot be referred to, and that references are as long as they can be; 0 is returned only when a front of such a form leaves no room; n >= 25 equal octets are always compressed into 3(n+261)/264 + 12 octets when the output is at most four octets shorter |
| LzfCompress.LiteralSearched | Redis/mac_linux/src/lzf_c.c:263-266 | an octet becomes a literal only if the table gives nothing that could be referred to, and its position is entered |
| LzfCompress.MatchSearched | Redis/mac_linux/src/lzf_c.c:149-229 | a match follows the rule, and its position is entered |
| LzfCompress.EnterLastTwo | Redis/mac_linux/src/lzf_c.c:231-261 | after a reference its last two positions are entered, and the hash value is that of the position behind it |
| LzfCompress.TakeMatch | Redis/mac_linux/src/lzf_c.c:160-261 | a round with a match keeps the account, the bound, the rule and the table, or there is no room |
| LzfCompress.TakeLiteral | Redis/mac_linux/src/lzf_c.c:262-275 | so does a round without one |
| LzfCompress.EqualCompressed | Redis/mac_linux/src/lzf_c.c:98-294 | equal octets never exhaust an output that is at most four octets shorter, and their form is small |
| LzfDecompress.CopyReference | Redis/mac_linux/src/lzf_d.c:133-143 | the overlapping byte loop is the forward copy of the specification |
| LzfDecompress.ExpandRun | Redis/mac_linux/src/lzf_d.c:68-93 | a literal run is expanded, or E2BIG or EINVAL is reported, as the specification says |
| LzfDecompress.ExpandReference | Redis/mac_linux/src/lzf_d.c:94-144 | a back reference is expanded, or E2BIG or EINVAL is reported, as the specification says |
| LzfDecompress.Decompress | Redis/mac_linux/src/lzf_d.c:55-149 | on arbitrary non-empty input the decoder terminates inside both buffers and yields exactly what the specification decodes, or 0 with the right errno; octets behind the result are unchanged |
| PqSort.Med3 | Redis/mac_linux/src/pqsort.c:89-97 | the result is one of the three positions |
| PqSort.Med3IsMedian | Redis/mac_linux/src/pqsort.c:89-97 | the element chosen lies between the elements of the other two positions |
| PqSort.PivotPosition | Redis/mac_linux/src/pqsort.c:116-127 | the pivot (middle, median of three, median of medians) lies inside the stretch, for every length from 7 on |
| PqSort.SettledRank | Redis/mac_linux/src/pqsort.c:99-197 | an element with nothing greater before it and nothing smaller after it is equivalent to the element at that position of every sorted rearrangement |
| PqSort.InsertionSort | Redis/mac_linux/src/pqsort.c:156-162 | insertion sort sorts the stretch, moves only elements of the stretch and keeps everything else in place |
| PqSort.Sink | Redis/mac_linux/src/pqsort.c:110-113 | the inner loop moves one element down to its place among sorted ones |
| PqSort.SplitZones | Redis/mac_linux/src/pqsort.c:129-155 | the two-pointer loop ends with five zones (equal, below, above, equal) around the pivot; a round that swapped nothing changed nothing |
| PqSort.ScanUp | Redis/mac_linux/src/pqsort.c:133-140 | passing over elements not above the pivot keeps the zones and gathers equal ones on the left |
| PqSort.ScanDown | Redis/mac_linux/src/pqsort.c:141-148 | passing down over elements not below the pivot keeps the zones and gathers equal ones on the right |
| PqSort.Exchange | Redis/mac_linux/src/pqsort.c:151-154 | swapping a too great and a too small element extends both zones |
| PqSort.VecSwap | Redis/mac_linux/src/pqsort.c:87 | vecswap exchanges two blocks and nothing else |
| PqSort.ZonesExchanged | Redis/mac_linux/src/pqsort.c:164-168 | exchanging as many elements as the shorter of two adjacent zones holds, at the outer ends, exchanges the zones |
| PqSort.Merge | Redis/mac_linux/src/pqsort.c:164-168 | after both vecswaps the stretch reads: below, equal, above |
| PqSort.PartitionStep | Redis/mac_linux/src/pqsort.c:107-168 | a round either sorts the stretch outright or leaves it partitioned around a pivot that is not empty |
| PqSort.PrunedExactly | Redis/mac_linux/src/pqsort.c:170-185 | the address test before a recursive call means exactly that the stretch holds no requested position |
| PqSort.PartitionDone | Redis/mac_linux/src/pqsort.c:169-187 | once the left part is settled, everything up to the right part is, including the pivots |
| PqSort.SortRange | Redis/mac_linux/src/pqsort.c:99-189 | recursion on the left and iteration on the right terminate with a rearrangement of the stretch alone in which every requested position is settled |
| PqSort.SettledRanked | Redis/mac_linux/src/pqsort.c:191-197 | settled in the whole array means: of the rank that a full sort puts there |
| PqSort.Pqsort | Redis/mac_linux/src/pqsort.c:191-197 | for every total preorder and l <= r < n: a permutation in which every position in l..r holds an element of the rank a full sort puts there, with nothing greater before it and nothing smaller after it |
| Permutations.CountAll | Redis/mac_linux/src/pqsort.c:191-197 | a rearrangement keeps the number of elements with any property, which ties positions to ranks |
| DictModel.ScanStops | Redis/mac_linux/src/dict.c:243-280 | while a rehash has entries left, the scan for the next non-empty bucket stops inside the old table |
| DictModel.StepFinds | Redis/mac_linux/src/dict.c:243-280 | a rehash step changes where entries are and nothing else: the same entry is found for every key, in one table only, and the counts stay exact |
| DictModel.StepValid | Redis/mac_linux/src/dict.c:243-280 | a rehash step keeps the invariant (unique keys, each entry in its bucket, buckets below the cursor empty, exact counts, distinct addresses) |
| DictOps.StepIfFree | Redis/mac_linux/src/dict.c:309-311 | the step taken by every operation, suspended by safe iterators, keeps the invariant, the size and every answer |
| DictOps.ExpandValid | Redis/mac_linux/src/dict.c:608-628 | expansion never fails where it is called, keeps the invariant and every answer, and leaves a table to insert into |
| DictOps.AddValid | Redis/mac_linux/src/dict.c:338-361 | an addition keeps the invariant; it succeeds exactly for a new key, and then finds it |
| DictOps.AddRefines | Redis/mac_linux/src/dict.c:314-361 | whatever steps and expansion it takes on the way, dictAdd is the addition of an absent key to the map |
| DictOps.ReplaceRefines | Redis/mac_linux/src/dict.c:367-386 | dictReplace is the map update and tells whether the key was new |
| DictOps.FindRefines | Redis/mac_linux/src/dict.c:480-499 | dictFind finds exactly the map's value and leaves the map as it is |
| DictOps.DeleteRefines | Redis/mac_linux/src/dict.c:401-440 | dictDelete is the removal from the map and tells whether the key was there |
| DictOps.InitRepresents | Redis/mac_linux/src/dict.c:174-194 | a new dictionary is the empty map |
| DictOps.RehashRefines | Redis/mac_linux/src/dict.c:243-280 | a rehash step represents the same map |
| DictRuns.BehavesLikeMap | Redis/mac_linux/src/dict.c:210-499 | in every run of adds, replaces, finds, deletes, rehash batches and iterator registrations the two tables represent one map at every point and every answer is the map's |
| DictRuns.DoRefines | Redis/mac_linux/src/dict.c:210-499 | each single operation of such a run refines the map operation |
| DictRuns.NextPowerIsLeast | Redis/mac_linux/src/dict.c:631-641 | the new size is the least table size that is enough |
| DictRuns.AddSizes | Redis/mac_linux/src/dict.c:608-641 | an addition only ever allocates power-of-two tables from 4 on |
| DictRuns.MaskedThroughout | Redis/mac_linux/src/dict.c:210-499 | at every point of every run of adds, replaces, finds, deletes, rehash batches and iterator registrations, masking a hash value with the size of either table less 1 gives the bucket |
| DictRuns.MaskIsRemainder | Redis/mac_linux/src/dict.c:649-671 | for every table size, masking a hash value with size - 1 is taking its remainder |
| DictRuns.StepProgress | Redis/mac_linux/src/dict.c:243-280 | every rehash step brings the end of the rehash nearer |
| DictRuns.RehashEnds | Redis/mac_linux/src/dict.c:243-280 | a rehash over s buckets ends within s + 1 steps, with every entry in place |
| DictRuns.AddsEndRehash | Redis/mac_linux/src/dict.c:338-361 | additions alone finish a rehash: each takes one step, and until the end each adds at most one entry |
| DictRuns.GrowthBounded | Redis/mac_linux/src/dict.c:608-641 | a growth rehash begun with n entries in s buckets and driven by additions alone ends within s + 1 of them, with at most n + s + 1 entries, at most one more than the new table has buckets |
| DictLaws.FullGrows | Redis/mac_linux/src/dict.c:608-630 | an addition that finds the dictionary full, or six times full while resizing is to be avoided, starts to move it to a table at least twice as large as it has entries |
| DictLaws.LoadBounded | Redis/mac_linux/src/dict.c:608-630 | after an addition a dictionary that is not on the move has at most one entry a bucket on average, or six where resizing is to be avoided |
| DictLaws.EveryOperationSteps | Redis/mac_linux/src/dict.c:309-311 | without safe iterators every addition, replacement, deletion and search brings the end of a rehash nearer |
| DictLaws.PausedByIterators | Redis/mac_linux/src/dict.c:309-311 | with one, nothing is moved |
| DictIter.NextPops | Redis/mac_linux/src/dict.c:528-557 | dictNext takes exactly one entry away from what is ahead of the iterator, and returns it; at the end nothing is ahead |
| DictIterRuns.AddMutates | Redis/mac_linux/src/dict.c:338-361 | an addition under a safe iterator, even one that starts a rehash, keeps what is ahead of the iterator ahead and what is behind it behind |
| DictIterRuns.ReplaceMutates | Redis/mac_linux/src/dict.c:367-386 | so does a replacement |
| DictIterRuns.DeleteMutates | Redis/mac_linux/src/dict.c:401-436 | so does the deletion of any entry but the one saved as next |
| DictIterRuns.LastReturnedMayBeDeleted | Redis/mac_linux/src/dict.c:549-554 | the entry just returned is never the one saved as next, so that deleting it is always allowed |
| DictIterRuns.SafeIteration | Redis/mac_linux/src/dict.c:528-564 | with finds, additions, replacements and allowed deletions between calls: no entry is returned twice, and at the end every entry present at the first dictNext and not deleted has been returned |
| DictTable.Dictionary.MoveChain | Redis/mac_linux/src/dict.c:262-275 | the entries of a chain go to the heads of their new buckets, one by one, as in the specification |
| DictTable.Dictionary.RehashOne | Redis/mac_linux/src/dict.c:243-280 | one step on the arrays is the step of the specification |
| DictTable.Dictionary.DictRehash | Redis/mac_linux/src/dict.c:243-280 | n steps on the arrays are n steps of the specification, and the answer says whether more is to be moved |
| DictTable.Dictionary.DictExpand | Redis/mac_linux/src/dict.c:210-237 | refines the specified expansion, with its error cases |
| DictTable.Dictionary.DictExpandIfNeeded | Redis/mac_linux/src/dict.c:608-628 | refines the specified decision to expand |
| DictTable.Dictionary.DictNextPower | Redis/mac_linux/src/dict.c:631-641 | the doubling loop gives the specified size |
| DictTable.Dictionary.SearchTables | Redis/mac_linux/src/dict.c:649-671 | the search over one or two tables finds what the invariant says |
| DictTable.Dictionary.DictAdd | Redis/mac_linux/src/dict.c:314-361 | refines the specified addition on arrays of chains |
| DictTable.Dictionary.DictFindKey | Redis/mac_linux/src/dict.c:480-499 | refines the specified look-up |
| DictTable.Dictionary.DictDelete | Redis/mac_linux/src/dict.c:401-440 | refines the specified deletion |
| DictTable.Dictionary.DictReplace | Redis/mac_linux/src/dict.c:367-386 | refines the specified replacement |
| DictTable.Iterator.NextRound | Redis/mac_linux/src/dict.c:530-555 | one round of the loop is one step of the specified search for the next entry |
| DictTable.Iterator.DictNext | Redis/mac_linux/src/dict.c:528-557 | refines the specified dictNext; the first call, and no other, adds the iterator to those that the dictionary counts |
| DictTable.Iterator.Release | Redis/mac_linux/src/dict.c:559-564 | a used iterator gives its registration back, an unused one has none to give: the counter stays the number of registered iterators, so that it never falls below zero |
| WatchRuns.LookUpsExpire | Redis/mac_linux/src/db.c:503-529 | what a command looks up removes exactly the keys it finds expired, and no other value in any database |
| KeyspaceValid.BodyValid | Redis/mac_linux/src/db.c:116-639 | every command keeps: only existing keys expire, no negative expiry, no empty list, set or hash |
| KeyspaceLaws.SetLaw | Redis/mac_linux/src/t_string.c:45-71 | SET: the key holds the value and does not expire, and every other key of every database holds what it held |
| KeyspaceLaws.SetNxLaw | Redis/mac_linux/src/t_string.c:45-75 | SETNX: the same, but only where nothing is or what is there has expired; it counts as a change exactly then |
| KeyspaceLaws.SetExLaw | Redis/mac_linux/src/t_string.c:45-86 | SETEX and PSETEX: the value, until now plus the time to live, a second being 1000 ms; a time to live that is not positive is refused |
| KeyspaceLaws.ExpireLaw | Redis/mac_linux/src/db.c:542-584 | EXPIRE and its sisters: a key that is there gets the new time and keeps its value; a time not in the future deletes it and turns the command into a DEL, except while loading |
| KeyspaceLaws.PersistLaw | Redis/mac_linux/src/db.c:625-639 | PERSIST: the value stays, for ever |
| KeyspaceLaws.DelLaw | Redis/mac_linux/src/db.c:235-246 | DEL: exactly the keys named are gone; it counts as a change exactly if one was there |
| KeyspaceLaws.RenameLaw | Redis/mac_linux/src/db.c:358-389 | RENAME: the target holds the value and the expiry of the source, which is gone; the cases in which nothing happens, RENAMENX included |
| KeyspaceLaws.MoveLaw | Redis/mac_linux/src/db.c:399-440 | MOVE: the value leaves the selected database for another in which the key was not, and is persistent there; the cases in which nothing happens |
| KeyspaceLaws.RPushLaw | Redis/mac_linux/src/t_list.c:297-321 | RPUSH: the items go to the end, in order; expiry and other keys stay, a value of another kind is left alone |
| KeyspaceLaws.SAddLaw | Redis/mac_linux/src/t_set.c:250-272 | SADD: a member is whatever was one or is named; it counts as a change exactly if one was new |
| KeyspaceLaws.HMSetLaw | Redis/mac_linux/src/t_hash.c:496-514 | HMSET: every field named has the value given last, and the others stay |
| KeyspaceLaws.FlushLaw | Redis/mac_linux/src/db.c:209-233 | FLUSHDB empties the selected database, FLUSHALL all of them |
| KeyspaceLaws.ReadLaw | Redis/mac_linux/src/db.c:58-67 | GET deletes the key if its time has passed, and changes nothing else |
| KeyspaceLaws.ExpiredExactly | Redis/mac_linux/src/db.c:503-529 | a key expires by itself just when its time has passed, not at that very time and not while loading |
| KeyspaceLaws.StaleKeyRevived | Redis/mac_linux/src/db.c:552-583 | EXPIRE and PERSIST look a key up without asking whether its time has passed: one that is past its time but still there is given a new time, or none, and is found again |
| AofReplay.TranslatedAgrees | Redis/mac_linux/src/aof.c:354-382 | EXPIRE in its four forms, logged as an absolute PEXPIREAT or a DEL, and SETEX, logged as SET and PEXPIREAT, have on the loader the effect they had live |
| AofReplay.PlainAgrees | Redis/mac_linux/src/aof.c:384-432 | a command logged as it is has the same effect while loading, when nothing expires, as it had live after its look-ups |
| AofReplay.TrackChange | Redis/mac_linux/src/aof.c:384-432 | what is fed for a change, with a SELECT when the database differs, moves the loader in step with the live keyspace |
| AofReplay.TrackExpiry | Redis/mac_linux/src/db.c:486-529 | the DEL of an expired key, in its own database, does the same |
| AofReplay.CleanUnchanged | Redis/mac_linux/src/redis.c:1487-1544 | a command that does not count as a change is none: leaving it out of the log loses nothing |
| AofRun.TrackOne | Redis/mac_linux/src/redis.c:1469-1544 | call as a whole (look-ups with expiry, body, feed) keeps the loader in step |
| AofRun.TrackExec | Redis/mac_linux/src/multi.c:106-179 | so does EXEC, whose commands are logged between MULTI and EXEC |
| AofRewrite.LoadPieces | Redis/mac_linux/src/aof.c:602-702 | loading the pieces of at most 64 items adds all the items |
| AofRewrite.LoadObject | Redis/mac_linux/src/aof.c:602-829 | the commands for a list, set or hash rebuild exactly the object, whatever its size and in whatever order its elements are visited |
| AofRewrite.LoadRewrite | Redis/mac_linux/src/aof.c:838-937 | loading a rewritten log, at any time, rebuilds every database of the snapshot, except that keys past their expiry when the rewrite ran have lost it |
| AofRewrite.RewriteExactlyWhenFresh | Redis/mac_linux/src/aof.c:903-907 | a rewrite is exact if and only if no key is past its expiry when it runs |
| AofRewrite.StaleKeyBecomesPersistent | Redis/mac_linux/src/aof.c:903-907 | a concrete failure: one volatile key whose time has passed is written, and loaded, as a persistent key |
| AofMachine.InitSafe | Redis/mac_linux/src/aof.c:192-209 | an empty server with the log on is safe |
| AofMachine.FedSafe | Redis/mac_linux/src/aof.c:418-429 | what is appended to the buffer and to the rewrite buffer keeps both logs right |
| AofMachine.ForkSafe | Redis/mac_linux/src/aof.c:951-999 | after the fork the child's log and the empty rewrite buffer restore the snapshot, and the forced SELECT makes what follows independent of the database selected before |
| AofMachine.StepSafe | Redis/mac_linux/src/aof.c:384-1172 | every step (command, EXEC, expiry, flush, fork, child done, child failed, start, stop) keeps safety |
| AofMachine.AlwaysSafe | Redis/mac_linux/src/aof.c:384-1172 | over whole runs: while the log is on, loading file and buffer restores the keyspace; while a rewrite runs for a log that is on or being switched on, so does loading the child's file and the rewrite buffer (up to expiries that were past at the rewrite) |
| AofMachine.RestartExact | Redis/mac_linux/src/aof.c:384-1172 | in every run whose rewrites met no stale key, a restart at any time finds every database exactly as it was, values and absolute expiries |
| AofMachine.SwapLosesNothing | Redis/mac_linux/src/aof.c:1107-1150 | the swap drops the pending buffer, and the new file alone restores the keyspace; a log that was being switched on is on from then |
| AofLaws.CallLaw | Redis/mac_linux/src/redis.c:1487-1544 | a command has, with a log, the effect that it has without one |
| AofLaws.ExecLaw | Redis/mac_linux/src/multi.c:143-165 | a transaction has the effects of its commands, one after the other |
| AofLaws.ActiveExpireLaw | Redis/mac_linux/src/redis.c:664-675 | background expiry takes a key whose time has passed, and no other |
| AofLaws.FeedLaw | Redis/mac_linux/src/aof.c:384-416 | commands never write to the file themselves; while the log is off they leave no trace |
| AofLaws.FileGrows | Redis/mac_linux/src/aof.c:229-330 | what has been written stays written until a rewrite replaces the file |
| AofLaws.FlushedIsDurable | Redis/mac_linux/src/aof.c:165-330 | in every run whose rewrites met no stale key, right after a flush, or after the log was switched off, the file alone gives back every database exactly |
| AofLaws.RewriteInPieces | Redis/mac_linux/src/aof.c:604-830 | no command of a rewrite adds more than 64 items, and none is empty |
| AofServer.Server.FormatForLog | Redis/mac_linux/src/aof.c:388-416 | the commands appended are those of the specification, SELECT and translation included |
| AofServer.Server.FeedAppendOnlyFile | Redis/mac_linux/src/aof.c:384-432 | the state transition of feeding: buffer if the log is on, rewrite buffer if a child is at work |
| AofServer.Server.PropagateExpire | Redis/mac_linux/src/db.c:486-501 | an expired key goes to the log as a DEL in its database |
| AofServer.Server.ExpireKeyIfNeeded | Redis/mac_linux/src/db.c:503-529 | deletes the key exactly when its time has passed, and says so to the log |
| AofServer.Server.LookupKeyWrite | Redis/mac_linux/src/db.c:70-73 | the value of a key that has not expired |
| AofServer.Server.DeleteKey | Redis/mac_linux/src/db.c:158-167 | removes value and expiry, and tells whether the key was there |
| AofServer.Server.StoreKey | Redis/mac_linux/src/db.c:116-125 | the value is replaced and the key becomes persistent |
| AofServer.Server.SetGenericCommand | Redis/mac_linux/src/t_string.c:45-66 | SET, SETNX, SETEX and PSETEX make the specified transition |
| AofServer.Server.ExpireGenericCommand | Redis/mac_linux/src/db.c:542-584 | an expiry in the past deletes the key and rewrites the command vector to a DEL; otherwise the absolute time is stored |
| AofServer.Server.PersistCommand | Redis/mac_linux/src/db.c:625-639 | makes the specified transition |
| AofServer.Server.DelCommand | Redis/mac_linux/src/db.c:235-246 | deletes every key named, and counts as a change exactly if one existed |
| AofServer.Server.RenameGenericCommand | Redis/mac_linux/src/db.c:358-389 | value and expiry move to the new name; RENAMENX leaves an existing target alone; both look-ups may expire a key |
| AofServer.Server.MoveCommand | Redis/mac_linux/src/db.c:399-440 | the value moves to the other database, where the key becomes persistent, unless the key exists there |
| AofServer.Server.RpushCommand | Redis/mac_linux/src/t_list.c:297-321 | the items are appended in order |
| AofServer.Server.SaddCommand | Redis/mac_linux/src/t_set.c:250-272 | the members are added, and it counts as a change exactly if one was new |
| AofServer.Server.HmsetCommand | Redis/mac_linux/src/t_hash.c:496-514 | the fields are set, later ones winning |
| AofServer.Server.FlushdbCommand | Redis/mac_linux/src/db.c:209-215 | empties the database |
| AofServer.Server.FlushallCommand | Redis/mac_linux/src/db.c:217-233 | empties every database and always counts as a change |
| AofServer.Server.SelectCommand | Redis/mac_linux/src/db.c:257-269 | changes the client's database if the number is in range |
| AofServer.Server.Call | Redis/mac_linux/src/redis.c:1487-1544 | runs a command and feeds what it left in the command vector exactly if something changed: the Call transition of the machine |
| AofServer.Server.ExecCommand | Redis/mac_linux/src/multi.c:116-179 | a transaction that is not aborted makes the ExecTransaction transition |
| AofServer.Server.FlushAppendOnlyFile | Redis/mac_linux/src/aof.c:229-320 | the buffer goes to the file in one piece |
| AofServer.Server.RewriteAppendOnlyFileBackground | Redis/mac_linux/src/aof.c:951-999 | forks a child that writes the rewrite of what it visits, unless one is at work, and forgets the selected database |
| AofServer.Server.StartAppendOnly | Redis/mac_linux/src/aof.c:192-209 | a rewrite of what the child visits is started, unless one is at work, and the log waits for it |
| AofServer.Server.StopAppendOnly | Redis/mac_linux/src/aof.c:165-188 | flushes, switches the log off and drops a running rewrite |
| AofServer.Server.BackgroundRewriteDoneHandler | Redis/mac_linux/src/aof.c:1038-1172 | the new file is the child's with the rewrite buffer behind it; on failure the old one stays |
| Resp.CatAppendOnlyGenericCommand | Redis/mac_linux/src/aof.c:322-345 | appends exactly the multibulk form of the vector |
| RespStream.RioWriteBulkCount | Redis/mac_linux/src/rio.c:132-142 | writes exactly one count line |
| RespStream.RioWriteBulkString | Redis/mac_linux/src/rio.c:145-152 | writes exactly one bulk string |
| RespStream.RioWriteBulkLongLong | Redis/mac_linux/src/rio.c:155-161 | writes exactly the bulk string of the printed number |
| AofFile.LogLoads | Redis/mac_linux/src/aof.c:500-556 | the loader reads back exactly the vectors that were printed, for every log |
| AofFile.FrontLoads | Redis/mac_linux/src/aof.c:500-580 | a log that lost its tail at any octet is accepted exactly if it ends between two commands, and then gives exactly the whole commands |
| AofFile.GarbageRefused | Redis/mac_linux/src/aof.c:511-519 | behind whole commands nothing may stand that does not start with a star |
| AofFile.CountRefused | Redis/mac_linux/src/aof.c:520-530 | nor a command without arguments, nor one whose first argument is not announced with a dollar sign |
| AofFile.LoadAppendOnlyFile | Redis/mac_linux/src/aof.c:475-580 | the loader's loops with fgets, atoi and fread read what the specification reads, and fail where it fails |
| AofFile.ReadArg | Redis/mac_linux/src/aof.c:525-533 | one argument, or a fatal error, as specified |
| AofCodec.SpelledDistinct | Redis/mac_linux/src/redis.c:1448-1450 | no two commands are spelled alike, whatever the letter case |
| AofCodec.AnyCase | Redis/mac_linux/src/redis.c:1448-1450 | a name is found if and only if it is spelled with its letters, each in either case |
| AofCodec.CommandRoundTrip | Redis/mac_linux/src/aof.c:535-544 | a command survives its vector: name, arity and 64-bit numbers included |
| AofCodec.FileLoads | Redis/mac_linux/src/aof.c:475-580 | loading the octets of a log gives the keyspace that the typed commands give |
| AofRestart.RestartFromOctets | Redis/mac_linux/src/aof.c:384-580 | the restart theorem on octets, for every run whose commands and snapshots fit the formats: what is on disk and in the buffer restores every database, values and expiries |
| AofRestart.AlwaysFit | Redis/mac_linux/src/aof.c:384-416 | from what each step is given it follows that file, buffers and child log can be printed and read back, at the end of every run |
| AofRestart.StepKeepsFit | Redis/mac_linux/src/aof.c:384-416 | one step keeps that, forced SELECTs, translated expiries and the DELs of expired keys included |
| AofCodec.SelectPrinted | Redis/mac_linux/src/aof.c:390-397 | the SELECT printed by hand is the printed form of the SELECT command |
| AofCodec.CatAppendOnlyExpireAtCommand | Redis/mac_linux/src/aof.c:354-382 | appends the printed form of a PEXPIREAT at the absolute time in milliseconds |
| AofCodec.FeedOctets | Redis/mac_linux/src/aof.c:384-416 | what is appended is the printed form of exactly the commands that the machine feeds |
| AofBlocks.Block.Add | Redis/mac_linux/src/aof.c:96-105 | a piece that fits is added to what the block holds |
| AofBlocks.RewriteBuffer.Append | Redis/mac_linux/src/aof.c:89-126 | the blocks together hold the old contents and all the new data, with every block but the last one full |
| AofBlocks.RewriteBuffer.Size | Redis/mac_linux/src/aof.c:77-86 | counting all blocks but the last one as full gives the exact size |
| AofBlocks.RewriteBuffer.Write | Redis/mac_linux/src/aof.c:131-151 | what reaches the file is exactly the concatenation of all appends |
| AofEmit.EmissionIsPieces | Redis/mac_linux/src/aof.c:602-702 | written element by element, with counts announced beforehand, or as commands of at most 64 elements: the same octets, so that every announced count equals the arguments that follow |
| AofEmit.ObjectPrinted | Redis/mac_linux/src/aof.c:602-829 | what the loops write is the printed form of the commands that rebuild the object |
| AofEmit.RioWriteBulkObject | Redis/mac_linux/src/aof.c:588-598 | a string object, number or not, is written as its text |
| AofEmit.RewriteElements | Redis/mac_linux/src/aof.c:602-829 | the loops over list, set and hash elements write exactly those commands |
| AofEmit.RewriteKey | Redis/mac_linux/src/aof.c:873-912 | one key: its value, and its expiry unless that is past |
| AofEmit.RewriteAppendOnlyFile | Redis/mac_linux/src/aof.c:838-937 | the child's file is the printed form of the rewritten log |
| Decimal.ParseIffPrinted | Redis/mac_linux/src/util.c:244-305 | the parser accepts exactly the printed forms of 64-bit numbers |
| Decimal.Ll2string | Redis/mac_linux/src/util.c:220-239 | the number is printed canonically, LLONG_MIN included |
| Decimal.String2ll | Redis/mac_linux/src/util.c:244-305 | the loop with its overflow checks parses exactly the canonical forms |
| RdbFormat.LenRoundTrip | Redis/mac_linux/src/rdb.c:82-135 | a length in the 6-, 14- or 32-bit form is read back, wherever it stands |
| RdbFormat.IntegerRoundTrip | Redis/mac_linux/src/rdb.c:141-191 | a number in 1, 2 or 4 octets is read back as its decimal text |
| RdbFormat.CompressedRoundTrip | Redis/mac_linux/src/rdb.c:212-266 | a compressed string is read back, by the LZF theorem |
| RdbFormat.StringRoundTrip | Redis/mac_linux/src/rdb.c:270-359 | self-delimiting: wherever a string was saved, in whichever form, loading from there gives it back and stops exactly at its end |
| RdbStrings.RdbSaveLen | Redis/mac_linux/src/rdb.c:82-106 | writes the specified form of the length |
| RdbStrings.RdbLoadLen | Redis/mac_linux/src/rdb.c:111-135 | reads a length or an encoding, LENERR at the end of the file |
| RdbStrings.RdbEncodeInteger | Redis/mac_linux/src/rdb.c:141-161 | the smallest of three widths that holds the number, or none |
| RdbStrings.RdbLoadIntegerObject | Redis/mac_linux/src/rdb.c:166-191 | reads the number and gives its text |
| RdbStrings.Strtoll | Redis/mac_linux/src/rdb.c:196-210 | strtoll reads every canonical number to its end |
| RdbStrings.RdbTryIntegerEncoding | Redis/mac_linux/src/rdb.c:196-210 | a string is stored as a number only if the number prints as the same string |
| RdbStrings.RdbSaveLzfStringObject | Redis/mac_linux/src/rdb.c:212-247 | writes a compressed form of the string that is at least four octets shorter, or nothing, and nothing only if the compressor found no room in so many; 25 and more equal octets are always compressed |
| RdbStrings.RdbLoadLzfStringObject | Redis/mac_linux/src/rdb.c:249-266 | reads a compressed string, or fails as specified |
| RdbStrings.RdbSaveRawString | Redis/mac_linux/src/rdb.c:270-300 | one of the three forms of exactly this string is written, for every string below 2^32 - 1 octets and either compression setting; which one is told by its length, whether it is the print of a small number, and whether it can be compressed |
| RdbStrings.RdbSaveLongLongAsStringObject | Redis/mac_linux/src/rdb.c:303-319 | a form of the number's decimal text is written |
| RdbStrings.RdbLoadStringObject | Redis/mac_linux/src/rdb.c:333-359 | reads whichever form stands there |
| RdbSnapshot.ObjectLoads | Redis/mac_linux/src/rdb.c:770-948 | an object, in any encoding that is saved, loads as exactly the value it means |
| RdbSnapshot.EntriesLoad | Redis/mac_linux/src/rdb.c:611-627 | the entries of a database load one after the other; those left out by the save would not have survived loading either |
| RdbSnapshot.RestoredIsLive | Redis/mac_linux/src/rdb.c:1140-1154 | what loading the entries of a database leaves is exactly its keys that have not expired by then |
| RdbSnapshot.SnapshotRoundTrip | Redis/mac_linux/src/rdb.c:630-1180 | loading, at any time not before the save, what was saved restores every database exactly, values and expiries, less the keys expired by then, or on a replica less those expired when it was saved; with or without checksums on either side |
| RdbLaws.AcceptedExactly | Redis/mac_linux/src/rdb.c:1073-1170 | a loader that checks accepts a file if and only if it has the name and a version from 1 to 6, its loop comes to an end marker, and, from version 5 on, the eight octets behind the marker are zeros or the checksum of everything before them |
| RdbLaws.DamageRefused | Redis/mac_linux/src/rdb.c:1158-1170 | a file with a checksum in which up to eight consecutive octets behind the version were changed is not loaded by a loader that checks, unless the damage has moved the end marker |
| RdbLaws.SavedDamageRefused | Redis/mac_linux/src/rdb.c:1158-1170 | so it is for every file that was saved with a checksum other than 0 |
| RdbLaws.TruncatedRefused | Redis/mac_linux/src/rdb.c:1176-1180 | no saved file is loaded when its tail is missing; only a loader that does not check can do without the checksum itself |
| RdbLaws.LoopCut | Redis/mac_linux/src/rdb.c:1095-1157 | what the loader reads of a file whose tail is missing it reads of the whole file too |
| RdbLaws.EmptyDump | Redis/mac_linux/src/rdb.c:655-661 | empty databases leave nothing in the file |
| RdbLaws.DuplicateRefused | Redis/mac_linux/src/rdb.c:1148-1149 | a key that stands twice in a database is refused |
| RdbLaws.SecondsLoad | Redis/mac_linux/src/rdb.c:1107-1113 | an expiry that an older server saved in seconds is loaded in milliseconds |
| RdbFile.RdbSaveStringObject | Redis/mac_linux/src/rdb.c:322-331 | a string object, number or not, is written as a form of its text |
| RdbFile.RdbSaveObject | Redis/mac_linux/src/rdb.c:478-595 | writes a code of the object, for linked lists, hash tables, ziplist and intset blobs alike |
| RdbFile.RdbSaveKeyValuePair | Redis/mac_linux/src/rdb.c:611-627 | writes expiry, type, key and value, and nothing for an expired key |
| RdbFile.SaveDb | Redis/mac_linux/src/rdb.c:655-680 | writes the database behind its number, and nothing for an empty one |
| RdbFile.RdbSave | Redis/mac_linux/src/rdb.c:630-716 | the file consists of magic, version, databases, end marker and checksum |
| RdbFile.RdbLoadObject | Redis/mac_linux/src/rdb.c:770-948 | reads what the specification reads |
| RdbFile.LoadOpcode | Redis/mac_linux/src/rdb.c:1105-1120 | reads an expiry in either unit and the type behind it |
| RdbFile.LoadAll | Redis/mac_linux/src/rdb.c:1095-1157 | the loop: database numbers, keys, values, expiries, until the end marker, as specified |
| RdbFile.VerifyChecksum | Redis/mac_linux/src/rdb.c:1158-1170 | accepts exactly the specified checksums, zero included |
| RdbFile.RdbLoad | Redis/mac_linux/src/rdb.c:1060-1180 | the databases after loading, or refusal, exactly as specified |
| Rio.Stream.Write | Redis/mac_linux/src/rio.c:57-61 | appends the octets and keeps the checksum that of the whole contents |
| Rio.Stream.Read | Redis/mac_linux/src/rio.c:83-85 | reads exactly n octets or fails, and keeps the checksum that of what was read |
| Crc64.TableDivides | Redis/mac_linux/src/crc64.c:42-171 | each of the 256 literal table entries is the remainder after eight division steps by the polynomial |
| Crc64.UpdateDivides | Redis/mac_linux/src/crc64.c:173-181 | one table look-up divides by eight bits at once |
| Crc64.CrcAppend | Redis/mac_linux/src/crc64.c:173-181 | the checksum does not depend on how the stream was cut |
| Crc64.CrcInjective | Redis/mac_linux/src/crc64.c:173-181 | equal octets after a difference never hide it |
| Crc64.WindowDifference | Redis/mac_linux/src/crc64.c:173-181 | over at most eight octets, equal checksums mean that the starting values differ exactly as the octets do |
| Crc64.DifferenceDetected | Redis/mac_linux/src/crc64.c:173-181 | two streams of any length that differ only within eight consecutive octets never have the same checksum |
| Crc64.Crc64 | Redis/mac_linux/src/crc64.c:173-181 | the loop computes this checksum |
| Intset.ValueEncoding | Redis/mac_linux/src/intset.c:45-52 | the width chosen is the least that holds the value |
| Endian.OctetOf | Redis/mac_linux/src/intset.c:81-94 | the octet at position i of a stored number is the one of weight 256 to the power of i, negative numbers included |
| Intset.MemMove | Redis/mac_linux/src/intset.c:182-201 | an overlapping move in either direction puts the old octets in place and changes nothing else |
| Intset.SortedUnique | Redis/mac_linux/src/intset.c:115-154 | ascending contents are determined by their set, and as many |
| Intset.BlockRead | Redis/mac_linux/src/intset.c:287-293 | the block of memory tells which set it holds |
| Intset.Outermost | Redis/mac_linux/src/intset.c:157-180 | a number too wide for all others lies beyond them, on the side of its sign |
| Intset.IntSet.Get | Redis/mac_linux/src/intset.c:55-78 | reads the number at a position from its octets |
| Intset.IntSet.Set | Redis/mac_linux/src/intset.c:81-94 | writes the octets of a number and no others |
| Intset.IntSet.Resize | Redis/mac_linux/src/intset.c:105-109 | what fits of the old contents stays |
| Intset.IntSet.Search | Redis/mac_linux/src/intset.c:115-154 | finds the position of the value, or the place where it belongs |
| Intset.IntSet.WidenOne | Redis/mac_linux/src/intset.c:168-171 | one round of the back-to-front widening overwrites no number that is still to be read |
| Intset.IntSet.UpgradeAndAdd | Redis/mac_linux/src/intset.c:157-180 | all numbers are kept in the wider encoding, with the new one at its end |
| Intset.IntSet.MoveTail | Redis/mac_linux/src/intset.c:182-201 | moves the tail as a block |
| Intset.IntSet.Add | Redis/mac_linux/src/intset.c:204-231 | the set gains the value; strictly ascending order and representability in the current width are kept; the answer says whether it was new |
| Intset.IntSet.Remove | Redis/mac_linux/src/intset.c:234-251 | the set loses the value; the answer says whether it was there |
| Intset.IntSet.Find | Redis/mac_linux/src/intset.c:254-257 | membership in the set |
| QueryParser.ReadArgs | Redis/mac_linux/src/networking.c:886-958 | the parser never takes more than the buffer holds, and only from its front: what is left is a suffix of the buffer |
| QueryParser.ProcessInput | Redis/mac_linux/src/networking.c:974-1011 | processing the buffer ends for a client that is never blocked, and leaves the counters in range |
| QueryLaws.WordsGiven | Redis/mac_linux/src/networking.c:807-823 | words separated by any number of spaces, with any spaces before and behind them, are given back exactly |
| QueryLaws.WordsExactly | Redis/mac_linux/src/networking.c:807-823 | every line consists of the words it is cut into and of spaces; no word is empty, holds a space or is made up |
| QueryLaws.InlineExecutes | Redis/mac_linux/src/networking.c:790-827 | an inline line executes exactly its words as one command, and the parser goes on behind it; a line without words executes nothing, QUIT only closes |
| QueryLaws.InlineWaits | Redis/mac_linux/src/networking.c:796-803 | as long as no line has ended the parser waits, but not beyond 64 KB |
| QueryLaws.CountLaw | Redis/mac_linux/src/networking.c:842-884 | a count that is no number or exceeds 1024 * 1024 closes the connection; one that is not positive stands for no request |
| QueryLaws.LengthLaw | Redis/mac_linux/src/networking.c:900-925 | an argument that is not announced by a dollar sign and a length from 0 to 512 MB closes the connection, and what has been read is not executed |
| QueryLaws.BufferLimit | Redis/mac_linux/src/networking.c:1051-1062 | more than 1 GB in the buffer closes the connection, and none of it is executed |
| QueryLaws.QuitSpelled | Redis/mac_linux/src/redis.c:1560-1564 | QUIT is known in any case of its letters |
| QueryRuns.LineArrives | Redis/mac_linux/src/networking.c:849-877 | what the parser sees of a count or length line of which only the front has arrived: no line yet, or exactly the number |
| QueryRuns.ArgsRead | Redis/mac_linux/src/networking.c:886-958 | from any point inside a request the parser takes exactly the arguments that have arrived and waits for the rest, big arguments included; no guard fires |
| QueryRuns.ProcessKeeps | Redis/mac_linux/src/networking.c:974-1011 | whatever front of the stream is in the buffer, processing executes exactly the whole commands and waits for the rest |
| QueryRuns.ReceiveKeeps | Redis/mac_linux/src/networking.c:1013-1066 | so does one read of any size that the read sizing allows, also when it makes the buffer a single big argument |
| QueryRuns.AsksForMore | Redis/mac_linux/src/networking.c:1023-1041 | as long as something is to come the parser asks for at least one octet and at most 16 KB, of a big argument for no more than is missing |
| QueryRuns.FragmentsReassemble | Redis/mac_linux/src/networking.c:842-1066 | any list of commands within the limits, printed in multibulk form and cut into any reads that the read sizing allows, is executed exactly and in order, no connection is closed, and at the end the buffer is empty |
| QueryClient.RedisClient.ProcessMultibulkBuffer | Redis/mac_linux/src/networking.c:842-972 | refines the specified parser, protocol errors included |
| QueryClient.RedisClient.ReadArguments | Redis/mac_linux/src/networking.c:886-958 | the loop over the arguments refines it |
| QueryClient.RedisClient.SplitLine | Redis/mac_linux/src/sds.c:345-398 | the loop cuts a line at every space, so that the non-empty pieces are its words |
| QueryClient.RedisClient.ProcessInlineBuffer | Redis/mac_linux/src/networking.c:790-827 | an inline request is cut into its words, as specified |
| QueryClient.RedisClient.ProcessInputBuffer | Redis/mac_linux/src/networking.c:974-1011 | refines the specified loop over requests |
| QueryClient.RedisClient.ReadQueryFromClient | Redis/mac_linux/src/networking.c:1013-1066 | appends what was read and processes it, as specified |
| ReplyQueue.HoleFilled | Redis/mac_linux/src/networking.c:381-404 | filling a deferred count, with or without gluing the next chunk to it, changes the unsent replies exactly by putting the count in its place |
| ReplyQueue.HeadSent | Redis/mac_linux/src/networking.c:721-747 | sending part of the first chunk, or all of it and dropping it, sends exactly the front of the unsent replies |
| ReplyQueue.FrontSent | Redis/mac_linux/src/networking.c:704-720 | the same for the static buffer |
| ReplyQueue.ReplyAppended | Redis/mac_linux/src/networking.c:170-261 | an appended or glued chunk adds exactly the reply at the end of the unsent replies |
| ReplyClient.RedisClient.AddReplyToBuffer | Redis/mac_linux/src/networking.c:153-168 | a reply enters the static buffer only while the list is empty and it fits; replies sent and unsent together grow by exactly it |
| ReplyClient.RedisClient.AddReplyToList | Redis/mac_linux/src/networking.c:170-261 | a reply enters the list, glued to the last chunk if the result is not too long and never to a missing count; nothing is lost, doubled or reordered |
| ReplyClient.RedisClient.AddReplyString | Redis/mac_linux/src/networking.c:304-322 | buffer first, list otherwise, and nothing for a client that cannot be written to |
| ReplyClient.RedisClient.AddReplyNumber | Redis/mac_linux/src/networking.c:268-302 | a number is printed into the buffer if any number fits, and otherwise treated as a string |
| ReplyClient.RedisClient.AddDeferredMultiBulkLength | Redis/mac_linux/src/networking.c:371-378 | reserves the place of a count at the end of the unsent replies |
| ReplyClient.RedisClient.SetDeferredMultiBulkLength | Redis/mac_linux/src/networking.c:381-404 | the reserved place becomes the count, wherever it is by now |
| ReplyClient.RedisClient.SendFront | Redis/mac_linux/src/networking.c:704-720 | one partial write from the static buffer moves exactly those octets from unsent to sent |
| ReplyClient.RedisClient.SendHead | Redis/mac_linux/src/networking.c:721-747 | one partial write from the list does the same |
| ReplyClient.RedisClient.SendReplyToClient | Redis/mac_linux/src/networking.c:695-778 | with any partial writes sent and unsent octets together remain exactly the concatenation of all replies in order; it goes on until all is sent, the network refuses, or more than 64 KB have gone, and it closes exactly the connections it has to |
| Watch.WatchKeepsInverse | Redis/mac_linux/src/multi.c:205-232 | watching a key keeps the two tables inverse to one another, without duplicates or empty lists |
| Watch.UnwatchKeepsInverse | Redis/mac_linux/src/multi.c:236-260 | so does leaving all keys |
| Watch.ChangesAreSignalled | Redis/mac_linux/src/db.c:197-203 | what a command body changes in the value of a key is signalled, unless the command is a MOVE; a MOVE that moves changes two keys and signals neither |
| WatchLaws.OnlyWritesTouch | Redis/mac_linux/src/db.c:197-203 | a command touches a key only if it names it (or flushes it) and counts as a change |
| WatchRuns.ChangesUntouched | Redis/mac_linux/src/db.c:399-440 | exactly when a command changes a value that it does not touch: when the key expires during a look-up or is moved, unless an expired target of a MOVE receives an equal value |
| WatchRuns.PerformOk | Redis/mac_linux/src/redis.c:1487-1544 | a command of any client keeps the invariant of all clients: marked exactly if a watched key was touched, and untouched watched keys still have the value seen |
| WatchRuns.StepOk | Redis/mac_linux/src/multi.c:56-326 | every step of every client, and background expiry, keeps it, and keeps the tables inverse |
| WatchRuns.AlwaysOk | Redis/mac_linux/src/multi.c:56-326 | so it holds in every interleaving |
| WatchLaws.ExecIffUntouched | Redis/mac_linux/src/multi.c:116-179 | in every interleaving: an EXEC inside MULTI applies its queue, every command once, in order and to what the one before it left, if and only if no command was refused while queueing and no watched key was touched since it was watched. If it does, every watched key still had the value it had then, unless it expired or was moved meanwhile, and other clients are marked exactly if a command touches a key they watch; if it does not, nothing changes but the client. In both cases the client has left MULTI and watches nothing |
| WatchLaws.ExecDrops | Redis/mac_linux/src/multi.c:133-141 | a transaction that is dropped changes nothing but its client |
| WatchLaws.ExecApplies | Redis/mac_linux/src/multi.c:143-172 | one that is executed applies its commands in order |
| WatchLaws.TransactionLaw | Redis/mac_linux/src/multi.c:56-179 | MULTI, requests, EXEC, and nothing watched touched: the requests take effect in order when EXEC comes, and not before |
| WatchLaws.DiscardLaw | Redis/mac_linux/src/multi.c:95-103 | MULTI, requests, DISCARD: nothing has happened |
| WatchLaws.ErrorAborts | Redis/mac_linux/src/multi.c:81-84 | a request refused inside MULTI makes EXEC change nothing |
| WatchLaws.QueuedInside | Redis/mac_linux/src/multi.c:56-72 | inside MULTI a command only joins the queue |
| WatchLaws.RunLaw | Redis/mac_linux/src/redis.c:1487-1544 | a command outside MULTI takes effect at once and marks exactly the clients that watch a key it touches |
| WatchLaws.WatchLaw | Redis/mac_linux/src/multi.c:205-232 | WATCH: the client now also watches exactly the keys named, each from now on; nothing else changes |
| WatchLaws.UnwatchLaw | Redis/mac_linux/src/multi.c:322-326 | UNWATCH: the client watches nothing and is not marked; nothing else changes |
| WatchLaws.IdleRequests | Redis/mac_linux/src/multi.c:86-128 | WATCH and MULTI inside MULTI, and EXEC, DISCARD and refused requests outside, change nothing |
| WatchEscapes.MoveEscapes | Redis/mac_linux/src/db.c:399-440 | MOVE does not touch the key it takes: in every reachable world a watching client's transaction would be executed afterwards although the value is gone |
| WatchEscapes.ExpiryEscapes | Redis/mac_linux/src/db.c:503-529 | nor does a command touch a key that it finds expired and does not write anew: the watching client is not marked, its transaction would be executed, the value is gone |
| WatchEscapes.GetEscapes | Redis/mac_linux/src/db.c:503-529 | in particular a GET by another client, for every watched key whose time has passed |
| WatchEscapes.ActiveExpiryEscapes | Redis/mac_linux/src/redis.c:664-675 | background expiry of a watched key does the same |
| WatchEscapes.DeceivedExecutes | Redis/mac_linux/src/multi.c:143-165 | and the EXEC of such a client does apply its queue |
| WatchEscapes.MoveExample | Redis/mac_linux/src/db.c:399-440 | a whole run from the start: two clients join, one watches a key, opens a transaction and queues a SET, the other moves the key away, and the EXEC sets what was queued |
| WatchEscapes.ExpiryExample | Redis/mac_linux/src/db.c:503-529 | the same run with a GET of the other client after the time of the key |
| WatchEscapes.ActiveExpiryExample | Redis/mac_linux/src/redis.c:664-675 | the same run with a background expiry |
| WatchServer.Server.WatchKey | Redis/mac_linux/src/multi.c:205-232 | the scan for a duplicate and the two insertions are the specified update |
| WatchServer.Server.UnwatchKeys | Redis/mac_linux/src/multi.c:236-260 | leaving list after list, and deleting lists left empty, is the specified update |
| WatchServer.RemoveFirst | Redis/mac_linux/src/multi.c:249 | deleting the node found removes the client from a list without duplicates |
| WatchServer.Server.TouchWatchedKey | Redis/mac_linux/src/multi.c:264-281 | marks exactly the clients that watch the key |
| WatchServer.Server.TouchWatchedKeysOnFlush | Redis/mac_linux/src/multi.c:287-308 | marks exactly the clients that watch a key about to be deleted |
| WatchServer.Server.SignalModified | Redis/mac_linux/src/db.c:197-203 | the signals of a command mark exactly the clients that watch one of the keys it signals |
| WatchServer.Server.Call | Redis/mac_linux/src/redis.c:1487-1544 | look-ups, signals and effect of a command make the specified transition |
| WatchServer.Server.ActiveExpireKey | Redis/mac_linux/src/redis.c:664-675 | background expiry deletes an expired key and touches nothing |
| WatchServer.Server.CreateClient | Redis/mac_linux/src/networking.c:52-106 | a new client watches nothing |
| WatchServer.Server.FreeClient | Redis/mac_linux/src/networking.c:593-672 | a client that goes leaves no trace in the tables |
| WatchServer.Server.WatchCommand | Redis/mac_linux/src/multi.c:310-320 | refused inside MULTI, else watches key after key |
| WatchServer.Server.ExecCommand | Redis/mac_linux/src/multi.c:116-179 | refused, dropped or executed exactly as specified; the keys are left before the first command runs |
| WatchServer.Server.ProcessCommand | Redis/mac_linux/src/redis.c:1668-1679 | inside MULTI everything but EXEC, DISCARD, MULTI and WATCH is queued; errors flag the transaction |
| Rand48.RetreatUndoes | Redis/mac_linux/src/rand.c:80-93 | a step of the POSIX recurrence can be undone, so that no two states ever merge |
| Rand48.Mul | Redis/mac_linux/src/rand.c:50-51 | a product truncated to a signed 32-bit number and split by shifts still gives both limbs exactly |
| Rand48.AddTo | Redis/mac_linux/src/rand.c:52-53 | a limb addition with its carry |
| Rand48.Assembled | Redis/mac_linux/src/rand.c:83-92 | the three limbs are the product plus addend modulo 2^48 |
| Rand48.Generator.Next | Redis/mac_linux/src/rand.c:80-93 | for every 48-bit state, next on 16-bit limbs is x := (0x5DEECE66D x + 0xB) mod 2^48, and limbs stay below 2^16 |
| Rand48.Generator.RedisLrand48 | Redis/mac_linux/src/rand.c:71-74 | the result is the top 31 bits of the new state |
| Rand48.Generator.RedisSrand48 | Redis/mac_linux/src/rand.c:76-78 | the seed, negative or not, becomes the top 32 bits, with 0x330E below |
| Rand48.Draw | Redis/mac_linux/src/rand.c:71-93 | the n-th number drawn after seeding is the top 31 bits of the n-th iterate of the recurrence |

## Left out

- AofMachine.RestartExact: assumes that no rewrite met a stale key, because it fails otherwise as soon as such a key is left alone (see above); AofMachine.AlwaysSafe has no such assumption.
- AofCodec.CommandRoundTrip: covers commands whose numbers fit 64 bits and are printed canonically, which is how the server writes them; other spellings a client may send (signs, leading blanks) are not parsed by the model.
- AofRestart.RestartFromOctets: like AofMachine.RestartExact it excludes rewrites that met a stale key; and it asks of each step that strings have fewer than 2^63 octets, commands at most 2^31 - 1 arguments, and that times fit 64 bits.
- AofFile.LoadAppendOnlyFile: numbers beyond the range of `int` and `long` in a log line are not modelled, the C behaviour there being undefined or dependent on the platform.
- AofEmit.RewriteKey: values are strings, lists, sets and hashes; the branch for sorted sets is not modelled.
- AofEmit.RewriteAppendOnlyFile: likewise no sorted sets.
- RdbSnapshot.ObjectLoads: no sorted sets and no zipmaps; a ziplist blob is given by the elements that it holds.
- RdbFile.RdbSaveObject: no sorted sets; a ziplist blob is written as the string it is.
- RdbFile.RdbLoadObject: no sorted sets and no zipmaps; the elements of a ziplist blob are a parameter.
- Rio.Stream.Read: a read beyond the end fails and leaves the position where it was, whereas the position of a real file would move to its end; every caller gives up then.
- RdbSnapshot.SnapshotRoundTrip: ziplists are a parameter that gives the elements of a blob, since their layout is that of `ziplist.c`; zipmap hashes are loaded in no branch.
- RdbLaws.DamageRefused: damage that moves the end marker is compared with other octets, and damage of the version may switch the test off; nothing is claimed of these.
- QueryRuns.FragmentsReassemble: is for a client that is never blocked, not a slave, not throttled and does not send QUIT; limits are those of the source (1024*1024 arguments, 512 MB each).
- WatchLaws.ExecIffUntouched: the commands are those of `Keyspace`; other writing commands signal their keys in the same way.
- LzfCompress.Compress: an input of one octet is excluded, because the first hash reads two octets.
- AofServer.Server.RpushCommand: like the other variadic commands is called with the arity the command table demands.
- AofBlocks.RewriteBuffer.Write: every write succeeds.
- Expiry arithmetic is unbounded: a relative time so large that the sum overflows 64 bits is undefined in C.
- Sorted sets, doubles, bit operations, SORT, blocking list commands, publish and subscribe, scripts, replication, cluster migration (RESTORE and MIGRATE feed relative times to the log).
- Sockets, event loop, real files, fsync policies, fork, signals and threads: a write appends to a sequence, a fork takes a snapshot in one step, and failed writes to the log file end the process as in the source.
- The old descriptor that `startAppendOnly` and the swap juggle with, and the background closing of the old file.
- `loadAppendOnlyFile` and `rdbLoad` end the process on a fatal error: the model returns nothing.
- QUIT, client output limits, reference counts, `reply_bytes`, slow log, MONITOR and statistics.
- Out of memory, allocator sizes and `dictResize`; tables of 2^31 buckets and more.
- The quality of hash functions: any function will do.
- Big-endian hosts, for which the byte swaps of `endianconv.c` would be needed.
- The unrolled loops of the CRC table test, of `pqsort`'s word-wise swapping and of the LZF comparison are loops over elements here; the bound of the unrolled comparison is modelled.
- Which random key background expiry picks, and how long it works.
- The JavaScript of the repository, which starts the server and drives browsers.
