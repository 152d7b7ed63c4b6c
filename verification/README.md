# Verified models of the game's Redis and galaxy code

The repository is a browser game on Rails that ships the sources of Redis 2.6.14.  This project models the parts of it
whose correctness is least obvious and proves what they promise, in Dafny.  `dafny verify dfyconfig.toml` checks
everything.

Code that changes things in place is modelled in place: arrays, classes with the fields of the C structures, and loops
with invariants.  Each such method is proved to compute a function of its inputs or of the old state, and the
properties below are proved about those functions, for all inputs or all runs.

| part | files |
|---|---|
| LZF compression | `LzfFormat` (tokens and their meaning), `LzfGreedy` (which matches are taken), `Lzf` (both C functions) |
| partial quicksort | `PqSort` |
| incrementally rehashed hash table | `DictSpec` (states as functions, refinement of a map), `DictGrowth` (sizes and the end of rehashing), `DictIter` and `DictPasses` (safe iterators), `Dict` (the class) |
| request protocol | `Decimal`, `RespSpec`, `RespRoundTrip` (parser against printer), `RespAccepts` (what it accepts from anyone), `Resp` (the client class) |
| append only file | `AofLog` (loading), `AofSpec` (the protocol of log, buffers and rewriting child), `Aof` (the server class), `AofRewriteSpec` and `AofRewrite` (the emitter) |
| RDB files | `RdbSpec`, `RdbRoundTrip`, `RdbForeign` (damaged, cut off and old files), `RdbFooter`, `Rdb` (streams, savers and loaders), `Crc64`, `Dump` (the DUMP footer) |
| transactions | `MultiSpec` (many clients as a state machine), `MultiRuns` (what clients see of it), `Multi` (the server class) |
| integer sets | `IntSetSpec`, `IntSet` |
| background jobs | `Bio` (threads and a worker as interleaved atomic steps) |
| small cores | `Rand48`, `BitOps`, `Galaxy` |
| shared | `Bytes`, `LittleEndian`, `Objects`, `Keyspaces` |

## Where the code and its comments differ

The models follow the code.

- `lzf.h` promises an output of less than 104 % of the input.  For inputs of length L from 1 on this holds if and only
  if L > 25 * ceil(L / 32): `Lzf.SizePromise` and `Lzf.Compress` prove it at these lengths, 26 to 32, 51 to 64, 76 to 96 and
  from 101 on, and `Lzf.WorstCase` gives an input that breaks the promise at each other length.
- `lzf_compress` reads the first two input bytes unchecked.  For an input of one byte the hash value that comes of it is
  not used, so it may be anything in the model.
- `dict.h` holds sizes as unsigned long, but `dict.c` handles bucket numbers, the wanted size of `dictResize` and the
  position of an iterator as int.  `DictSpec.ExecRefinesMap` gives the exact condition under which an operation still
  acts as on a map, `DictSpec.NewDictionaryIsMap` a bound that a caller can check, and `DictSpec.HugeTableRefuses` an
  input for which it fails.
- `db.c:188-195` says that `signalModifiedKey` is called every time a key is modified.  Expiry, eviction and both keys of
  MOVE are exceptions, so a client that watches such a key does not notice: `MultiSpec.QuietChangeStillExecs`.
- `crc64.c` describes an initial value of all ones, but its callers start from 0, and so does the model.
- `rdbSaveLen` truncates to 32 bits and 4294967295 is the loader's error value, so lengths round trip if and only if
  they are below it (`RdbRoundTrip.LengthRoundTrip`).
- When the fork of `startAppendOnly` fails, `aof_fd` keeps the number of a closed descriptor (`Stale` in `AofSpec`);
  the invariant shows that nothing is written to it while logging is off.
- The size checks of the request parser also count bytes that were consumed already.  A read of at most 16 KB, or of
  what a big argument still lacks, never trips them on printed commands, so no precondition is needed for that.

## Model

| member | source | states |
|---|---|---|
| LzfFormat.DecodeInvertsEncode | redis-stable/src/lzf_d.c:64-148 | Any encoding of a sequence of literal runs and back references decodes to the text it stands for, given a buffer of at least that size; back references may overlap the text they produce. |
| LzfFormat.DecodeAcceptsExactlyEncodings | redis-stable/src/lzf_d.c:64-148 | Decoding succeeds exactly on the byte strings that encode some valid token sequence whose text fits the buffer, and gives that text; everything else ends in an error. |
| LzfFormat.CopyBackMatch | redis-stable/src/lzf_d.c:133-143 | Copying byte by byte from behind the cursor reproduces a match even where it reads bytes that it has just written. |
| Lzf.LiteralRun | redis-stable/src/lzf_d.c:68-93 | The literal branch does to cursors and buffer what the format prescribes, or reports the same error without touching the buffer. |
| Lzf.BackReference | redis-stable/src/lzf_d.c:94-144 | The same for a back reference, with its extended length and both range checks. |
| Lzf.Decompress | redis-stable/src/lzf_d.c:56-149 | On every non-empty input the decoder terminates with every access in range; it writes exactly the decoded text, leaves the rest of the buffer alone and reports the length, or the error of the format. |
| Lzf.MatchLength | redis-stable/src/lzf_c.c:168-209 | The length found is that of a true match of 3 to 264 bytes inside the input, and it is maximal unless it hits the limits of the token or of the input. |
| Lzf.CloseRun | redis-stable/src/lzf_c.c:173-174 | Stopping a run turns output and input read so far into a complete token sequence, giving back the reserved byte of an empty run. |
| Lzf.AddLiteral | redis-stable/src/lzf_c.c:266-272 | A literal joins the open run, a full run is closed and a new one started, and the output stays within a 32nd of the input plus one header. |
| Lzf.EmitRef | redis-stable/src/lzf_c.c:211-227 | A match is written as the two or three bytes that decode to it. |
| Lzf.TakeMatch | redis-stable/src/lzf_c.c:167-227 | The match branch advances the input, keeps the output an encoding of it, and gives up only when fewer than five bytes are left. |
| Lzf.FinishLiterals | redis-stable/src/lzf_c.c:276-293 | The tail is written as literals; the result is positive exactly if three bytes were left before it, and then the output encodes the whole input. |
| Lzf.Compress | redis-stable/src/lzf_c.c:99-294 | For every input, initial table, hash function and output size: never a write beyond out_len + 1 bytes; a positive result n means that the n bytes encode the input by the greedy law, so decode to it; 0 means that tokens chosen by that law left too little room, which never happens with room for the worst case; n is at most what literals alone take, and just that where no three bytes occur twice; and 16 or more equal bytes with 4 bytes less room than they take shrink to 8 bytes and 3 for each 264. |
| Lzf.SizePromise | redis-stable/src/lzf.h:56-58 | What literals alone take is less than 104 % of the input, as promised, if and only if the length exceeds 25 times its number of started 32-byte runs: 26 to 32, 51 to 64, 76 to 96, and from 101 on. |
| Lzf.WorstCase | redis-stable/src/lzf.h:56-58 | At every other length from 1 on, some input takes 104 % or more although there is room, whatever the table and the hash function; so the promise holds for all inputs of a length exactly under that condition. |
| LzfGreedy.GreedyLiteral | redis-stable/src/lzf_c.c:145-157 | The greedy law, for a literal: it stands where the last position hashed to the same slot, if any, is the first byte, too far away, too near the end, or differs in three bytes. Which positions were hashed, and from where the rolling hash runs, is told from the references alone. |
| LzfGreedy.GreedyRef | redis-stable/src/lzf_c.c:155-248 | The greedy law, for a reference: it goes to the last position hashed to the same slot, if there is one, and is as long as token and text allow. |
| LzfGreedy.TableNext | redis-stable/src/lzf_c.c:145-148 | The table holds the last position of each slot, whatever it held at the start. |
| LzfGreedy.TableSkips | redis-stable/src/lzf_c.c:232-247 | Of the positions inside a match only the last two enter the table. |
| LzfGreedy.RollsOn | redis-stable/src/lzf_c.c:48-53 | The rolling 32-bit hash depends on the last four bytes at most. |
| LzfGreedy.NeverMissed | redis-stable/src/lzf_c.c:155-160 | In a text of equal bytes the law takes a match at every position from the third to the fifth from the end. |
| LzfGreedy.EqualBytesShrink | redis-stable/src/lzf_c.c:142-294 | So it encodes them in at most 8 + 3 * (length / 264 + 1) bytes, |
| LzfGreedy.EqualBytesFit | redis-stable/src/lzf_c.c:174-180 | and never gives up in a buffer that is up to four bytes smaller than the text. |
| PqSort.InsertionSort | redis-stable/src/pqsort.c:109-115 | A short range ends up sorted, a permutation of itself, and the rest of the array is unchanged. |
| PqSort.Med3IsMedian | redis-stable/src/pqsort.c:90-97 | The chosen index holds the median of the three elements in the order of cmp. |
| PqSort.Scan | redis-stable/src/pqsort.c:128-155 | The two-cursor scan permutes the range into equal, less, greater, equal parts. |
| PqSort.VecSwap | redis-stable/src/pqsort.c:54-87 | Exchanges two blocks and nothing else. |
| PqSort.Partition | redis-stable/src/pqsort.c:116-187 | After a scan that swapped something, the range is split into less, equal and greater than the pivot. |
| PqSort.SkippedOnBytes | redis-stable/src/pqsort.c:173-176 | Comparing byte addresses skips a part exactly if the window lies outside of it, whatever the element size and base address. |
| PqSort.SortRange | redis-stable/src/pqsort.c:100-189 | For every total preorder, range and window: a permutation of the range in which every window position has nothing greater before it and nothing smaller after it, despite skipped parts and the fallback to insertion sort. |
| PqSort.PartialSort | redis-stable/src/pqsort.c:192-197 | The same for the whole array, whose elements are kept as a multiset. |
| PqSort.WindowMatchesFullSort | redis-stable/src/pqsort.c:100-197 | An array so placed agrees, at every window position, with any fully sorted permutation of it, up to elements that compare equal. |
| DictSpec.MaskIsMod | redis-stable/src/dict.c:654-659 | Masking with size - 1 is reduction modulo the size, for sizes that are powers of two. |
| DictSpec.ScanFindsBucket | redis-stable/src/dict.c:256-259 | While rehashing with entries left in the old table there is a bucket with entries at or after the cursor: the assertion holds and the inner scan stays inside the table. |
| DictSpec.RehashOneKeeps | redis-stable/src/dict.c:246-278 | Moving one bucket, or finishing, keeps the map that the two tables represent. |
| DictSpec.RehashKeeps | redis-stable/src/dict.c:243-280 | So does any number of steps. |
| DictSpec.ExpandKeeps | redis-stable/src/dict.c:210-237 | Expanding, or refusing to, keeps the map; a table that was made is not empty. When it refuses and how large the table becomes is DictGrowth.ExpandResult. |
| DictSpec.ExpandIfNeededKeeps | redis-stable/src/dict.c:608-628 | Keeps the map and leaves a table to insert into. |
| DictSpec.AddKeeps | redis-stable/src/dict.c:314-361 | Adding to a dictionary that represents a map answers and binds as the map does if and only if the key is present or the number of its bucket is an int; so it fails exactly for absent keys whose bucket number is no int. |
| DictSpec.FindKeeps | redis-stable/src/dict.c:480-499 | Finding answers as the map does and leaves it as it is, whatever rehashing it does. |
| DictSpec.DeleteKeeps | redis-stable/src/dict.c:401-436 | Deleting succeeds exactly for a present key and removes it from whichever table holds it. |
| DictSpec.ReplaceKeeps | redis-stable/src/dict.c:367-386 | Replacing binds the key and reports whether it was absent, under the same exact condition. |
| DictSpec.ExecRefinesMap | redis-stable/src/dict.c:198-499 | Each of eight operations answers as the same operation on the represented map and leaves a dictionary that represents the result, if and only if it needs no bucket whose number is no int. For dictExpand and dictResize the answer is whether resizing is free to start and the keys fit. |
| DictSpec.RunRefinesMap | redis-stable/src/dict.c:198-499 | For every sequence of operations that never meets that case, the two-table dictionary and one finite map give the same answers: keys unique across the tables, entries in their buckets, used exact, buckets below the cursor empty throughout. |
| DictSpec.RunKeepsSizes | redis-stable/src/dict.c:631-641 | For every limit below LONG_MAX that no requested size and no doubled number of keys exceeds, table sizes stay powers of two up to that limit, and a key's bucket is its hash modulo the size. |
| DictSpec.SmallTablesFit | redis-stable/src/dict.c:649-671 | Up to 2 to the 31 buckets every bucket has a number that is an int, so every addition acts as on the map. |
| DictSpec.NewDictionaryIsMap | redis-stable/src/dict.c:174-195 | A new dictionary answers every sequence of operations as a map that starts empty, as long as no size that a caller asks for and no doubled number of keys exceeds 2 to the 30, which no int in dict.c can then overflow; sizes and the rehash cursor stay below that, too. |
| DictSpec.HugeTableRefuses | redis-stable/src/dict.c:649-671 | The input for which the code is no map: after dictExpand to 2 to the 32, adding an absent key with hash 0xffffffff reports that it exists, because its bucket number reads as -1. |
| DictGrowth.ExpandResult | redis-stable/src/dict.c:210-237 | dictExpand succeeds if and only if no rehash is under way and the keys are no more than the size asked for; then new entries go to an empty table of the smallest power of two that is large enough, and a rehash is under way exactly if there was a table. A refusal changes nothing. |
| DictGrowth.ResizeResult | redis-stable/src/dict.c:198-207 | The same for dictResize, with the number of keys, read as an int and at least 4, as the size, if resizing is on. |
| DictGrowth.AddGrows | redis-stable/src/dict.c:608-628 | Between rehashes dictAdd grows the table if and only if it is full, with a load above 5 if resizing is off, to at least twice its size and twice the number of keys. |
| DictGrowth.RehashOneAdvances | redis-stable/src/dict.c:246-278 | A rehash step empties one more bucket of the old table or ends the rehash, and leaves the size of the new one. |
| DictGrowth.RehashEnds | redis-stable/src/dict.c:243-280 | As many steps as buckets are left, and one, end every rehash. |
| DictGrowth.OperationsAdvance | redis-stable/src/dict.c:309-311 | Without iterators, each operation on a key moves a rehash on by one step. |
| DictGrowth.RoomCalm | redis-stable/src/dict.c:314-361 | There is always room for the next key, also if one arrives with every rehash step. |
| DictGrowth.LoadStaysLow | redis-stable/src/dict.c:198-499 | After any run of additions, replacements, deletions, lookups and rehash steps a dictionary has at most one key more than buckets in the table that new entries go to. |
| DictIter.NextReturns | redis-stable/src/dict.c:528-557 | However many safe iterators are opened, advanced and released in turns: each pass that has reported its end has returned every entry present throughout exactly once, through any interleaving with finds, overwrites, additions that start a rehash, expansion, resizing, switching resizing, and deletions of any entry but one that an iterator has saved as next. |
| DictIter.StepsSuspended | redis-stable/src/dict.c:309-311 | No rehash step runs while a safe iterator is active. |
| DictIter.FullPassReturnsEachOnce | redis-stable/src/dict.c:521-564 | However many safe iterators are opened, advanced and released in turns: each pass that has reported its end has returned every entry present throughout exactly once, through any interleaving with finds, overwrites, additions that start a rehash and deletions of any entry but one that an iterator has saved as next. |
| DictIter.NextCounts | redis-stable/src/dict.c:533-534 | dictNext raises the count of iterators by one when it starts an iterator and changes nothing else in the dictionary. |
| DictIter.CurrentMayBeDeleted | redis-stable/src/dict.c:550-552 | An open iterator may always be advanced or released, and the entry it has just returned may be deleted unless another iterator has saved that entry. |
| DictPasses.CountIsExact | redis-stable/src/dict.c:533-564 | Over any run the dictionary counts exactly the iterators that were started and not released, so rehashing resumes with the last release. |
| DictPasses.StayingKeyReturnedOnce | redis-stable/src/dict.c:521-557 | A key that is there when an iterator is opened and is not deleted afterwards has been returned exactly once when the iterator reports the end, whatever else happens. |
| DictPasses.PassEnds | redis-stable/src/dict.c:528-557 | Calling dictNext once more than there are keys ends the pass. |
| DictIter.RehashBreaksPass | redis-stable/src/dict.c:239-242 | Why an active iterator suspends rehashing: an explicit dictRehash that moves the bucket of a key that the pass has returned makes the key pending again, so the pass is no longer exact. |
| DictIter.RehashBreaksThisPass | redis-stable/src/dict.c:239-242 | An input for which it does: two keys in four buckets. |
| DictIter.HugeTableEnds | redis-stable/src/dict.c:528-557 | The rehash loop performs exactly n steps of the specification, or fewer if it finishes, and its result says whether it is unfinished. |
| Dict.Dict.constructor | redis-stable/src/dict.c:174-195 | A new dictionary represents the empty map. |
| Dict.Dict.ComputeNextPower | redis-stable/src/dict.c:631-641 | The doubling loop computes the smallest power of two from 4 on that is large enough, or LONG_MAX. |
| Dict.Dict.DoExpand | redis-stable/src/dict.c:210-237 | Expansion in place is the function on states, over fresh arrays; it succeeds exactly if no rehash is under way and the keys fit, with the smallest table that holds the size. |
| Dict.Dict.MoveBucket | redis-stable/src/dict.c:256-277 | Scanning for a bucket and moving its entries in place is one rehash step. |
| Dict.Dict.DoRehash | redis-stable/src/dict.c:243-280 | The rehash loop performs exactly n steps of the specification, or fewer if it finishes. |
| Dict.Dict.RehashBuckets | redis-stable/src/dict.c:246-279 | The loop itself, moving bucket after bucket in place, with the exact number of steps left. |
| Dict.Dict.DoRehashStep | redis-stable/src/dict.c:309-311 | Binds the key in place and tells whether it was absent, exactly under that condition. |
| Dict.Dict.DoExpandIfNeeded | redis-stable/src/dict.c:608-628 | The decision to expand, with the forced ratio, in place; between rehashes it grows the table exactly if it is full. |
| Dict.Dict.FindIndex | redis-stable/src/dict.c:649-671 | The bucket number as an int for an absent key and -1 for one that either table holds, in the new table while rehashing. |
| Dict.Dict.PushEntry | redis-stable/src/dict.c:340-355 | The entry becomes the head of the bucket with that number, if there is one, and the count rises. |
| Dict.Dict.DoAdd | redis-stable/src/dict.c:314-361 | Adds in place; succeeds exactly for an absent key. |
| Dict.Dict.DoFind | redis-stable/src/dict.c:480-499 | Answers as the map that the dictionary represents. |
| Dict.Dict.DoDelete | redis-stable/src/dict.c:401-436 | Unlinks the entry in place; succeeds exactly for a present key. |
| Dict.Dict.DoReplace | redis-stable/src/dict.c:367-386 | Binds the key in place and tells whether it was absent. |
| Dict.Dict.DoResize | redis-stable/src/dict.c:198-207 | Resizes to the smallest fitting table for the number of keys, read as an int, exactly if resizing is on, no rehash is under way and the keys fit that int. |
| Dict.Dict.DoNext | redis-stable/src/dict.c:528-557 | The iterator loop returns what the specification returns and changes only the iterator and the count of iterators. |
| Dict.Dict.TryBucket | redis-stable/src/dict.c:530-552 | One turn of the loop goes to the next bucket or table, or ends, as the specification does. |
| Dict.Dict.ScanBuckets | redis-stable/src/dict.c:530-557 | The walk over buckets and on to the second table stops where the specification does. |
| Dict.Dict.DoRelease | redis-stable/src/dict.c:559-564 | Releasing an iterator that was started lowers the count, and nothing else changes. |
| Dict.SafeIterator.constructor | redis-stable/src/dict.c:509-526 | A new iterator stands before the first bucket. |
| Decimal.String2llIsCanonical | redis-stable/src/util.c:244-305 | string2ll accepts exactly the decimal texts that ll2string prints for 64-bit values, and inverts them. |
| Decimal.StrtollReadsBack | redis-stable/src/util.c:220-239 | strtoll reads a printed value back and stops right behind it. |
| Resp.CatCommand | redis-stable/src/aof.c:322-345 | Appends the announced count and the length-prefixed arguments, for arguments of any bytes. |
| RespRoundTrip.ParserReadsBackPrinter | redis-stable/src/networking.c:848-1017 | For every command list and every way its printed bytes are cut into reads, exactly these argument vectors are executed in order and the parser ends as it began; the size checks never fire. |
| RespRoundTrip.ProcessInputSync | redis-stable/src/networking.c:980-1017 | One pass over the buffer executes a prefix of the commands still to come and leaves the parser waiting for the rest of the bytes. |
| RespRoundTrip.WaitingMayRead | redis-stable/src/networking.c:1027-1040 | A parser that waits always has room to ask for at least one more byte, also inside a big argument. |
| RespRoundTrip.ReceiveAllSync | redis-stable/src/networking.c:1019-1078 | From any state between two commands or inside one, any chunks that complete the printed bytes lead to the remaining commands and nothing else. |
| RespAccepts.MultibulkAcceptsExactly | redis-stable/src/networking.c:848-978 | Whoever wrote the bytes: a multi-bulk request is accepted, with these arguments and this rest, if and only if the buffer starts with its count and lengths in canonical form and arguments of just those lengths, within the limits; the byte after a carriage return and the two after an argument are not looked at. |
| RespAccepts.EmptyRequest | redis-stable/src/networking.c:882-886 | A count of zero or less is dropped as an empty request. |
| RespAccepts.MalformedIsRejected | redis-stable/src/networking.c:860-939 | Up to 64 KB in the buffer, what is rejected could not have become a request, whatever followed. |
| RespAccepts.WordsAreSpaced | redis-stable/src/networking.c:816-829 | The arguments of an inline request are the stretches of its line without spaces. |
| RespAccepts.InlineAcceptsExactly | redis-stable/src/networking.c:796-833 | An inline request is accepted if and only if its line has arrived, and rejected if and only if it has not and the buffer is beyond 64 KB. |
| Resp.RedisClient.ResetClient | redis-stable/src/networking.c:787-794 | Forgets the command but not the unread bytes. |
| Resp.RedisClient.SetProtocolError | redis-stable/src/networking.c:837-846 | Flags the client to be closed and drops what was parsed. |
| Resp.RedisClient.ReadBulkLength | redis-stable/src/networking.c:897-939 | The length line is awaited, rejected or taken as specified. |
| Resp.RedisClient.ReadBulkArgument | redis-stable/src/networking.c:941-967 | An argument is taken when it and its line end are there; a big one takes over the buffer. |
| Resp.RedisClient.ReadArguments | redis-stable/src/networking.c:889-968 | The loop ends with the arguments the specification reads, kept between calls. |
| Resp.RedisClient.ProcessMultibulkBuffer | redis-stable/src/networking.c:848-978 | Fields and result are those of the specified parser step for every buffer. |
| Resp.RedisClient.ProcessInlineBuffer | redis-stable/src/networking.c:796-833 | The same for inline requests. |
| Resp.RedisClient.ProcessInputBuffer | redis-stable/src/networking.c:980-1017 | Parses and executes until the buffer is used up or incomplete. |
| Resp.RedisClient.ReadQuery | redis-stable/src/networking.c:1019-1078 | One read of any permitted size followed by parsing keeps the parser between two steps. |
| AofLog.LoadReadsBackPrinter | redis-stable/src/aof.c:501-557 | Loading the printed form of any command list gives these commands. |
| AofLog.CutLogLoadsCommands | redis-stable/src/aof.c:501-557 | A log that is cut off anywhere is refused, unless the cut lies between two commands; then it gives exactly the commands before it. |
| AofSpec.WriteKeeps | redis-stable/src/aof.c:384-432 | A logged command, with SELECT when the database changes, keeps the invariant that file and buffer, and snapshot and rewrite buffer, rebuild the data. |
| AofSpec.FlushKeeps | redis-stable/src/aof.c:229-320 | So does a flush, which empties the buffer exactly if it is not put off. |
| AofSpec.StartRewriteKeeps | redis-stable/src/aof.c:955-1003 | So does starting a child, because the selected database is forgotten. |
| AofSpec.ChildDoneKeeps | redis-stable/src/aof.c:1042-1176 | So does the end of a child, whether it succeeds and the file is switched or it fails. |
| AofSpec.StartAofKeeps | redis-stable/src/aof.c:192-209 | So does switching logging on. |
| AofSpec.StopAofKeeps | redis-stable/src/aof.c:165-188 | So does switching it off, which ends a running child. |
| AofSpec.RunKeeps | redis-stable/src/aof.c:165-1176 | The invariant holds after every run of events. |
| AofSpec.LogAlwaysRebuilds | redis-stable/src/aof.c:384-432 | After any interleaving of writes, flushes, rewrites that succeed or fail and switching off and on: with logging on, loading file and buffer gives the current data; while a child runs, so does its snapshot with the rewrite buffer; and logging that waits for a rewrite has one running or scheduled. |
| AofSpec.FileAloneRebuilds | redis-stable/src/aof.c:1051-1148 | A forced flush, or the switch to a finished rewrite, leaves a file that rebuilds the data without any buffer: nothing is lost or repeated. |
| AofSpec.FlushWritesUnlessPostponed | redis-stable/src/aof.c:229-320 | A flush with bytes to write appends all of them to the open file, unless it is not forced, a background fsync runs, and it has not waited for two seconds; then it only notes since when it waits. |
| AofSpec.LosesAtMostTwoSeconds | redis-stable/src/aof.c:229-320 | The promise of appendfsync everysec: after a flush the file alone rebuilds the data of some moment since any flush two seconds or more before it, whatever writes, rewrites and postponed flushes lie between. |
| AofSpec.StopLeavesFile | redis-stable/src/aof.c:165-188 | Switching logging off leaves a file that rebuilds the data. |
| AofSpec.RewriteReplacesLog | redis-stable/src/aof.c:955-1176 | A rewrite that can fork starts unless one is running, and when its child succeeds the log is what the child wrote and what was logged since, with logging on. |
| AofSpec.FailedRewriteChangesNothing | redis-stable/src/aof.c:1127-1176 | A child that fails leaves log and data alone, and another can start. |
| AofSpec.DataIsWrites | redis-stable/src/aof.c:384-432 | The data that the logs rebuild are those that the writes of the run make, in order. |
| Aof.JoinedLength | redis-stable/src/aof.c:77-86 | With all blocks but the last full, the buffer is as long as the blocks say. |
| Aof.SelectBytes | redis-stable/src/aof.c:392-401 | The printf form of SELECT is the printed command. |
| Aof.AofServer.RewriteBufferSize | redis-stable/src/aof.c:77-86 | All three outcomes of switching logging on, and which of them is a success. |
| Aof.AofServer.RewriteBufferAppend | redis-stable/src/aof.c:89-126 | Blocks grow by exactly the appended bytes; all but the last stay full. |
| Aof.AofServer.RewriteBufferWrite | redis-stable/src/aof.c:131-151 | Writes the appended bytes in order. |
| Aof.AofServer.FeedAppendOnlyFile | redis-stable/src/aof.c:384-432 | Appends the same bytes to the log buffer and to the rewrite buffer, each if it is in use. |
| Aof.AofServer.FlushAppendOnlyFile | redis-stable/src/aof.c:229-320 | Appends the whole buffer to the open file when the flush is due, and postpones otherwise, for less than two seconds. |
| Aof.AofServer.RewriteBackground | redis-stable/src/aof.c:955-1003 | Starts a child from a snapshot unless one runs. |
| Aof.AofServer.InstallRewritten | redis-stable/src/aof.c:1051-1148 | Appends the difference and swaps files, descriptor, buffer and selected database as specified. |
| Aof.AofServer.BackgroundRewriteDone | redis-stable/src/aof.c:1042-1176 | The handler as a whole, including the clean-up and the rescheduling. |
| Aof.AofServer.StartAppendOnly | redis-stable/src/aof.c:192-209 | All three outcomes of switching logging on. |
| Aof.AofServer.StopAppendOnly | redis-stable/src/aof.c:165-188 | Flushes, closes and stops a running child. |
| AofRewriteSpec.GrowTwice | redis-stable/src/aof.c:603-656 | Extending a collection by two variadic commands is extending it by one with all the arguments. |
| AofRewriteSpec.ChunksReplay | redis-stable/src/aof.c:640-650 | Replaying the commands for any number of items has the effect of one command with all of them, in order. |
| AofRewriteSpec.ObjReplay | redis-stable/src/aof.c:891-908 | The commands for a string, list, set or hash rebuild it, whatever its size. |
| AofRewriteSpec.RowReplay | redis-stable/src/aof.c:885-915 | A key that has not expired is rebuilt with value and deadline; one that has leaves no trace. |
| AofRewriteSpec.FileReplay | redis-stable/src/aof.c:860-918 | Replaying the whole file builds, database by database, exactly the live keys. |
| AofRewriteSpec.ChunksFit | redis-stable/src/aof.c:640-648 | Every command that is emitted has a positive argument count within the limits of the protocol. |
| AofRewriteSpec.RewriteRebuildsLive | redis-stable/src/aof.c:839-941 | The file of a rewrite is a log of exactly the data that has not expired, which is what the background rewrite needs of its snapshot. |
| AofRewriteSpec.FileOfRewrite | redis-stable/src/aof.c:839-941 | A rewrite emits nothing but SELECT and the five commands that build values and set deadlines. |
| AofRewriteSpec.SnapshotLogged | redis-stable/src/aof.c:955-1003 | So what the child writes is a log of the data under every interpretation of the commands that agrees on those. |
| AofRewriteSpec.RewritingLogRebuilds | redis-stable/src/aof.c:165-1176 | Logging and rewriting composed: if each child writes what rewriteAppendOnlyFile writes for the data at the fork, then after every run of events, whatever all other commands do, the log file with its buffer, and the rewritten file with the rewrite buffer, rebuild the data. |
| AofRewrite.PendingStep | redis-stable/src/aof.c:811-825 | Each turn of the loop writes what the announced count still lacks, so that counts and arguments agree for every length. |
| AofRewrite.RewriteElements | redis-stable/src/aof.c:603-703 | The loop prints exactly the chunked commands for the elements of a list or set. |
| AofRewrite.RewriteHashObject | redis-stable/src/aof.c:806-830 | The same for the fields and values of a hash, with twice the count. |
| AofRewrite.RewriteKey | redis-stable/src/aof.c:876-916 | Prints the commands of one key, or nothing when it has expired. |
| AofRewrite.RewriteAppendOnlyFile | redis-stable/src/aof.c:839-941 | The file is the printed list of commands that the replay theorem is about. |
| Keyspaces.LiveIsUnique | redis-stable/src/rdb.c:1093-1155 | Being exactly the live keys of a list of databases determines a keyspace. |
| RdbRoundTrip.LengthRoundTrip | redis-stable/src/rdb.c:82-135 | A saved length loads as itself, with nothing more read, if and only if it is below the error value: at 4294967295 the loader reports an error and longer lengths are truncated. |
| RdbRoundTrip.IntegerEncodingIff | redis-stable/src/rdb.c:196-210 | A string is saved as an integer exactly if it is the decimal text of a 32-bit value. |
| RdbRoundTrip.IntegerRoundTrip | redis-stable/src/rdb.c:141-191 | A 1, 2 or 4 byte integer loads as its text. |
| RdbRoundTrip.LzfRoundTrip | redis-stable/src/rdb.c:212-266 | A compressed string loads as the original. |
| RdbRoundTrip.VerbatimRoundTrip | redis-stable/src/rdb.c:288-298 | So does one saved as it is. |
| RdbRoundTrip.StringRoundTrip | redis-stable/src/rdb.c:270-361 | Whichever of the three encodings was chosen, loading gives the text and consumes exactly the bytes that were written. |
| RdbRoundTrip.ObjectRoundTrip | redis-stable/src/rdb.c:478-595 | The same for lists, sets, hashes and opaque packed values. |
| RdbRoundTrip.RowLoads | redis-stable/src/rdb.c:611-627 | A saved key loads with value and deadline, unless the deadline has passed and a master loads it. |
| RdbRoundTrip.FileRoundTrip | redis-stable/src/rdb.c:630-1178 | Loading any file that a save may produce succeeds and gives, database by database, exactly the keys whose deadline had not passed when saving nor (for a master) when loading, with the same values and deadlines, with checksums on or off on either side. |
| RdbRoundTrip.SavesLoadAlike | redis-stable/src/rdb.c:630-1178 | Any two files that saves of the same data may produce load as the same table: the choice of encodings and of a checksum never shows. |
| Rdb.ChecksumGrows | redis-stable/src/rio.c:139-141 | Updating the checksum write by write gives the checksum of everything written. |
| Rdb.Rio.Write | redis-stable/src/rio.h:76-79 | Appends the bytes and keeps the checksum that of the data. |
| Rdb.Rio.Read | redis-stable/src/rio.h:81-87 | Reads exactly n bytes and advances, or reports failure; a read of no bytes fails, as fread does. |
| Rdb.WriteLen | redis-stable/src/rdb.c:82-106 | Writes the 6, 14 or 32 bit form. |
| Rdb.CompressString | redis-stable/src/rdb.c:212-226 | What it returns decodes to the string, is at least four bytes shorter and was chosen by the greedy law; nothing is returned only if that law leaves too little room, and never for 16 or more equal bytes. |
| Rdb.WriteRawString | redis-stable/src/rdb.c:270-300 | Writes the integer form if there is one, the plain one if compression is off or the string has at most 20 bytes, and otherwise the compressed one unless the compressor had too little room. |
| Rdb.WriteLongLong | redis-stable/src/rdb.c:303-319 | Writes an integer-encoded value by the shortest integer form, or as text. |
| Rdb.WriteObject | redis-stable/src/rdb.c:478-595 | Writes a value of each type as the format allows. |
| Rdb.WriteKeyValuePair | redis-stable/src/rdb.c:611-627 | Writes deadline, type, key and value, or nothing for an expired key. |
| Rdb.SaveFile | redis-stable/src/rdb.c:630-716 | The whole file is one that the round trip theorem covers. |
| Rdb.ReadLen | redis-stable/src/rdb.c:111-135 | Agrees with the specified loader on every input, malformed or cut short included. |
| Rdb.ReadInteger | redis-stable/src/rdb.c:166-191 | The same for the integer forms. |
| Rdb.ReadLzf | redis-stable/src/rdb.c:249-266 | The same for compressed strings, lengths that do not match the text included. |
| Rdb.ReadString | redis-stable/src/rdb.c:333-359 | The same for strings. |
| Rdb.ReadObject | redis-stable/src/rdb.c:771-1032 | The same for values. |
| Rdb.ReadOpcode | redis-stable/src/rdb.c:1093-1125 | The same for the two kinds of deadline and the type byte. |
| Rdb.ReadRecords | redis-stable/src/rdb.c:1093-1155 | The same for the record loop: database switches, expired keys and duplicates. |
| Rdb.CheckSum | redis-stable/src/rdb.c:1157-1168 | Accepts the checksum of the bytes read before it, or zero. |
| Rdb.ReadFile | redis-stable/src/rdb.c:1061-1178 | The whole loader equals its specification on every file; a file with a checksum is accepted only if that is zero or the right one. |
| Rdb.SaveThenLoad | redis-stable/src/rdb.c:630-1178 | Saving and loading again gives the one table that holds exactly the live keys. |
| RdbForeign.AcceptedIsChecked | redis-stable/src/rdb.c:1156-1168 | If a file of version 5 or later is accepted with checksums on, the eight bytes after its records are zero or the bitwise checksum of everything before them. |
| RdbForeign.DamagedChecksumRefused | redis-stable/src/rdb.c:1156-1168 | A saved file whose checksum is changed to anything but zero is refused. |
| RdbForeign.DamagedFileRefused | redis-stable/src/rdb.c:1156-1168 | A saved file with a checksum other than zero is refused after any change within eight bytes in a row, if its records end at the same place. |
| RdbForeign.DisguisedFileRefused | redis-stable/src/rdb.c:1156-1168 | In particular if the change makes it look like the file of another dataset. |
| RdbForeign.RecordsOn | redis-stable/src/rdb.c:1093-1155 | The loader takes what it needs from the front: what follows the records does not matter to it. |
| RdbForeign.TruncatedFileRefused | redis-stable/src/rdb.c:1093-1178 | A saved file that is cut off anywhere is refused when checksums are on. |
| RdbForeign.OldFileLoads | redis-stable/src/rdb.c:1077-1168 | Files of versions 1 to 4, without a checksum and with anything behind them, load like current ones. |
| RdbForeign.HeaderNeeded | redis-stable/src/rdb.c:1077-1089 | Other signatures and versions are refused. |
| RdbForeign.SecondsLoad | redis-stable/src/rdb.c:1101-1109 | A deadline in seconds loads as one in milliseconds; -1 is an error. |
| RdbForeign.OldDeadlineLoads | redis-stable/src/rdb.c:1101-1109 | So a pair with such a deadline loads like one with the same deadline in milliseconds. |
| RdbForeign.UnknownDatabaseRefused | redis-stable/src/rdb.c:1122-1131 | A database that the server does not have is refused, |
| RdbForeign.DuplicateRefused | redis-stable/src/rdb.c:1138-1150 | and so is a live key that is there already. |
| RdbForeign.UnknownEncodingRefused | redis-stable/src/rdb.c:338-349 | So are special encodings of strings that do not exist, |
| RdbForeign.DuplicateFieldRefused | redis-stable/src/rdb.c:928-945 | and a hash that has a field twice. |
| Crc64.ReflectedIsReversed | redis-stable/src/crc64.c:5-9 | The constant of the table is the polynomial with its bits in reverse order. |
| Crc64.TabIsBit8 | redis-stable/src/crc64.c:42-171 | Each of the 256 entries is its index divided bit by bit. |
| Crc64.StepIsBit8 | redis-stable/src/crc64.c:176-179 | One table step equals eight steps of reflected division. |
| Crc64.FeedByteIsBit8 | redis-stable/src/crc64.c:5-9 | Feeding a byte bit by bit is dividing the register with the byte folded in. |
| Crc64.Crc64 | redis-stable/src/crc64.c:173-181 | The table-driven loop computes bit-at-a-time reflected division by 0xad93d23594c935a9 for every start value and input. |
| Crc64.DivideAppend | redis-stable/src/crc64.c:173-181 | Checksums can be computed piece by piece. |
| Crc64.DivideInjective | redis-stable/src/crc64.c:173-181 | With the same input, different registers stay different. |
| Crc64.BurstChangesChecksum | redis-stable/src/crc64.c:173-181 | Two inputs of the same length that differ only within eight consecutive bytes have different checksums. |
| Dump.AcceptsExactlyPayloads | redis-stable/src/migrate.c:43-60 | When a client's watched keys count as touched changes only by a touch or a flush that removes a watched key, and by unwatching; a quiet change of a key does not count. |
| Dump.BurstRejected | redis-stable/src/migrate.c:43-60 | After any change within eight consecutive bytes before the checksum, version included, a created payload is rejected. |
| Dump.CreateDumpPayload | redis-stable/src/migrate.c:10-37 | Produces the serialized object with its footer. |
| Dump.VerifyDumpPayload | redis-stable/src/migrate.c:43-60 | The invariant holds after every run of any number of clients, with keys that expire at any time. |
| Dump.RestoreInvertsDump | redis-stable/src/migrate.c:86-126 | A created payload is accepted, and loading it gives the value back and stops at the footer. |
| MultiSpec.WatchForKeyKeeps | redis-stable/src/multi.c:202-229 | Watching keeps the invariant: indexes inverse and without duplicates, flags and queue explained by what has happened. |
| MultiSpec.ForgetKeeps | redis-stable/src/multi.c:233-257 | So does unwatching, which drops empty lists. |
| MultiSpec.TouchKeeps | redis-stable/src/multi.c:261-278 | So does touching a key: exactly the clients that watch it become dirty. |
| MultiSpec.FlushKeeps | redis-stable/src/multi.c:284-305 | So does flushing one or all databases, which dirties the watchers of keys that existed. |
| MultiSpec.ChangeQuietlyKeeps | redis-stable/src/db.c:503-529 | A key that expires, is evicted or is moved to another database changes the dataset but no flag, watch list or transaction. |
| MultiSpec.CallAllKeeps | redis-stable/src/multi.c:158-170 | Running a queue keeps it and logs the whole queue in order. |
| MultiSpec.TouchedNext | redis-stable/src/multi.c:261-305 | When a client's watched keys count as touched changes only by a touch or a flush that removes a watched key, and by unwatching. |
| MultiSpec.FailedNext | redis-stable/src/multi.c:79-84 | A queueing error counts only inside a transaction and until it ends. |
| MultiSpec.ExecRunsAllOrNothing | redis-stable/src/multi.c:114-182 | EXEC runs the queue, whole and in order, if no watched key was touched since it was watched and no queueing error was flagged; otherwise it runs none of it, with the error reply taking precedence; either way the client starts afresh. |
| MultiSpec.QuietChangeStillExecs | redis-stable/src/db.c:399-440 | So a transaction that would run before such a change of a watched key runs after it as well. |
| MultiSpec.RunKeeps | redis-stable/src/multi.c:56-323 | The invariant holds after every run of any number of clients. |
| MultiRuns.StepNotes | redis-stable/src/multi.c:56-323 | What counts as having happened is determined by the event and its effects: no watch, touch, flush, error, begin or end can go unnoticed. |
| MultiRuns.WatchIndexesAgree | redis-stable/src/multi.c:202-257 | In every reachable state the two watch indexes are inverse, without duplicates or empty lists, and a client is dirty exactly if what happened touched one of its keys after it was watched. |
| MultiRuns.ExecAfterAnyRun | redis-stable/src/multi.c:114-182 | In every reachable state EXEC appends exactly the queue or nothing to what has been executed, by that criterion. |
| MultiRuns.ModifiedIsDirty | redis-stable/src/db.c:197-199 | After a command that modifies a key, every other client that watches the key is dirty, whatever else the command does. |
| MultiRuns.OthersUntouched | redis-stable/src/multi.c:261-305 | A command with one effect leaves every other client as it was, but for the dirty flag of those that watch the key, or a key that a flush removes. |
| MultiRuns.DirtyExecFails | redis-stable/src/multi.c:140-149 | EXEC of a dirty client runs nothing. |
| MultiRuns.StepOnClient | redis-stable/src/multi.c:56-323 | Every event seen from any client: how its queue and its state of transaction go on, that it loses no watched key and no dirty flag unless it gives them up, and which commands run. |
| MultiRuns.WhoIsConnected | redis-stable/src/networking.c:598-682 | Clients come and go with their own connections alone; a new one starts outside any transaction and watches nothing. |
| MultiRuns.TransactionIsABlock | redis-stable/src/multi.c:56-182 | From MULTI on, whatever other clients do, EXEC runs exactly the commands that the client has sent since, in order and with nothing between them, or none. |
| MultiRuns.StaleTransactionFails | redis-stable/src/multi.c:114-278 | Optimistic locking: a client watches a key, another one modifies it, and unless the client gives up watching, its EXEC runs nothing, whatever else happens before, between and after. |
| MultiRuns.UndisturbedTransactionRuns | redis-stable/src/multi.c:114-182 | And if no command touches a watched key or flushes, and no error is queued, it runs. |
| Multi.Server.WatchForKey | redis-stable/src/multi.c:202-229 | Both indexes are updated unless the key is watched already. |
| Multi.Server.UnwatchAllKeys | redis-stable/src/multi.c:233-257 | Both indexes forget the client. |
| Multi.Server.DiscardTransaction | redis-stable/src/multi.c:72-77 | Queue, flags and watches are dropped together. |
| Multi.Server.TouchWatchedKey | redis-stable/src/multi.c:261-278 | Marks exactly the clients listed for the key. |
| Multi.Server.FlushDatabase | redis-stable/src/multi.c:284-305 | The loops mark exactly the clients that lose a key and remove the keys. |
| Multi.Server.ModifyKeyQuietly | redis-stable/src/db.c:399-440 | A key comes or goes without touchWatchedKey. |
| Multi.Server.QueueMultiCommand | redis-stable/src/multi.c:56-70 | Appends the command to the queue. |
| Multi.Server.CallQueued | redis-stable/src/multi.c:158-170 | Executes the queue in order while the commands touch and flush keys. |
| Multi.Server.ExecCommand | redis-stable/src/multi.c:114-182 | All branches, with their replies. |
| IntSetSpec.ValueWidth | redis-stable/src/intset.c:45-52 | The narrowest encoding that holds the value. |
| IntSetSpec.GetPut | redis-stable/src/intset.c:55-94 | A stored value is read back. |
| IntSetSpec.GetPutElsewhere | redis-stable/src/intset.c:55-94 | Slots of any two widths that do not overlap are independent. |
| IntSetSpec.ElementsMoved | redis-stable/src/intset.c:182-201 | Moving the tail over bytes drops or duplicates exactly the elements in between. |
| IntSetSpec.InsertedSorted | redis-stable/src/intset.c:204-231 | Inserting where the search says keeps the order strict and adds one member. |
| IntSetSpec.DeletedSorted | redis-stable/src/intset.c:234-251 | Deleting keeps it and removes one. |
| IntSet.UpgradeStep | redis-stable/src/intset.c:157-180 | Writing element j at the new width never overwrites an element that is still to be read at the old width. |
| IntSet.UpgradeEnds | redis-stable/src/intset.c:172-177 | After the loop the new value sits before or behind all the old ones. |
| IntSet.WiderIsOutside | redis-stable/src/intset.c:157-180 | A value that needs a wider encoding is no member and belongs at the end that its sign says. |
| IntSet.IntSet.constructor | redis-stable/src/intset.c:97-102 | A new set is empty. |
| IntSet.IntSet.Search | redis-stable/src/intset.c:115-154 | Binary search with its two shortcuts decides membership and finds the position or where the value belongs. |
| IntSet.IntSet.MoveTail | redis-stable/src/intset.c:182-201 | Moves the tail in place, overlapping or not. |
| IntSet.IntSet.UpgradeAndAdd | redis-stable/src/intset.c:157-180 | All elements keep their values at the new width and the value is added at the right end. |
| IntSet.IntSet.Add | redis-stable/src/intset.c:204-231 | Set union on the bytes: strictly sorted, all members fit, success exactly for a new member, encoding the wider of the two. |
| IntSet.IntSet.Remove | redis-stable/src/intset.c:234-251 | Set difference, success exactly for a member, encoding unchanged. |
| IntSet.IntSet.Find | redis-stable/src/intset.c:254-257 | Membership, for values too wide for the encoding as well. |
| IntSet.IntSet.GetElement | redis-stable/src/intset.c:266-272 | The element at a position, or failure beyond the end. |
| Bio.ExclusiveKeeps | redis-stable/src/bio.c:124-193 | At every step the lock is held by whoever is inside a critical section, and by nobody else. |
| Bio.CountKeeps | redis-stable/src/bio.c:124-184 | The counter equals the list length but for the step between changing the one and the other. |
| Bio.FifoKeeps | redis-stable/src/bio.c:138-184 | What was submitted is what has finished followed by what is listed. |
| Bio.SignalKeeps | redis-stable/src/bio.c:131-157 | No wake-up is lost: a worker waits without a signal only if the list is empty or the signal is about to be sent. |
| Bio.ZeroKeeps | redis-stable/src/bio.c:187-193 | A pending count of 0 that was read means that every job submitted before the reading has finished. |
| Bio.JobsFinishInOrder | redis-stable/src/bio.c:124-193 | For every interleaving of any number of threads with the worker: jobs finish at most once each in submission order, the counter is exact whenever the lock is free, the node removed after relocking is still the head, and the answer 0 keeps its meaning. |
| Bio.DueStep | redis-stable/src/bio.c:124-193 | While a thread holds the lock, or the worker is signalled or has jobs, that one can take a step, which is no spurious wake-up and brings the end nearer. |
| Bio.EverythingFinishes | redis-stable/src/bio.c:138-184 | From every state with the invariant, a bounded number of such steps, six for each job, finishes every submitted job: no deadlock, no lost signal, no need for spurious wake-ups. |
| Bio.NeverStuck | redis-stable/src/bio.c:124-184 | So after any run from the start all submitted jobs can still be finished. |
| Bio.JobsConserved | redis-stable/src/bio.c:124-136 | In every run each job is submitted as often as it was created, but for threads that are on their way: none is lost or made up. |
| Bio.AnswerIsCount | redis-stable/src/bio.c:187-193 | The number that is answered is that of the jobs that have not finished, or one more for a job that just ran. |
| Rand48.Product | redis-stable/src/rand.c:80-93 | The product of multiplier and state in limbs, with what falls out at 48 bits. |
| Rand48.LimbsAddUp | redis-stable/src/rand.c:80-93 | The sums with their carries are the low 48 bits of the result. |
| Rand48.Generator.Next | redis-stable/src/rand.c:80-93 | The limb step computes (0x5DEECE66D X + 0xB) mod 2^48 for every state, with every limb below 2^16. |
| Rand48.Generator.Lrand48 | redis-stable/src/rand.c:71-74 | Returns the new state divided by 2^17, between 0 and 2^31 - 1. |
| Rand48.Generator.Srand48 | redis-stable/src/rand.c:76-78 | The seed becomes the upper 32 bits above 0x330E, negative seeds included. |
| Rand48.Numbers | redis-stable/src/rand.c:71-93 | A run of n calls after seeding returns the upper bits of the iterated recurrence, one by one. |
| Rand48.RetreatInvertsAdvance | redis-stable/src/rand.c:80-93 | The recurrence has an inverse: no two states share a successor. |
| Rand48.IterateInjective | redis-stable/src/rand.c:80-93 | So different states stay different for ever. |
| BitOps.TableIsOnes | redis-stable/src/bitops.c:65 | The 256-entry table counts one bits. |
| BitOps.SwarAdds | redis-stable/src/bitops.c:74-87 | Three masked additions and a multiplication add up the bits of four bytes. |
| BitOps.WordOnes | redis-stable/src/bitops.c:74-87 | The smallest of the four candidates is the squared length of the shorter way on each axis, for any world length, or -1 for what is no position. |
| BitOps.Popcount | redis-stable/src/bitops.c:61-94 | The 16-byte loop followed by the table gives the number of one bits for every length. |
| BitOps.AndBit | redis-stable/src/bitops.c:321-335 | A bit of AND is set exactly if it is set in all the strings extended with zeros. |
| BitOps.OrBit | redis-stable/src/bitops.c:321-335 | A bit of OR is set exactly if it is set in one of them. |
| BitOps.XorBit | redis-stable/src/bitops.c:321-335 | A bit of XOR is set exactly if it is set in an odd number of them. |
| BitOps.WordStep | redis-stable/src/bitops.c:252-320 | Combining words combines the bytes in them. |
| BitOps.CombineBlock | redis-stable/src/bitops.c:276-300 | Four words at a time combine 32 bytes and touch nothing else. |
| BitOps.FastPath | redis-stable/src/bitops.c:252-320 | The word-wise path leaves the combination of all strings in the bytes it has done. |
| BitOps.Lengths | redis-stable/src/bitops.c:223-249 | The longest length is attained and the shortest is within every string. |
| BitOps.BitOp | redis-stable/src/bitops.c:223-336 | Fast path and byte loop together give, for any number and lengths of strings, a result as long as the longest whose every byte is the combination of the strings extended with zeros. |
| Galaxy.DiagonalIsFloor | app/models/galaxy.rb:18-26 | The floor of the real square root expression is the integer j with j(j+1)/2 <= i < (j+1)(j+2)/2. |
| Galaxy.CoordsInvertsCalcX | app/models/galaxy.rb:8-26 | getCoords undoes calcX up to reduction modulo the world length, for all integers. |
| Galaxy.CalcXInvertsCoords | app/models/galaxy.rb:8-26 | calcX undoes getCoords for every position whose coordinates lie in the world. |
| Galaxy.GetDistance | app/models/galaxy.rb:28-70 | The smallest of the four candidates is the squared length of the shorter way on each axis, or -1 for what is no position. |
| Galaxy.ShortestOverWraps | app/models/galaxy.rb:28-70 | No way around the world, however often in each direction, is shorter. |
| Galaxy.AttainedByWrap | app/models/galaxy.rb:28-70 | And one of them is as short. |
| Galaxy.DistanceSymmetric | app/models/galaxy.rb:28-70 | The distance is symmetric. |
| Galaxy.ZeroOnlyForSame | app/models/galaxy.rb:28-70 | It is zero exactly for equal cells. |
| Galaxy.TriangleInequality | app/models/galaxy.rb:28-70 | Its real square root satisfies the triangle inequality. |

## Left out

Represented differently:

- Lzf.Compress: all buffers lie at addresses of 8192 and above, since an unsigned distance could wrap around below that; and the compile-time choices are the repository's own (HLOG 16, VERY_FAST, no INIT_HTAB).
- Dict.Dict.DoDelete: entries are values in the sequence of their bucket, named by their unique keys, so pointer identity and freeing are not modelled; nor are unsafe iterators, dictGetRandomKey, dictEmpty and dictRelease.
- Dict.Dict.ScanBuckets: the iterator saves the key of the next entry instead of a pointer to it; deleting an entry that some iterator has saved is what a caller must not do, as in the source.
- DictSpec.RunKeepsSizes: stated below LONG_MAX, where the source stops doubling.
- DictSpec.RehashOneKeeps: the rehash cursor is an unbounded integer; NewDictionaryIsMap bounds it below the range of int for the sizes it allows.
- Dict.Dict.MoveBucket: the same cursor, in place.
- DictSpec.AddKeeps: in a bucket whose negative number is not -1 the source writes outside the table; the model loses the entry instead.
- PqSort.PartialSort: elements are array slots, so the word-wise and byte-wise swaps of swapfunc are one exchange; SkippedOnBytes relates slots to addresses.
- RespAccepts.MalformedIsRejected: with more than 64 KB in the buffer the parser also rejects a line that is not there in full, which may be the beginning of a good one.
- Resp.RedisClient.ResetClient: clearing the ASKING flag, which is for clusters, is left out.
- Resp.RedisClient.ProcessInputBuffer: blocked clients and commands whose processing returns an error are left out.
- Resp.RedisClient.ReadQuery: read errors and the limit of the query buffer are left out.
- IntSet.IntSet.Add: the element count stays below 0x1fffffff, where its int and uint32 sizes do not overflow.
- Aof.AofServer.FeedAppendOnlyFile: commands with a relative expiry are translated with a second reading of the clock, so they are not part of the model; an execution is a deterministic function of data, database and arguments.
- AofSpec.LosesAtMostTwoSeconds: time is what the server reads at each flush, and written means handed to write(2); when the disk has it is up to fsync.
- AofSpec.ChildDoneKeeps: a failing file operation of the handler is one failure that changes nothing; short writes in flushes, on which the source exits, do not occur, and fsync and its thread appear only as the flag that postpones a write.
- AofRewriteSpec.FileReplay: the effects of SET, RPUSH, SADD, HMSET and PEXPIREAT are defined here as the commands are documented; an empty collection, which Redis does not keep, leaves no key.
- AofRewriteSpec.ObjReplay: sorted sets are left out here and below, because their scores are floating point numbers in decimal.
- AofRewriteSpec.RowReplay: without sorted sets.
- AofRewriteSpec.RewriteRebuildsLive: without sorted sets.
- AofRewriteSpec.RewritingLogRebuilds: without sorted sets; the data at a fork holds no key whose deadline has passed, which the source deletes and logs when it finds one.
- AofRewrite.RewriteKey: without sorted sets.
- AofRewrite.RewriteAppendOnlyFile: without sorted sets.
- AofLog.LoadReadsBackPrinter: MULTI inside a loaded file is not covered.
- RespRoundTrip.ParserReadsBackPrinter: covers commands of 1 to 1048576 arguments of at most 512 MB each, the limits of the parser itself; the client's query buffer limit is not modelled.
- Rdb.ReadObject: sorted sets and zipmaps (types 3 and 9) are refused, and ziplists, intsets and zset ziplists (types 10 to 13) are opaque strings; sets and hashes load as mathematical sets and maps.
- RdbRoundTrip.ObjectRoundTrip: without sorted sets as skip lists and zipmaps; a hash with the same field twice, which no hash holds, fails to load, where the source only asserts in one of its encodings.
- RdbRoundTrip.SavesLoadAlike: without sorted sets as skip lists.
- Rdb.WriteObject: without sorted sets as skip lists, whose scores are floating point numbers in decimal.
- Rdb.SaveFile: without sorted sets as skip lists.
- Rdb.ReadFile: refuses files with sorted sets as skip lists or zipmaps.
- Rdb.SaveThenLoad: without sorted sets as skip lists.
- RdbRoundTrip.FileRoundTrip: without sorted sets as skip lists; the clock, the role of the server and the number of databases are parameters; the exits and log messages of the loader are one failure.
- MultiSpec.RunKeeps: what a command touches or flushes is a parameter of the step; replies, propagation to slaves and MONITOR are left out.
- Bio.JobsFinishInOrder: one job type, whose lock, list, counter and condition are independent of the other types; bio is a machine of atomic steps rather than methods, because a Dafny method cannot be interleaved; thread creation, signal masks and stack sizes are left out, and that a scheduler keeps running threads is not a property of this code.
- BitOps.BitOp: loads and stores of words are little endian, and NOT is called with one string, as its command checks; storing the result and the memory alignment of the strings are left out.
- Rand48.Generator.Next: the static limbs are fields of an object.
- Galaxy.GetDistance: gives squares of distances without the scale factor, over exact integers and reals; rounding of floating point square roots, arguments that are no integers and other classes are left out.
- Memory that cannot be allocated, and reference counts, appear nowhere.

Not modelled:

- Sockets, event loops, files, fork, fsync and signals themselves.
- Ziplist, zipmap, skip list and sorted set code; expiry, replication, scripting, publish and subscribe, configuration.
- The DUMP, RESTORE and MIGRATE commands around the payload functions.
- The Rails controllers, reports, jobs and the economy of planets and fleets, whose results depend on unfinished code.
