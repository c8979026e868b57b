# Verified models of Particl Core components

Each module models one component of the node and proves what that component is for. Hash
functions, clocks, random numbers and the network are parameters of the models, so every
statement holds whatever they answer.

- **Coins, CoinsCache** – the stack of write-back UTXO caches above the coins database. The value
  model gives each level a meaning (one plain outpoint-to-coin map with a best block); the classes
  change maps in place and are proved equal to it.
- **AddrTables, AddrOps, AddrMan, AddrCheck, AddrFile, AddrSave** – the peer address tables: the
  elementary changes and their invariant, the operations composed of them, the object with its
  bucket arrays, the consistency check, reading any saved file, and saving.
- **CheckQueue** – the script verification queue as a step system of a master and any number of
  workers. **HeadersSync** – the two-phase headers download.
- **Limbs, Arith, Compact** – 256-bit integers as eight limbs, the compact target format and the
  proof of work of a block.
- **Radix, Base58**, **Bech32** – the two address encodings.
- **Cuckoo** – the signature cache. **Chain** – ancestors through skip links and the active chain.
  **CompactBlocks** – reconstruction of a block from short transaction ids.
- **Division, Sets, Wrappers** – shared elementary facts.

A class stands for a value or a number (`Model()`, `Tables()`, `State()`, `Value()`, `Live()`), and its
methods are tied to functions on that value; what the source promises is proved about those
functions. Parameters marked `ghost` carry no data at run time.

## Findings

- A cache that was never asked for its best block erases its parent's when it is flushed
  (`Coins.FlushLosesBestBlock`; exactly when: `Coins.FlushBestBlock`).
- A success reported with time 0 makes the address tables fail their own consistency check
  (`AddrOps.SuccessAtZero`; exactly when: `AddrOps.GoodKeepsTimesIff`).
- Headers with a witness root come back from the headers download without it
  (`HeadersSync.WitnessRootIsLost`; exactly when: `HeadersSync.RebuiltIff`).
- A length limit on Base58 decoding is not obeyed by blank text under a negative limit
  (`Base58.NothingPasses`; obeyed exactly if the limit is not negative or the text not blank:
  `Base58.LimitIff`).
- The comment in src/cuckoocache.h:424-437 says the first displaced element is the one at the first
  place; the code takes the second (`Cuckoo.FirstDisplaced`). The model follows the code.
- src/bech32.cpp:377 accepts texts of up to 140 characters, more than the 90 of the "Bech32" section
  of BIP 173. The model follows the code.

## Model

| member | source | states |
|---|---|---|
| Coins.RunAgrees | src/coins.cpp:42-282 | after any legal sequence of fetch, add, spend, uncache, set and get best block, flush, push and drop on any stack of caches, nothing has thrown or failed an assertion, every entry is truthful and in a documented state, and every level shows exactly the coins and best block of a plain reference |
| Coins.StepAgrees | src/coins.cpp:42-282 | one legal operation succeeds and matches one step of the plain reference |
| Coins.LevelsAgree | src/coins.h:218-260 | every stack of views has such a plain description |
| Coins.GetIsTransparent | src/coins.cpp:59-66 | reading a coin changes what is cached at any level but nothing that is visible at any level, and returns the visible coin |
| Coins.FetchIsTransparent | src/coins.cpp:42-57 | pulling an entry in keeps every promise of FRESH and DIRTY and what every level shows |
| Coins.AddIsUpdate | src/coins.cpp:68-106 | adding updates one outpoint, ignores unspendable scripts, fails exactly on a known unspent coin, and keeps FRESH truthful if and only if the caller's claim of no overwrite is right |
| Coins.SpendIsRemove | src/coins.cpp:152-172 | spending removes one outpoint from the view, whether a FRESH entry is erased or spentness is recorded |
| Coins.UncacheIsTransparent | src/coins.cpp:269-282 | dropping an unflagged entry changes nothing visible |
| Coins.LearnIsTransparent | src/coins.cpp:195-199 | asking for the best block changes nothing visible, and pins the answer unless there is none |
| Coins.FlushMovesTheView | src/coins.cpp:206-267 | a truthful child never meets the misapplied-FRESH error, and after the flush the parent shows what the child showed and the levels below are untouched |
| Coins.FlushAgrees | src/coins.cpp:206-267 | a flush fails only for lack of a best block at the database, and otherwise matches the plain reference, best blocks included |
| Coins.FlushBestBlock | src/coins.cpp:195-199 | the parent's best block after a flush is the child's if and only if the child pinned one or the parent's equals that below it |
| Coins.FlushLosesBestBlock | src/coins.cpp:206-267 | a concrete stack in which a flush loses the best block |
| CoinsCache.CoinsViewDB.BatchWrite | src/txdb.cpp:134-193 | whatever the order of enumeration, dirty unspent coins are written and dirty spent ones erased; refuses a null best block and then changes nothing |
| CoinsCache.CoinsViewCache.FetchCoin | src/coins.cpp:42-57 | the object's stack becomes the fetched value, at every level |
| CoinsCache.CoinsViewCache.GetCoin | src/coins.cpp:59-66 | as the value model, with the coin if unspent |
| CoinsCache.CoinsViewCache.AddCoin | src/coins.cpp:68-106 | as the value model; false is the overwrite error, which changes nothing visible |
| CoinsCache.CoinsViewCache.SpendCoin | src/coins.cpp:152-172 | as the value model, with the coin that was there |
| CoinsCache.CoinsViewCache.HaveCoin | src/coins.cpp:185-188 | true exactly if the view shows a coin, and nothing visible changes |
| CoinsCache.CoinsViewCache.UncacheCoin | src/coins.cpp:269-282 | as the value model |
| CoinsCache.CoinsViewCache.BatchWriteEntries | src/coins.cpp:206-260 | the loop over the child's map has one outcome in every order, and fails exactly if some FRESH entry meets an unspent one |
| CoinsCache.CoinsViewCache.FlushCache | src/coins.cpp:262-267 | succeeds unless the base is the database and no best block is set; the base then shows the old view |
| CoinsCache.CoinsViewCache.SetBestBlock | src/coins.cpp:201-204 | sets the own best block and nothing else |
| CoinsCache.CoinsViewCache.GetBestBlock | src/coins.cpp:195-199 | returns the visible best block and remembers it at every level asked |
| CoinsCache.CoinsViewCache.AddCoins | src/coins.cpp:116-150 | with the lookup, or for a coinbase, or when no output is unspent yet, adds all spendable outputs without an error and keeps the invariant |
| AddrTables.SwapRandomKeeps | src/addrman.cpp:433-455 | exchanging two places keeps all cross references, counts and counters |
| AddrTables.CreateKeeps | src/addrman.cpp:419-431 | a new entry leaves everything in step except that it floats outside both tables |
| AddrTables.DeleteKeeps | src/addrman.cpp:457-471 | deleting a floating entry removes it from all five structures and keeps the rest in step |
| AddrOps.ClearNewKeeps | src/addrman.cpp:473-489 | freeing a new slot drops one reference and deletes the entry with the last one; all on the way is asserted truly |
| AddrOps.EvictKeeps | src/addrman.cpp:515-543 | an evicted tried entry returns to the new table and everything stays in step |
| AddrOps.MakeTriedKeeps | src/addrman.cpp:491-544 | moving an entry into the tried table, with the eviction it may cause, keeps everything in step |
| AddrOps.MakeTriedMoves | src/addrman.cpp:491-544 | the entry ends in its tried slot, at most one other entry changes sides, no tried slot is freed |
| AddrOps.AddSingleKeeps | src/addrman.cpp:546-621 | announcing an address keeps everything in step and frees no tried slot; on success the announced address is known, and its entry is referenced from the slot its source assigns |
| AddrOps.FindExact | src/addrman.cpp:404-417 | an address is found if and only if some entry carries it, and what is found carries it |
| AddrOps.AddManyKeeps | src/addrman.cpp:677-687 | announcing many reuses no id, frees no tried slot and keeps the times |
| AddrOps.GoodKeeps | src/addrman.cpp:623-675 | a success keeps everything in step at any time, and moves the entry of that very address into its tried slot exactly if it is known, not tried yet and not held back by a taken slot |
| AddrOps.GoodKeepsTimesIff | src/addrman.cpp:623-675 | the exact condition under which the times still pass the consistency check afterwards |
| AddrOps.SuccessAtZero | src/addrman.cpp:623-675 | a concrete manager in which a success at time 0 makes the times fail |
| AddrOps.AttemptKeeps | src/addrman.cpp:689-707 | an attempt keeps the invariant, and the times exactly if the address is unknown or the time is not negative |
| AddrOps.ConnectedKeeps | src/addrman.cpp:816-833 | a connection keeps the invariant and the times |
| AddrOps.SetServicesKeeps | src/addrman.cpp:835-849 | a change of services keeps the invariant and the times |
| AddrOps.ResolveAllKeeps | src/addrman.cpp:851-912 | resolving all collisions, in any order of enumeration, keeps the invariant and the times |
| AddrOps.SelectTriedCollisionFinds | src/addrman.cpp:914-940 | a waiting id that is still known competes with a tried slot that is taken, so no entry for -1 is ever created |
| AddrOps.RunSound | src/addrman.cpp:404-940 | over any sequence of operations with sane clocks all structures, counters and reference counts are in step, at most ten ids wait, and each known one points at a taken tried slot |
| AddrOps.EmptySound | src/addrman.cpp:107-123 | the manager starts sound |
| AddrMan.AddrManImpl.constructor | src/addrman.cpp:107-123 | both bucket arrays are empty and the object is the sound empty manager |
| AddrMan.AddrManImpl.SwapRandomPlaces | src/addrman.cpp:433-455 | in-place exchange equals the value change |
| AddrMan.AddrManImpl.CreateEntry | src/addrman.cpp:419-431 | as the value change, under the next id |
| AddrMan.AddrManImpl.DeleteEntry | src/addrman.cpp:457-471 | as the value change |
| AddrMan.AddrManImpl.ClearNewSlot | src/addrman.cpp:473-489 | as the value change, on the array |
| AddrMan.RemoveFromBuckets | src/addrman.cpp:495-509 | the loop that starts at the entry's own bucket and stops early removes exactly all its references |
| AddrMan.AddrManImpl.MakeTriedEntry | src/addrman.cpp:491-544 | as the value operation |
| AddrMan.AddrManImpl.InsertEntry | src/addrman.cpp:597-620 | as the value operation, with its answer |
| AddrMan.AddrManImpl.AddSingleAddress | src/addrman.cpp:546-621 | as the value operation, with its answer |
| AddrMan.AddrManImpl.AddAddresses | src/addrman.cpp:677-687 | the loop equals the value operation on the whole list |
| AddrMan.AddrManImpl.GoodAddress | src/addrman.cpp:623-675 | as the value operation, with its answer |
| AddrMan.AddrManImpl.AttemptAddress | src/addrman.cpp:689-707 | as the value operation |
| AddrMan.AddrManImpl.ConnectedAddress | src/addrman.cpp:816-833 | as the value operation |
| AddrMan.AddrManImpl.SetServicesOf | src/addrman.cpp:835-849 | as the value operation |
| AddrMan.AddrManImpl.ResolveCollisions | src/addrman.cpp:851-912 | as the value operation in the order of enumeration, and the manager stays sound |
| AddrMan.AddrManImpl.SelectTriedCollision | src/addrman.cpp:914-940 | as the value operation, and the manager stays sound |
| AddrMan.AddrManImpl.GetAddr | src/addrman.cpp:778-814 | a sample of bounded size without repetition, only of wanted addresses, and short only if there are no others; only places in vRandom change |
| AddrCheck.CheckAddrman | src/addrman.cpp:980-1069 | the loops return 0 exactly if every one of the documented conditions holds and the key is set |
| AddrCheck.PassesIffConsistent | src/addrman.cpp:980-1069 | the conditions of the check are equivalent to the invariant, but for ids never handed out and keys of mapAddr that lead to no entry with that address |
| AddrCheck.SoundIffPasses | src/addrman.cpp:980-1069 | soundness is passing the check together with what it does not look at |
| AddrCheck.RunPasses | src/addrman.cpp:980-1069 | from a state that passes the check any sequence of operations with sane clocks ends in one that passes |
| AddrFile.ReadTriedLoads | src/addrman.cpp:287-318 | whatever a file holds, its entries get consecutive ids, a tried entry is lost exactly if it is not valid or an earlier one took its slot, and an address leads to the last entry that has it |
| AddrFile.ReadIsDraft | src/addrman.cpp:287-379 | after the slots of any file, places, tables, slots, reference counts and counters are in step; only mapAddr may miss an entry, and only new entries may be without references |
| AddrFile.DeleteDraft | src/addrman.cpp:433-471 | every assertion met while an entry without references is deleted holds, and the tables stay in step for the next deletion |
| AddrFile.PruneRemoves | src/addrman.cpp:381-392 | the loop removes exactly the new entries without references, with the keys of their addresses, in any order |
| AddrFile.UnserializeIff | src/addrman.cpp:229-402 | any file is refused or gives consistent tables, and is accepted if and only if its counts are in range, its key is set, no entry that stays shares its address with another one read, and no saved time of an entry that stays is negative, nor zero for a tried one |
| AddrSave.WrittenOnce | src/addrman.cpp:188-210 | every entry is written exactly once, in the part its table says, and the counters written are right, so both assertions hold |
| AddrSave.CountsFit | src/addrman.cpp:271-283 | the counters of consistent tables are within the range a reader accepts |
| AddrSave.ReadSlotsFills | src/addrman.cpp:322-379 | with the same bucketing every saved slot is filled again and counted |
| AddrSave.ReadOfWrite | src/addrman.cpp:131-402 | tables that are saved and read back hold the same entries in the same tried and new slots with the same reference counts, up to new ids; nothing is deleted and the check passes unless the key is null |
| AddrSave.WrittenAccepted | src/addrman.cpp:131-402 | saved tables are accepted under any key, grouping of addresses and AS map, and the result is consistent under the new bucketing |
| CheckQueue.RunsAreSound | src/checkqueue.h:69-188 | in every interleaving each finished Wait returned true if and only if all checks added for it hold, nTodo is what is queued or in flight, and a master asleep without a notification leaves an empty queue and a busy worker |
| CheckQueue.StepKeeps | src/checkqueue.h:69-130 | every step of every thread keeps the invariant |
| CheckQueue.ReturnKeeps | src/checkqueue.h:86-96 | when Wait returns, no thread holds a batch, the verdict is exact, and nothing is left for the next round |
| CheckQueue.WaitEnds | src/checkqueue.h:69-130 | however the threads are scheduled, the number of prompted steps until the system rests is bounded by a count known at the start |
| CheckQueue.StepAdvances | src/checkqueue.h:69-130 | every prompted step comes closer to the end of the round |
| CheckQueue.NeverStuck | src/checkqueue.h:78-107 | while Wait is pending some thread can act without a wake-up of its own accord, so the master is never left sleeping |
| CheckQueue.TakeBatch | src/checkqueue.h:108-120 | the loop takes the last elements of the queue in reverse order |
| HeadersSync.RunIsSound | src/headerssync.cpp:51-294 | whatever a peer sends, the returned headers are one hash-linked chain that repeats the redownloaded one, every checked header has the bit recorded for its height, a full buffer is withheld until the work is enough, the queue is the recorded bits above the tip, and queue and buffer are bounded |
| HeadersSync.ProcessKeeps | src/headerssync.cpp:67-137 | every call keeps the invariant and a finished sync changes no more |
| HeadersSync.CheckedMatches | src/headerssync.cpp:215-278 | a redownloaded header at a checked height has the bit of the first download's header at the same height |
| HeadersSync.QueueIsRecorded | src/headerssync.cpp:177-278 | until the work is enough the queue holds exactly the bits recorded for the commitment heights above the redownload tip, the next one in front |
| HeadersSync.RebuiltIff | src/headerssync.h:21-53 | what is returned equals what was redownloaded if and only if no witness root was set |
| HeadersSync.WitnessRootIsLost | src/headerssync.h:21-53 | a header with a witness root and enough work, sent twice, is returned without it |
| HeadersSync.HonestCall | src/headerssync.cpp:215-294 | a message of the same chain, or of that chain grown further, succeeds, full or not, and empties the buffer once the work is enough |
| HeadersSync.HonestPeerCompletes | src/headerssync.cpp:67-294 | a peer that serves its chain again, grown or not and cut into messages in any way, meets no mismatch or overrun, and everything redownloaded is returned |
| HeadersSync.HeadersSyncState.constructor | src/headerssync.cpp:25-47 | the sync starts in the first phase at the start block |
| HeadersSync.HeadersSyncState.ValidateAndProcessSingleHeader | src/headerssync.cpp:177-213 | as the value step |
| HeadersSync.HeadersSyncState.ValidateAndStoreHeadersCommitments | src/headerssync.cpp:139-175 | the loop equals the value operation, early return included |
| HeadersSync.HeadersSyncState.ValidateAndStoreRedownloadedHeader | src/headerssync.cpp:215-278 | as the value step |
| HeadersSync.HeadersSyncState.PopHeadersReadyForAcceptance | src/headerssync.cpp:280-294 | the loop equals the value operation |
| HeadersSync.HeadersSyncState.ProcessNextHeaders | src/headerssync.cpp:67-137 | as the value operation; the headers stay sound, the memory bounded, and what is returned continues the chain |
| Arith.BaseUint.Add | src/arith_uint256.h:127-137 | the carry loop adds modulo 2^256, aliasing allowed |
| Arith.BaseUint.Increment | src/arith_uint256.h:165-172 | adds one modulo 2^256 |
| Arith.BaseUint.Complement | src/arith_uint256.h:61-67 | 2^256 - 1 - x |
| Arith.BaseUint.Negate | src/arith_uint256.h:69-76 | the negative modulo 2^256 |
| Arith.BaseUint.Subtract | src/arith_uint256.h:139-143 | subtracts, wrapping exactly if the result is negative |
| Arith.BaseUint.CompareTo | src/arith_uint256.cpp:109-118 | the order of the integers |
| Arith.BaseUint.Bits | src/arith_uint256.cpp:179-191 | the position of the highest bit |
| Arith.BaseUint.MultiplyWord | src/arith_uint256.cpp:55-64 | the product with a word modulo 2^256 |
| Arith.BaseUint.Multiply | src/arith_uint256.cpp:67-80 | the product modulo 2^256 |
| Arith.WordProduct | src/arith_uint256.cpp:55-80 | the running sum of a product never leaves 64 bits |
| Arith.BaseUint.ShiftLeft | src/arith_uint256.cpp:21-35 | times 2^n modulo 2^256, for every n |
| Arith.BaseUint.ShiftRight | src/arith_uint256.cpp:38-52 | divided by 2^n, rounded down, for every n |
| Arith.BaseUint.Divide | src/arith_uint256.cpp:83-106 | fails exactly on zero, else the exact floor of the quotient |
| Compact.SetCompact | src/arith_uint256.cpp:198-216 | the value modulo 2^256, the sign flag, and overflow exactly if the value does not fit |
| Compact.OverflowIff | src/arith_uint256.cpp:211-214 | the overflow condition is equivalent to mantissa * 256^(exponent - 3) reaching 2^256 |
| Compact.GetCompact | src/arith_uint256.cpp:218-239 | both assertions hold and the result is the compact form: least length that leaves the sign bit free, leading bytes, sign |
| Compact.RoundTrip | src/arith_uint256.cpp:198-239 | reading back never gives more and loses less than one unit of the last byte kept; nothing for short numbers |
| Compact.Stable | src/arith_uint256.cpp:198-239 | a number that was rounded once has the same compact form again |
| Compact.OneForm | src/arith_uint256.cpp:218-239 | the compact form is unique |
| Compact.GetBlockProof | src/chain.cpp:131-144 | 0 for rejected targets, else exactly floor(2^256 / (target + 1)) |
| Radix.MultiplyAdd | src/base58.cpp:56-67 | the inner loop replaces the number in the buffer by mult * number + digit, with no carry left and no leading zero counted |
| Base58.EncodeFits | src/base58.cpp:96-112 | n bytes fit into n * 138 / 100 + 1 base-58 digits, for every n |
| Base58.BytesBound | src/base58.cpp:51-67 | the bytes counted for n base-58 digits are at most n * 733 / 1000 + 1, for every n |
| Base58.DecodeFits | src/base58.cpp:51-67 | n base-58 digits fit into the bytes counted for them |
| Base58.EncodeBase58 | src/base58.cpp:87-125 | a one for each leading zero byte, then the shortest digits of the number |
| Base58.DecodeBase58 | src/base58.cpp:38-85 | the bytes of the one word in the text, or none if a character is wrong, there is more text, or the limit is exceeded |
| Base58.DecodeOfEncode | src/base58.cpp:38-125 | every byte string comes back |
| Base58.EncodeOfDecode | src/base58.cpp:38-125 | whatever decodes is, without the spaces around it, the encoding of its bytes |
| Base58.OneToOne | src/base58.cpp:38-133 | texts without spaces and byte strings correspond one to one |
| Base58.LimitIff | src/base58.cpp:43-71 | a limit admits exactly the results within it if and only if it is not negative or the text is not blank |
| Base58.NothingIffBlank | src/base58.cpp:38-85 | a text decodes to nothing at all if and only if it is blank |
| Base58.NothingPasses | src/base58.cpp:38-85 | blank text passes a negative limit |
| Base58.EncodeBase58Check | src/base58.cpp:135-142 | the encoding of the bytes and their checksum |
| Base58.DecodeBase58Check | src/base58.cpp:144-167 | the bytes without the checksum if it is right |
| Base58.CheckedOneToOne | src/base58.cpp:135-167 | a text without spaces is accepted with some bytes if and only if it is their checked encoding and they keep within the limit |
| Bech32.StepLinear | src/bech32.cpp:193-212 | a step of the checksum is linear in state and symbol |
| Bech32.StepInjective | src/bech32.cpp:193-212 | with the same symbol it merges no two 30-bit states |
| Bech32.AfterLinear | src/bech32.cpp:130-216 | the checksum of a difference is the difference of the checksums |
| Bech32.BurstDetected | src/bech32.cpp:130-216 | two sequences of any length that differ only within six consecutive symbols have different checksums |
| Bech32.ChecksumValid | src/bech32.cpp:341-353 | the six symbols made complete any sequence to a valid one |
| Bech32.ChecksumUnique | src/bech32.cpp:324-353 | no other six symbols do |
| Bech32.DecodeOfEncode | src/bech32.cpp:356-400 | for both encodings, every readable part of 1 to 83 printable characters that are no capitals and every list of symbols up to 140 characters in all decodes to exactly what was encoded |
| Bech32.EncodeOfDecode | src/bech32.cpp:356-400 | whatever decodes is, in lower case, the encoding of the result |
| Bech32.ComputePolyMod | src/bech32.cpp:177-216 | the loop computes the checksum |
| Bech32.CheckCharacters | src/bech32.cpp:287-311 | no error is reported exactly if all characters are printable and the case is not mixed |
| Bech32.DecodeText | src/bech32.cpp:373-400 | the loops compute the decoding |
| Cuckoo.FastRange | src/cuckoocache.h:241-251 | places are within the table |
| Cuckoo.Cache.EpochCheck | src/cuckoocache.h:287-319 | ages exactly when enough recent elements are live: old ones become garbage, recent ones old; a scan without aging sets the next check; nothing comes to life |
| Cuckoo.Cache.Insert | src/cuckoocache.h:400-448 | exactly what is live after aging, and the new element, stays live except for at most one of them; every live element stands at one of its places |
| Cuckoo.Cache.Contains | src/cuckoocache.h:477-487 | finds every live element and nothing never inserted but the default; erasing leaves the table as it is |
| Cuckoo.SwapLive | src/cuckoocache.h:424-444 | an exchange of elements hands back exactly what it replaces |
| Cuckoo.FirstDisplaced | src/cuckoocache.h:424-438 | the first displaced element is the one at the second place |
| Chain.GetSkipHeight | src/chain.cpp:83-91 | is below the height |
| Chain.InvertsLowestOne | src/chain.cpp:79-80 | the lowest one bit becomes zero |
| Chain.BlockIndex.GetAncestor | src/chain.cpp:93-118 | the same block as following predecessors, or null out of range |
| Chain.BlockIndex.BuildSkip | src/chain.cpp:125-129 | sets a right skip link and keeps the index usable |
| Chain.ActiveChain.SetTip | src/chain.cpp:21-29 | every place holds the tip's ancestor at that height, although the walk stops early |
| Chain.ActiveChain.FindFork | src/chain.cpp:60-69 | the highest ancestor on the chain, or null if there is none |
| Chain.LastCommonAncestor | src/chain.cpp:165-180 | the highest common ancestor, null if even the first blocks differ |
| CompactBlocks.EnteredLeavesOpen | src/blockencodings.cpp:61-80 | each prefilled transaction takes an open place, so as many stay open as there are short ids |
| CompactBlocks.PartiallyDownloadedBlock.EnterPrefilled | src/blockencodings.cpp:61-80 | rejects exactly the invalid lists; no index leaves the block |
| CompactBlocks.PartiallyDownloadedBlock.MapShortIds | src/blockencodings.cpp:83-105 | the i-th short id stands for the i-th open place and the search stays within the block; collisions fail |
| CompactBlocks.PartiallyDownloadedBlock.InitData | src/blockencodings.cpp:50-165 | invalid exactly if malformed; on success each place holds what was prefilled, nothing, or an offered transaction with its short id; if no two offered ones share a short id, every open place whose transaction is on offer is filled |
| CompactBlocks.PartiallyDownloadedBlock.FillBlock | src/blockencodings.cpp:178-200 | succeeds exactly with as many transactions as places are open and a block that passes the check, fills the places in order, and tells a mutated block from a wrong one |
| CompactBlocks.Reconstructs | src/blockencodings.cpp:19-200 | if no two transactions involved share a short id, the block rebuilt from its own compact form is the original |

## Left out

- Integer widths: ids, counters and heights are unbounded except where wrap-around is modelled (limbs, chain work, the 32-bit height of the first headers phase).
- Memory usage estimates, logging and tracing, and the Particl side indexes of the coins cache: they do not affect the views.
- Coins.RunAgrees: the database is one map; partial batches, crashes in between and head-block records are not modelled.
- Address selection for outgoing connections (Select_, GetChance): a loop with floating-point odds that ends with probability one.
- AddrOps.RunSound: collisions enter a set, and the enumeration orders of sets and maps are parameters.
- AddrFile.UnserializeIff: a file is its header, entries and slots as values; the bytes, their version numbers and older formats are not modelled, and the loops are functions on the value tables.
- AddrSave.ReadOfWrite: all entries are valid addresses, as only routable ones are ever added; WrittenAccepted needs no such thing.
- CheckQueue.RunsAreSound: no stop request; each critical section is one step; a worker may wake at any time, which covers the notifications Add sends.
- HeadersSync.RunIsSound: the chain accepted in the first phase stays below height 2^31, and each message is internally linked, as the caller has verified; the block locator is not modelled.
- Arith: bitwise operators other than complement, decrement, hexadecimal text and conversion to floating point would add only easy members.
- Bech32.DecodeOfEncode: locating errors (LocateErrors) and the tables over GF(1024) are not modelled; Encode is a function, and its loops only copy.
- Base58: the sizes of very long texts overflow an int in the source; lengths are unbounded here.
- Cuckoo.Cache.Insert: sequential; garbage flags are booleans, not bits of atomic bytes, and the depth limit is a parameter rather than a rounded logarithm.
- Chain: block locators, FindEarliestAtLeast and the validity flags of a block index.
- CompactBlocks.PartiallyDownloadedBlock.InitData: the overfull-bucket rule of the hash table is a parameter, and the counters that are only logged are left out.
- CompactBlocks.PartiallyDownloadedBlock.FillBlock: CheckBlock is a parameter that answers for the filled block.
- CompactBlocks.PartiallyDownloadedBlock.MapShortIds: places are unbounded here and 16 bits wide in the source, which is right beyond 65535 only because src/blockencodings.h:124 refuses larger messages.
