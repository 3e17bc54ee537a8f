# Verified model of the N42 client's core logic

This project models the parts of the N42 blockchain client whose correctness rests on
arithmetic, ordering or interleaving, and proves what they promise, for all inputs,
all runs or all reachable states.

| component | files |
|---|---|
| Contract ABI codec: packing, unpacking, the round trip | `Bytes`, `BigBytes`, `AbiTypes`, `AbiCodec`, `AbiPack`, `AbiUnpack`, `AbiRoundTrip`, `AbiLayout`, `Abi` |
| Keyed multilock as a step system | `Strings`, `Multilock`, `MultilockKeys`, `MultilockCalls`, `MultilockClean` |
| Canonical chain: fork choice, `reorg`, head writes | `CanonicalChain`, `BlockChain` |
| Heaps: blocked stack, lazy priority queue, virtual clock | `Heap`, `SStack`, `HeapOps`, `QueueView`, `QueueEmission`, `LazyQueue`, `SimClock` |
| Fees and gas of transactions and blocks | `Ledger`, `IntrinsicGas`, `Fees`, `StateTransition`, `StateProcessor` |
| Keystore and account manager | `Urls`, `Wallets`, `Unlocks`, `AccountCache` |
| Fork schedule, signatures, ancestor hashes | `ForkCompat`, `ForkSchedule`, `Signing`, `SignedContent`, `HashCache` |
| Shared definitions | `Common` |

`dafny verify dfyconfig.toml` checks the whole project.

How to read the model:

* Code that loops or updates fields is a method or a class; its contract ties the new
  state to a function of the old one, and the lemmas are about those functions.
* Code that runs concurrently is a step system: a state, actions with their guards,
  an invariant that every action keeps, and theorems over every run.
* Code that is not modelled enters as a parameter: the EVM, hashing and public-key
  recovery, priorities and estimates of queue items, the header store, the
  behaviour of a `MultiPop` callback, and whether `reorg` finds the head as the object it holds.
* Functions that follow the code have partners that say what they mean without them: byte
  positions for the codec, the fields of a configuration for the fork checks, the conditions
  for a refused message, the parts that a signature covers.
* Machine words are numbers with explicit wrap-around wherever the code can wrap.

Where the code and what its comments say differ, the model follows the code:

* `reorg` compares pointers to block numbers when the old head is not higher than the new
  one. Every block object owns its number (`common/block/header.go:186-194`,
  `common/block/header.go:157`, `common/block/block.go:178`), so equal pointers mean one
  block, and a competing fork at least as high as the head is never adopted
  (`BlockChainModel.HigherForkRefused`, with an example). Whether a lookup gives the very
  object held as the head depends on the block cache and is a parameter. Every insertion,
  whether it succeeds or fails, leaves the index right.
* The decoder asks for 32 bytes even for types of width zero, so the round trip has an
  exact condition (`Abi.RoundTrip`) instead of holding always.
* The access list enters the intrinsic gas without an overflow check, so fee conservation
  has an exact condition (`Fees.FeesConserved`), which every transaction whose cost fits in
  64 bits meets (`StateTransitionModel.EnoughGas`); `StateTransitionModel.ExceptionOccurs`
  is a transaction that does not.
* What an account that was destroyed still holds, or is paid, at the end of its transaction
  goes with it; `StateProcessorModel.NothingLost` says exactly when that is nothing.
* The search for the rewind height can go lower than it has to because of the exception for
  Petersburg; `ForkCompat.SearchExact` says exactly when.
* A legacy transaction signed for chain ID zero is recovered from another payload than the
  one signed; `Signing.SignRecover` says exactly when the round trip holds.
* `refreshWallets` passes over an account that takes over the URL of a different one, and
  `drop` of an absent wallet removes the next one; `Wallets.DiffMatches` and
  `Wallets.DropExact` say exactly when they do what their comments promise.

## Model

| member | source | states |
|---|---|---|
| `BigBytes.ReadBits` | common/math/big.go:223-232 | A number given as machine words fills a buffer from its end: position `i` gets the byte of the number with that weight, and positions the words do not reach keep what they held. |
| `BigBytes.PaddedBigBytes` | common/math/big.go:184-191 | A number below 256^k becomes exactly its `k` big-endian bytes; a larger one its minimal bytes. Both branches of the bit-length test are covered. |
| `BigBytes.U256Bytes` | common/math/big.go:235-243 | Every integer, negative ones included, becomes the 32 bytes of its value modulo 2^256. |
| `Bytes.ToNatBigEndian` | common/math/big.go:223-243 | Reading `k` encoded bytes gives the number modulo 256^k, for every integer and width. |
| `Bytes.BigEndianToNat` | common/math/big.go:184-191 | Writing what was read gives the bytes back, for every byte string. |
| `AbiCodec.PackBytes` | accounts/abi/pack.go:31-34 | Length word, the bytes themselves, and zeros up to a whole number of words. |
| `AbiPack.PackNum` | accounts/abi/pack.go:74-85 | A number is packed as its 32-byte two's complement word. |
| `AbiPack.PackElement` | accounts/abi/pack.go:38-71 | Every elementary value is packed as the encoding function prescribes. |
| `AbiPack.PackType` | accounts/abi/type.go:269-348 | The recursive packer succeeds exactly on values of the type and then yields the head-and-tail encoding, for every nesting of slices, arrays and tuples. |
| `AbiPack.PackList` | accounts/abi/type.go:276-305 | The loop over slice and array elements, with its running offset for dynamic elements, yields the block encoding of the elements. |
| `AbiPack.PackTuple` | accounts/abi/type.go:306-343 | The loop over tuple fields, appending heads and tails while the offset advances, yields the block encoding. |
| `AbiPack.Pack` | accounts/abi/argument.go:222-262 | The argument loop, with heads in one buffer and tails in another, yields the block encoding of the whole list, or an error exactly when counts or types do not match. |
| `AbiPack.SumSizes` | accounts/abi/argument.go:232-236 | The first offset is the sum of all head sizes. |
| `AbiCodec.StaticSize` | accounts/abi/type.go:383-398 | A static value is encoded in exactly as many bytes as `getTypeSize` says, at any nesting. |
| `AbiCodec.HeadsSize` | accounts/abi/argument.go:232-236 | The heads of a list take the sum of the head sizes, whatever the offsets are. |
| `AbiTypes.TypeSizeWords` | accounts/abi/type.go:383-398 | Every head size is a whole number of words. |
| `AbiCodec.LengthPrefixPointsTo` | accounts/abi/unpack.go:256-283 | On success, start plus length stays inside the buffer, whatever the encoded offset and length are. |
| `AbiCodec.TuplePointsTo` | accounts/abi/unpack.go:286-297 | On success, the offset stays inside the buffer. |
| `AbiUnpack.ToGoType` | accounts/abi/unpack.go:192-253 | The decoder terminates on every type and every byte string with the value or error of the decoding function, whose meaning is `AbiLayout.DecodeDenotes`; every index and slice it takes is in bounds. |
| `AbiUnpack.ForEachUnpack` | accounts/abi/unpack.go:121-157 | The element loop decodes consecutive elements, one type size apart, or fails where the first of them fails. |
| `AbiUnpack.VirtualArgs` | accounts/abi/unpack.go:168-186 | The extra words counted for a static array or tuple, plus one, are its head size in words. |
| `AbiUnpack.ForTupleUnpack` | accounts/abi/unpack.go:160-189 | Index plus virtual arguments is always the end of the heads already read; the loop decodes one value per field. |
| `AbiUnpack.UnpackValues` | accounts/abi/argument.go:184-212 | Decodes one value per non-indexed argument, each at the sum of the head sizes before it. |
| `AbiUnpack.NonIndexedMembers` | accounts/abi/argument.go:64-72 | Keeps exactly the arguments that are not indexed; nothing is dropped if and only if none is indexed, and then the list is as it was. |
| `AbiUnpack.NonIndexedConcat` | accounts/abi/argument.go:64-72 | Keeps them in their order: of two lists in a row it keeps what it keeps of the first and then of the second. |
| `AbiUnpack.DecodedTyped` | accounts/abi/unpack.go:192-253 | Whatever the bytes, a decoded value belongs to its type and all its numbers are in range. |
| `AbiLayout.DecodeDenotes` | accounts/abi/unpack.go:192-253 | For every type and all bytes, encodings or not: decoding returns a value exactly if the bytes denote it, a relation by byte positions, and so fails exactly if they denote nothing. |
| `AbiLayout.BoolDecodes` | accounts/abi/unpack.go:77-93 | A bool decodes exactly from 31 zeros followed by 0 or 1. |
| `AbiLayout.FunctionDecodes` | accounts/abi/unpack.go:96-106 | A function decodes exactly from 24 bytes followed by 8 zeros. |
| `AbiLayout.BytesDecode` | accounts/abi/unpack.go:256-283 | Strings and bytes are refused exactly if the claimed offset or length leaves the buffer or 63 bits; otherwise they are what is found there. |
| `AbiLayout.SliceDecodes` | accounts/abi/unpack.go:121-283 | A decoded slice has the claimed length, inside the buffer and 63 bits, with 32 bytes for each element. |
| `AbiLayout.UnpackedDenotes` | accounts/abi/argument.go:184-212 | Unpacking returns a list exactly if it has one value for each argument that is not indexed, denoted at the sum of the head sizes before it. |
| `AbiLayout.DynamicExactly` | accounts/abi/type.go:363-373 | A type is dynamic exactly if following array elements and tuple fields leads to a string, bytes or a slice. |
| `AbiLayout.Written` | accounts/abi/pack.go:31-71 | Every kind of value by the positions of its bytes: numbers, 31 zeros and a bit, 12 zeros and an address, fixed bytes and functions followed by zeros, length and padded bytes. |
| `AbiLayout.BlockLaidOut` | accounts/abi/argument.go:222-262 | Where every byte of a block comes from: static components at their heads, offsets for the others, and those one after the other behind the heads, without gap or rest. |
| `AbiRoundTrip.DecodeEncoded` | accounts/abi/unpack.go:192-253 | Decoding an encoded value at its position gives the value with numbers cut to their width, or an error, decided by whether every part has the 32 bytes the decoder insists on. |
| `AbiRoundTrip.BlockBack` | accounts/abi/argument.go:184-212 | The same for a whole block of heads and tails. |
| `AbiRoundTrip.ZeroFreeFitsSeq` | accounts/abi/unpack.go:193-195 | Types without zero-width parts always have the room that the decoder asks for. |
| `AbiRoundTrip.NormSeqInRange` | accounts/abi/unpack.go:36-74 | Cutting numbers to their width changes nothing exactly when all are in range. |
| `Abi.UnpackPacked` | accounts/abi/argument.go:184-262 | For every packed argument list: what unpacking returns, value or error. |
| `Abi.RoundTrip` | accounts/abi/argument.go:184-262 | Unpacking a packed list gives the values back if and only if no argument is indexed, all numbers are in range and zero-width parts leave the decoder enough room. |
| `Abi.RoundTripZeroFree` | accounts/abi/argument.go:184-262 | Without zero-width types and indexed arguments, the round trip holds exactly for in-range values. |
| `Abi.PackInjective` | accounts/abi/argument.go:222-262 | Two in-range argument lists with the same encoding are equal. |
| `Abi.UnpackStable` | accounts/abi/argument.go:184-262 | For arbitrary bytes: what unpacks, packs and unpacks to the same values again. |
| `Abi.EmptyArrayFails` | accounts/abi/unpack.go:192-195 | A fixed array of length zero packs to nothing and does not unpack. |
| `MultilockKeys.Unique` | utils/lock.go:113-127 | No repetitions, and exactly the given keys. |
| `MultilockKeys.NewMultilock` | utils/lock.go:64-76 | Nothing for no keys; otherwise exactly the given keys, strictly ascending, which is what the step system asks of a lock object. |
| `Multilock.StepInv` | utils/lock.go:23-110 | Every atomic step of `Lock`, `Unlock`, `Clean` and `getChan` keeps the invariant: a registered channel has its token buffered, held by one lock object or in the hands of `Clean`; closed channels have none; what is waited on is closed or registered. |
| `Multilock.ReceiveInv` | utils/lock.go:28-35 | A receive, also from a channel that `Clean` has closed meanwhile, keeps the invariant. |
| `Multilock.SendInv` | utils/lock.go:45-50 | Giving a token back keeps the invariant. |
| `Multilock.GetChanInv` | utils/lock.go:101-110 | Creating or finding the channel of a key keeps the invariant. |
| `Multilock.VisitInv` | utils/lock.go:84-91 | The non-blocking receive of `Clean` keeps the invariant. |
| `Multilock.CloseInv` | utils/lock.go:86-88 | Closing an idle channel keeps the invariant, although others may still hold stale references to it. |
| `Multilock.DeleteInv` | utils/lock.go:93-95 | Dropping a closed channel from the registry keeps the invariant. |
| `Multilock.RunInv` | utils/lock.go:23-110 | The invariant holds at the end of every run: any number of lock objects, any interleaving. |
| `Multilock.MutualExclusion` | utils/lock.go:23-55 | In every reachable state no two lock objects hold one key, `Unlock` never sends on a closed or full channel, and `Clean` never closes a closed one. |
| `Multilock.Blocker` | utils/lock.go:28-35 | Whoever waits for a token that is not there waits for a lock object that holds that key. |
| `Multilock.Greatest` | utils/lock.go:70-72 | Among the lock objects that wait, one waits for a greatest key. |
| `Multilock.DeadlockFree` | utils/lock.go:23-110 | In every reachable state in which someone is inside `Lock`, some lock object in use can step. |
| `MultilockCalls.StepUsesUp` | utils/lock.go:23-110 | Every step that does not start a call uses something up, in a well-founded order: visits of `Clean` to come, keys it has to visit, waiters on closed channels, keys it has to delete, steps left in the calls. A waiter sent back to the registry is paid for by a close. |
| `MultilockCalls.CallsGoOn` | utils/lock.go:23-110 | Every endless run starts calls for ever: with finitely many calls of `Lock`, `Unlock` and `Clean`, every interleaving of any number of lock objects comes to an end. |
| `MultilockCalls.CallsReturn` | utils/lock.go:23-110 | Where a run comes to an end every call has returned, unless a lock object still holds its keys. |
| `MultilockClean.CleanRemovesIdle` | utils/lock.go:79-99 | In every run, whatever the others do meanwhile: after `Clean` exactly those keys are registered that were registered when it began and whose token was out when it came to them. |
| `CanonicalChain.ReorgNeeded` | internal/forkchoice.go:76-108 | Never reorganises to a lower total difficulty, always to a higher one; a tie goes to the lower block, and at one height the current block stays if it is preferred, or else the other wins if it is preferred or by the coin. |
| `CanonicalChain.HashDifference` | common/types/hash.go:214-229 | The result holds exactly the hashes of the first list that are not in the second. |
| `BlockChainModel.BlockChain.WriteHeadBlock` | internal/blockchain.go:1379-1411 | The new canonical entry, the transaction lookups of the block, and the head, and nothing else. |
| `CanonicalChain.IndexExtends` | internal/blockchain.go:1349-1370 | Writing a child of the head keeps the index exactly the ancestor path of the head. |
| `BlockChainModel.BlockChain.ReduceOld` | internal/blockchain.go:1523-1531 | Walking a higher old head down ends at its ancestor at the height of the new head, having noted exactly the transactions above. |
| `BlockChainModel.BlockChain.ReduceNew` | internal/blockchain.go:1532-1537 | Walking the new head down ends at a block if and only if it descends from the old head and that is found as the very object held as the head; it then ends at the old head. |
| `BlockChainModel.BlockChain.WalkBack` | internal/blockchain.go:1560-1583 | Walking both sides down meets if and only if they have one genesis, and then at the common ancestor with exactly the transactions of the old side and the path of the new side. |
| `BlockChainModel.BlockChain.FindFork` | internal/blockchain.go:1522-1583 | The common ancestor is found exactly when the new head is lower than the old one and has its genesis, or descends from it and finds it as the object held as the head. |
| `BlockChainModel.BlockChain.InsertNewChain` | internal/blockchain.go:1606-1615 | The new path, without its head, is written in order, and the lookups with it. |
| `BlockChainModel.BlockChain.DeleteTxLookups` | internal/blockchain.go:1620-1622 | Exactly the given lookups disappear. |
| `BlockChainModel.BlockChain.TruncateAbove` | internal/blockchain.go:1627-1637 | Canonical entries above the new path disappear. |
| `BlockChainModel.BlockChain.Reorg` | internal/blockchain.go:1513-1645 | Succeeds exactly then, changes nothing otherwise, and leaves the index exactly the ancestor path of the new head's parent (or of the new head itself when it was an ancestor already). |
| `BlockChainModel.BlockChain.WriteBlockWithState` | internal/blockchain.go:1297-1375 | After every insertion, successful or not: the number index and the transaction lookup are exactly those of the head's ancestor path with nothing above it; a new head never has less total difficulty, and is lower than the old one or descends from it. |
| `BlockChainModel.HigherForkRefused` | internal/blockchain.go:1532-1537 | As every block object owns its number, a new head at least as high as the old one gets through exactly if it descends from the old one: a competing fork of that height is never adopted. |
| `BlockChainModel.HigherForkExample` | internal/blockchain.go:1532-1583 | A fork of two blocks against a head of one, on one genesis and with more total difficulty, is wanted by fork choice and refused by `reorg`. |
| `BlockChainModel.TdIsWeight` | internal/blockchain.go:1297-1313 | A total difficulty is that of genesis plus the difficulties along the path. |
| `CanonicalChain.CanonEnd` | internal/blockchain.go:1606-1637 | Rewriting up to a height and truncating above it gives the index of the new path. |
| `CanonicalChain.IndexRewritten` | internal/blockchain.go:1379-1411 | Writing a head that is on top of the index already changes nothing. |
| `CanonicalChain.LookupMoves` | internal/blockchain.go:1610-1622 | Adding the new path's transactions and deleting the difference leaves exactly those of the new path. |
| `SStackModel.SStack.Push` | common/prque/sstack.go:57-74 | The plain sequence grows by the item, across block boundaries, and the item is reported at its position. |
| `SStackModel.SStack.Pop` | common/prque/sstack.go:77-89 | The last item leaves the plain sequence and is reported with -1; blocks are kept. |
| `SStackModel.SStack.Less` | common/prque/sstack.go:98-104 | Compares the priorities of two positions of the plain sequence. |
| `SStackModel.SStack.Swap` | common/prque/sstack.go:107-115 | Exchanges two positions of the plain sequence and reports both items, and no others. |
| `HeapOps.SiftUp` | common/prque/lazyqueue.go:100-102 | The sift-up loop of `container/heap` on the stack in place, as the function on sequences; only held items are reported. |
| `HeapOps.SiftDown` | common/prque/lazyqueue.go:141-148 | The sift-down loop in place, and whether it moved anything. |
| `HeapOps.Push` | common/prque/lazyqueue.go:100-102 | `heap.Push` on the stack: the sifted sequence, with every item reported where it now is. |
| `HeapOps.Pop` | common/prque/lazyqueue.go:91-93 | `heap.Pop`: returns the root, leaves the sifted rest, reports the root with -1. |
| `HeapOps.Remove` | common/prque/lazyqueue.go:167-172 | `heap.Remove`: returns the item at the position, leaves the fixed rest, reports the item with -1. |
| `Heap.PushedHeap` | common/prque/lazyqueue.go:100-102 | Pushing keeps the heap order and adds exactly the item. |
| `Heap.PoppedHeap` | common/prque/lazyqueue.go:141-148 | Popping returns an item of greatest priority, keeps the heap order and removes exactly that item. |
| `Heap.RemovedHeap` | common/prque/lazyqueue.go:167-172 | Removing at any position keeps the heap order and removes exactly that item. |
| `Heap.FixedHeap` | common/mclock/simclock.go:157-171 | A heap with one position out of order is a heap again after `heap.Fix`. |
| `LazyQueueModel.NewLazyQueue` | common/prque/lazyqueue.go:56-70 | An empty queue in a valid state, refreshed once. |
| `LazyQueueModel.LazyQueue.Push` | common/prque/lazyqueue.go:100-102 | The item enters the newer queue with its estimate for the current horizon. |
| `LazyQueueModel.LazyQueue.RefreshAt` | common/prque/lazyqueue.go:89-97 | All items are in the older queue afterwards: those of the newer one unchanged, those of the older one with the estimate for the next period; index reports stay valid across the exchange. |
| `LazyQueueModel.LazyQueue.Refresh` | common/prque/lazyqueue.go:79-86 | Terminates with the last refresh but one less than two periods ago: changes nothing when nothing is due, refreshes once when only that one is overdue, and otherwise twice, after which every item has a new estimate. |
| `LazyQueueModel.LazyQueue.PeekIndex` | common/prque/lazyqueue.go:125-136 | Names the queue whose root bounds all estimates, or -1 exactly when both are empty. |
| `LazyQueueModel.LazyQueue.Emit` | common/prque/lazyqueue.go:147-157 | Passes on ranked items only while they exceed all estimates, and looks at the estimates again after each call. |
| `LazyQueueModel.LazyQueue.MultiPop` | common/prque/lazyqueue.go:141-158 | With any callback, also one that pushes items while it is called: if estimates bound priorities, every item passed on has the greatest actual priority of all that is held at that moment; in any case the contents afterwards follow from the old ones, the items passed on and the items pushed; it ends where the callback says so, or with everything passed on. |
| `QueueEmission.QuietOrder` | common/prque/lazyqueue.go:141-158 | With a callback that does not push, items come in non-increasing actual priority, and none left exceeds them. |
| `QueueEmission.QuietOnce` | common/prque/lazyqueue.go:141-158 | With such a callback no item is passed on twice, and the old contents minus exactly those passed on are left. |
| `QueueEmission.PushBackProper` | common/prque/lazyqueue.go:155 | A callback that pushes items back as it gets them, finitely often, is one of those allowed for. |
| `LazyQueueModel.LazyQueue.Pop` | common/prque/lazyqueue.go:110-121 | If estimates bound priorities, an item of greatest actual priority; exactly it is removed; nothing exactly when the queue is empty. |
| `LazyQueueModel.LazyQueue.Remove` | common/prque/lazyqueue.go:167-172 | The last index reported for an item makes `Remove` return that item; it is then reported with -1 and all others stay. |
| `LazyQueueModel.LazyQueue.Update` | common/prque/lazyqueue.go:105-107 | The item at the index gets a new estimate; all others stay. |
| `QueueView.LastIndex` | common/prque/lazyqueue.go:167-196 | In every valid state the last index reported for a queued item leads to that item, whichever way round the two queues are. |
| `QueueView.Rotate` | common/prque/lazyqueue.go:94-95 | Exchanging the queues together with the index offset keeps every reported index valid. |
| `QueueEmission.EmitTop` | common/prque/lazyqueue.go:147-149 | Passing on the best ranked item once it exceeds all estimates passes on the best of all that is held. |
| `QueueEmission.EmitEnd` | common/prque/lazyqueue.go:150-154 | Putting ranked items back loses none of them. |
| `SimClock.Simulated.Schedule` | common/mclock/simclock.go:134-142 | A new timer is pending with its deadline; the heap order and every stored position are kept. |
| `SimClock.Simulated.Stop` | common/mclock/simclock.go:144-155 | True exactly if the timer was pending; it is not pending afterwards. |
| `SimClock.Simulated.Reset` | common/mclock/simclock.go:157-171 | The timer is pending with the new deadline, whether it was pending or had fired. |
| `SimClock.Simulated.Run` | common/mclock/simclock.go:57-73 | Fires exactly the timers due by the new time, each once, in order of deadline; the others stay pending. |
| `SimClock.Simulated.Swap` | common/mclock/simclock.go:190-194 | Exchanges two timers of the heap and keeps every stored index the position of its timer. |
| `SimClock.Simulated.Append` | common/mclock/simclock.go:196-200 | The timer is last and knows its position. |
| `SimClock.Simulated.DropEnd` | common/mclock/simclock.go:202-209 | The last timer leaves and has index -1. |
| `SimClock.Simulated.Down` | common/mclock/simclock.go:57-73 | The sift-down loop on the timer heap, as the function on sequences. |
| `SimClock.Simulated.Up` | common/mclock/simclock.go:134-142 | The sift-up loop on the timer heap, as the function on sequences. |
| `SimClock.OncePerScheduling` | common/mclock/simclock.go:57-171 | In every run, between two firings of a timer it was reset. |
| `SimClock.StoppedIsQuiet` | common/mclock/simclock.go:57-171 | In every run, a stopped timer does not fire unless it was reset. |
| `SimClock.FiresWhenDue` | common/mclock/simclock.go:57-171 | In every run, a timer left alone fires in exactly the first `Run` that reaches its deadline. |
| `SimClock.FiresAfter` | common/mclock/simclock.go:57-171 | In every run, a timer set to a duration and left alone fires in the `Run` that makes the clock advance by that duration. |
| `IntrinsicGas.ToWordSize` | internal/state_transition.go:504-510 | The size in words, rounded up, without overflow for every 64-bit size. |
| `IntrinsicGas.AddChecked` | internal/state_transition.go:158-174 | The guard by division fails exactly when the sum would leave 64 bits. |
| `IntrinsicGas.BaseGas` | internal/state_transition.go:136-176 | Fails exactly when the cost of the transaction and its data leaves 64 bits; otherwise is that cost. |
| `IntrinsicGas.IntrinsicGas` | internal/state_transition.go:135-182 | The cost of data and access list modulo 2^64: the access list is added without a check. |
| `IntrinsicGas.EmptyCost` | internal/state_transition.go:135-150 | An empty message costs 21000, a creation 53000 since Homestead. |
| `IntrinsicGas.ByteCost` | internal/state_transition.go:151-176 | A further byte costs 4 if it is zero and 16 otherwise, 68 before Istanbul; every word begun costs 2 more in a creation since Shanghai. |
| `IntrinsicGas.EntryCost` | internal/state_transition.go:177-180 | A further entry of the access list costs 2400, and each of its keys 1900. |
| `IntrinsicGas.StorageKeys` | common/transaction/access_list.go:34-40 | The number of storage keys of all entries. |
| `StateTransitionModel.GasPool.AddGas` | common/gaspool.go:30-36 | Adds to the pool; that the sum stays in 64 bits, where the code panics, is required and proved of every caller. |
| `StateTransitionModel.GasPool.SubGas` | common/gaspool.go:40-46 | Takes from the pool, or refuses and leaves it alone exactly when there is too little. |
| `StateTransitionModel.StateTransition.BuyGas` | internal/state_transition.go:229-268 | Refuses exactly when a product or sum overflows, the balance is short or the pool is; otherwise charges the full gas at the effective price. |
| `StateTransitionModel.StateTransition.PreCheck` | internal/state_transition.go:270-318 | The first check that fails, in order: nonce, account without code, caps, funds, pool; nothing has changed then. |
| `StateTransitionModel.StateTransition.RefundGas` | internal/state_transition.go:481-496 | The capped refund is added, the rest is paid back at the effective price and returned to the pool. |
| `StateTransitionModel.CapRefund` | internal/state_transition.go:483-486 | The refund counter or the quotient of the gas used, whichever is less. |
| `StateTransitionModel.StateTransition.PayFees` | internal/state_transition.go:435-454 | The producer gets the effective tip, the collector, if there is one, the base fee. |
| `StateTransitionModel.StateTransition.TransitionDb` | internal/state_transition.go:333-479 | Errors exactly by the first failing check; otherwise the final accounts, the gas used and the pool, as functions of what execution returned. |
| `StateTransitionModel.RefusedExactly` | internal/state_transition.go:229-392 | A message is accepted exactly if none of ten conditions is violated, and otherwise refused with the first one in order that is. |
| `StateTransitionModel.NonceUsed` | internal/state_transition.go:420-424 | An accepted message has the nonce of its sender, an account without code; execution starts with that nonce used up and all others as they were. |
| `StateTransitionModel.SameMessageRefused` | internal/state_transition.go:270-318 | If execution lowers no nonce, the same message is refused afterwards as having too low a nonce, in any block and with any pool. |
| `StateTransitionModel.ChargedAt` | internal/state_transition.go:229-268 | Buying gas takes its full price from the sender and nothing from anyone else. |
| `StateTransitionModel.IntrinsicSpent` | internal/state_transition.go:385-400 | Before any refund a transaction uses at least its intrinsic gas. |
| `StateTransitionModel.RefundGreatest` | internal/state_transition.go:481-486 | No greater refund keeps to the counter and to the share of the gas used. |
| `StateTransitionModel.FinalizedAt` | modules/state/intra_block_state.go:769-851 | At the end of a transaction the accounts it destroyed have no balance, nonce or code, and all others are as they were. |
| `Fees.MessageCarries` | common/transaction/transaction.go:644-668 | A message says what its transaction says; its price is at most the cap, and the cap without a base fee. |
| `Fees.PriceFits` | common/transaction/transaction.go:661-668 | Two units of gas that the sender can pay for are enough for tip plus base fee not to leave 256 bits. |
| `Fees.PriceSplits` | common/transaction/transaction.go:661-668 | The effective price is the producer's tip plus the base fee. |
| `Fees.PriceIsEffective` | common/transaction/transaction.go:661-668 | The effective price is the lesser of tip plus base fee and the cap; the producer gets the lesser of the tip and what the cap leaves. |
| `Fees.Payouts` | internal/state_transition.go:435-454 | Every account gets exactly what its roles are due: the sender the unused gas, the producer the tip, the collector the base fee, whichever of them coincide. |
| `Fees.PaymentsAddUp` | internal/state_transition.go:435-454 | What is paid back, paid to the producer, collected and burned adds up to what was charged. |
| `Fees.FeesConserved` | internal/state_transition.go:229-280 | The supply changes by what execution changes less the burned base fee, also if sender, producer and collector coincide: exactly unless one unit of gas is bought, used, and priced by a sum that left 256 bits. |
| `Fees.WrappedPriceFails` | common/transaction/transaction.go:661-668 | With such a price the supply does change. |
| `StateTransitionModel.SupplyLaw` | internal/state_transition.go:333-479 | The conservation law for every transaction that is not refused. |
| `StateTransitionModel.EnoughGas` | internal/state_transition.go:385-392 | A transaction whose cost fits in 64 bits buys at least 21000 units of gas, so it is never the exception. |
| `StateTransitionModel.ExceptionOccurs` | internal/state_transition.go:177-180 | The exception at an input: an access list whose cost makes the whole cost wrap to zero is accepted with one unit of gas, and the collector is paid a base fee that nobody paid in. |
| `StateTransitionModel.StateTransition.Settle` | internal/state_transition.go:426-454 | The refund, the fees and the pool after execution, as functions of what it returned. |
| `StateTransitionModel.IntraBlockState.FinalizeTx` | modules/state/intra_block_state.go:824-851 | Exactly the accounts marked as destroyed are emptied, whatever they hold by then, and the refund counter starts again. |
| `Ledger.ClearedTotal` | modules/state/intra_block_state.go:769-776 | Removing accounts takes exactly what they hold out of the supply. |
| `StateTransitionModel.RefundShare` | internal/state_transition.go:426-434 | The refund is at most a fifth of the gas used before it, half before London. |
| `StateProcessorModel.ApplyTransaction` | internal/state_processor.go:137-203 | The accounts afterwards are those that the message leaves without the ones it destroyed; pool plus counter stay the block's gas limit; the receipt carries the gas of the transaction and of the block so far. |
| `StateProcessorModel.Process` | internal/state_processor.go:63-103 | Every receipt's cumulative gas is the prefix sum, the total is at most the limit and equals the header's, no counter wraps; a refused transaction refuses the block with its first failing check. |
| `StateProcessorModel.BlockSupply` | internal/state_processor.go:63-103 | Over a whole block the supply changes by what execution changes, less the base fee on all gas used if there is no collector, and less what destroyed accounts still held or were paid. |
| `StateProcessorModel.NoLoss` | internal/state_processor.go:166-174 | A transaction loses nothing with the accounts it destroys exactly if each of them is empty when execution ends and is paid nothing as sender, producer or collector. |
| `StateProcessorModel.NothingLost` | internal/state_processor.go:63-103 | A block loses nothing that way exactly if none of its transactions does. |
| `StateProcessorModel.NoncesRise` | internal/state_processor.go:63-103 | The transactions of one sender in a block have ever greater nonces, so none is applied twice. |
| `Urls.CmpOrder` | accounts/url.go:98-103 | The comparison is antisymmetric and zero exactly on equal URLs. |
| `Urls.BeforeMeans` | accounts/url.go:98-103 | URLs are sorted by scheme and within a scheme by path. |
| `Strings.LessMeans` | accounts/url.go:98-103 | Strings are ordered by their first difference, a proper prefix first. |
| `Urls.BeforeTransitive` | accounts/url.go:98-103 | The comparison is transitive across schemes and paths. |
| `Urls.Search` | accounts/manager.go:250 | `sort.Search` by bisection: an index where the predicate begins to hold, for every predicate, and the first one from which on it holds if it is rising. |
| `Wallets.KeyStore.RefreshWallets` | accounts/keystore/keystore.go:138-181 | The two nested loops yield the wallets and events of the recursive comparison of two sorted lists. |
| `Wallets.DiffMatches` | accounts/keystore/keystore.go:149-173 | The new wallets are those of the accounts, in order, if and only if no account takes over the URL of a different one; wallets whose account is still there are kept as objects. |
| `Wallets.ClashExample` | accounts/keystore/keystore.go:163-169 | An account that takes over a URL is passed over. |
| `Wallets.Manager.Merge` | accounts/manager.go:248-258 | Insertion at the position that the search finds. |
| `Wallets.Manager.Drop` | accounts/manager.go:262-272 | Removal at the position that the search finds, if any. |
| `Wallets.Manager.Update` | accounts/manager.go:133-142 | Applies events one after the other. |
| `Wallets.MergedSorted` | accounts/manager.go:248-258 | A wallet with a new URL goes to its place and nothing else changes. |
| `Wallets.DropExact` | accounts/manager.go:262-272 | Exactly the given wallet goes if and only if it is present, or all others come before it. |
| `Wallets.DropOfAbsentWallet` | accounts/manager.go:262-272 | Dropping a wallet that is absent removes the next one. |
| `Wallets.ReplayFollows` | accounts/keystore/keystore.go:138-181 | Replaying a refresh on any sorted list that holds the old wallets gives the sorted list of the new wallets and the others. |
| `Wallets.Synchronise` | accounts/keystore/keystore.go:138-181 | A refresh and its replay together, from the code of both sides. |
| `Unlocks.StepInv` | accounts/keystore/keystore.go:322-405 | Every step of `TimedUnlock`, `Lock` and `expire` keeps: what is in the map is neither wiped nor called off, channels are closed at most once, timers belong to timed unlocks. |
| `Unlocks.Safe` | accounts/keystore/keystore.go:322-405 | In every run no abort channel is closed twice and no key in the map was wiped. |
| `Unlocks.OneFate` | accounts/keystore/keystore.go:340-405 | In every run each decrypted key has exactly one fate: in the map, called off once for a newer unlock, or wiped. |
| `Unlocks.OldTimerHarmless` | accounts/keystore/keystore.go:387-405 | A timer that fires removes no instance but its own. |
| `Unlocks.WhatRemoves` | accounts/keystore/keystore.go:340-405 | An instance leaves the map by its own expiry, or by a newer unlock if it was timed. |
| `Unlocks.IndefiniteGoesByLock` | accounts/keystore/keystore.go:317-405 | In every run an indefinite unlock goes only because `Lock` was called for it. |
| `Unlocks.UnlockGives` | accounts/keystore/keystore.go:333-372 | An unlock puts its key into the map and leaves the others, with a timer exactly if there is a timeout; where an indefinite unlock stands it changes nothing and the new key is wiped. |
| `Unlocks.ExpiryTakes` | accounts/keystore/keystore.go:387-405 | An expiry takes its own instance out and wipes it, and touches no other. |
| `Unlocks.CalledOffQuits` | accounts/keystore/keystore.go:387-392 | Whoever waits for an instance whose timer was called off can stop waiting. |
| `Unlocks.AtRest` | accounts/keystore/keystore.go:317-405 | In every run, when no expiry is pending, what is left in the map was unlocked indefinitely and never locked: every timeout and every `Lock` has had its effect. |
| `AccountCacheModel.AccountCache.Add` | accounts/keystore/account_cache.go:104-117 | Nothing changes exactly if the account is the first one listed with its URL; otherwise it is added; the list stays sorted and the lists per address its partition. |
| `AccountCacheModel.AccountCache.Delete` | accounts/keystore/account_cache.go:120-130 | One occurrence leaves both lists, or nothing changes; no empty list per address stays behind. |
| `AccountCacheModel.AccountCache.DeleteByFile` | accounts/keystore/account_cache.go:133-147 | At most one account leaves both lists, and only one with the path; with accounts of one scheme, exactly if there is one. |
| `AccountCacheModel.AccountCache.Find` | accounts/keystore/account_cache.go:169-200 | The answer from the list per address is the one that a scan of the whole list gives. |
| `AccountCacheModel.AccountCache.FoundByPath` | accounts/keystore/account_cache.go:169-184 | An account is found by its full path, and by the bare name of its file in the key directory. |
| `AccountCacheModel.AnswerBelongs` | accounts/keystore/account_cache.go:169-200 | Whatever is found is listed and has the address asked for, or the URL if that is all that was given; an ambiguity is between two or more; nothing is found only if nothing fits. |
| `AccountCacheModel.RemoveAccount` | accounts/keystore/account_cache.go:157-164 | The first occurrence is taken out, if there is one. |
| `AccountCacheModel.AnswersSame` | accounts/keystore/account_cache.go:169-200 | The answer depends on the candidates as a multiset only. |
| `AccountCacheModel.Dropped` | accounts/keystore/account_cache.go:120-130 | Taking an account out of both lists keeps them in agreement. |
| `ForkCompat.CheckCompatible` | params/config.go:532-546 | Terminates; returns nothing exactly when there is no conflict at the height; otherwise an error found on the way, with the height where repeated rewinding ends, which is free of conflicts or 0. |
| `ForkCompat.SearchExact` | params/config.go:532-739 | That height is the greatest conflict-free one if and only if Petersburg does not make the search overshoot, a condition on the two configurations and the height. |
| `ForkCompat.SettleGreatest` | params/config.go:532-739 | Without overshooting the search equals exhaustive search, 0 when even height 0 conflicts. |
| `ForkCompat.SettleOvershoots` | params/config.go:627-633 | With it, the search ends below a height without conflict. |
| `ForkCompat.OrderedNeverOvershoots` | params/config.go:550-599 | A stored configuration that passes the fork-order check never makes it overshoot. |
| `ForkCompat.OvershootExample` | params/config.go:627-633 | A chain of height 5 is rewound to 1 although height 4 is free of conflicts. |
| `ForkCompat.ConflictParts` | params/config.go:601-660 | A conflict is a failing check of one of the three groups. |
| `ForkCompat.ScanRewinds` | params/config.go:724-739 | All heights between the rewind height and the head are in conflict, for every check but Petersburg's. |
| `ForkCompat.CheckConfigForkOrder` | params/config.go:550-599 | Accepts exactly the chain with ID 77 and the schedules in which no later fork comes earlier and nothing follows a missing required fork. |
| `ForkSchedule.ConflictMeans` | params/config.go:601-660 | There is no conflict exactly if every fork is active at the same heights up to the head in both configurations, the DAO flag and the chain ID agree where they count, and Petersburg, if it moved, is where Constantinople was. |
| `ForkSchedule.FirstReported` | params/config.go:601-660 | The error is that of the first of eighteen things that differ, with its name and both blocks. |
| `ForkSchedule.RewindMeans` | params/config.go:724-739 | An error rewinds to the last height before either configuration has the fork, or to genesis. |
| `ForkSchedule.OrderMeans` | params/config.go:550-599 | A schedule is in order exactly if, field by field, every fork comes after those before it and every required one is there before anything that follows. |
| `Signing.SignRecover` | common/transaction/transaction_signing.go:158-275 | Signing fails exactly on a typed transaction that names another chain, and changes nothing but the signature and its chain ID. Signing and recovering under one London signer passes on the signed payload and the 65 bytes: always for typed transactions, for legacy ones if and only if the chain ID is not zero and the recovery value fits in 256 bits. |
| `Signing.TypedRoundTrip` | common/transaction/transaction_signing.go:158-275 | Access-list and dynamic-fee transactions: round trip and derived chain ID. |
| `Signing.LegacyFits` | common/transaction/transaction_signing.go:158-371 | Legacy transactions: round trip and derived chain ID. |
| `Signing.LegacyFails` | common/transaction/transaction_signing.go:233-256 | With chain ID zero or a recovery value that does not fit, something else or nothing is recovered. |
| `Signing.ReplayRefused` | common/transaction/transaction_signing.go:158-256 | A signature for one chain is refused as of another chain under every signer whose chain ID differs as a 256-bit word, and under no other. |
| `Signing.PlainReplays` | common/transaction/transaction_signing.go:233-256 | A legacy signature for chain ID zero recovers under the signer of every chain. |
| `SignedContent.PayloadFields` | common/transaction/transaction_signing.go:198-306 | Every part of what is hashed is the part of the transaction with that name. |
| `SignedContent.PayloadDetermines` | common/transaction/transaction_signing.go:198-306 | Two payloads are equal exactly if chain, kind and everything that the kind of transaction says are equal; an unprotected payload equals no protected one. |
| `SignedContent.MovedSignature` | common/transaction/transaction_signing.go:105-275 | A signature on a transaction that asks for something else reaches recovery with another payload, under every signer. |
| `SignedContent.SenderAccepts` | common/transaction/transaction_signing.go:158-275 | For every transaction: a signer hands it on exactly if both numbers are in range, the second in the lower half, and the recovery value is 27 or 28, that of the chain, or 0 or 1 in a typed transaction for the chain; with which payload and bytes. |
| `SignedContent.OtherHalfRefused` | common/crypto/crypto.go:315-326 | Of the two signatures that fit a message on the curve, one only is accepted. |
| `SignedContent.WrongChain` | common/transaction/transaction_signing.go:233-256 | When the error is that of a wrong chain ID. |
| `SignedContent.DerivedChain` | common/transaction/transaction_signing.go:496-506 | The chain ID of a legacy transaction for every recovery value. |
| `SignedContent.SignedNumbers` | common/transaction/transaction_signing.go:361-373 | The numbers that signing writes for any 65 bytes, with the offset of the last byte wrapping within a byte. |
| `Signing.DerivesBack` | common/transaction/transaction_signing.go:496-506 | The chain ID comes back from the recovery value, in both number ranges. |
| `Signing.EncodeSignature` | common/transaction/transaction_signing.go:476-481 | The buffer holds both numbers right-aligned in 32 bytes and the recovery bit. |
| `Signing.RecoverPlain` | common/transaction/transaction_signing.go:466-483 | What reaches the recovery, or the error before it. |
| `Signing.Transaction.Sender` | common/transaction/transaction_signing.go:105-122 | The cached sender is always the one that would be derived. |
| `Signing.SenderIsSigner` | common/transaction/transaction_signing.go:86-122 | If recovery undoes signing, the sender of a signed transaction is who signed it. |
| `HashCache.HashFn.Get` | internal/evm.go:82-113 | For every number, and after any queries before, the answer is that of the uncached walk along parents; every walk terminates. |
| `HashCache.HashFn.Extend` | internal/evm.go:95-111 | The walk from the last known hash on, while the cache grows. |
| `HashCache.AncestorFound` | internal/evm.go:82-113 | Along stored parents the walk returns the hash of the ancestor with that number. |

## Left out

- ABI: parsing of type strings (`NewType`), Go reflection, struct field names, `HashTy` and `FixedPointTy`, and the overflow of Go's `int` in sizes of types near 2^63.
- ABI: `method.go`, `event.go`, `error.go`, topics and JSON loading, which would only add easy members.
- Multilock: the list of keys that `Clean` returns; `Yield`, which is `Unlock` followed by `Lock`; fairness between waiting goroutines, so that one of them may wait while others make new calls; one goroutine that holds several multilocks at once, which the code does not protect either.
- Canonical chain: `insertSideChain`, `writeKnownBlock` and header verification; receipts and state writes; database errors in the middle of a transaction; logging of the old chain.
- BlockChainModel.BlockChain.WriteBlockWithState: transactions are unique along every stored path, which the caller must ensure of a new block; total difficulties are unbounded numbers.
- LazyQueueModel.LazyQueue.MultiPop: what the callback does depends on the items passed to it so far; it pushes no item that is queued and does not push for ever, as the code would not end then; it does nothing else to the queue, and priorities do not change during the call.
- LazyQueueModel.LazyQueue.Refresh: the period is positive, as the code loops forever otherwise; times are unbounded numbers.
- LazyQueueModel.LazyQueue.Update: for an index that was reported; with a negative one the code pushes an absent item.
- SStackModel.SStack.Push: the item is not on the stack yet, as one item has one index.
- LazyQueueModel.LazyQueue.Push: the item is not queued yet, as one item has one index.
- Lazy queue: `Reset` after construction, which does not reset the index offset; whether estimates stay bounds between refreshes, which is up to the callbacks; `Prque` and wrap-around priorities.
- SimClock.Simulated.Reset: the panic on timers made by `AfterFunc`; timers are numbers and their fields maps, so that nobody else changes them; the channels and functions of timers, `Sleep`, `WaitForTimers` and the condition variable.
- StateTransitionModel.StateTransition.TransitionDb: London rules come with a base fee and earlier rules without one; refunds are applied, there is no gas bailout, the nonce is checked, and the system is not Parlia, as in block processing.
- StateTransitionModel.SupplyLaw: the supply with what execution adds fits in 256 bits; execution is any function that returns no more gas than it gets and keeps balances in 256 bits.
- StateProcessorModel.BlockSupply: execution never creates supply, and no access list is so long that its cost leaves 64 bits; creating a contract anew where one was destroyed earlier in the block is part of execution.
- StateProcessorModel.NoncesRise: execution lowers no nonce, uses up the sender's in a creation, and neither destroys nor gives code to an account that has sent a transaction.
- Fees: `EffectiveGasTip` and the comparators of transactions; access lists for warm addresses; the EVM, the journal and storage of `IntraBlockState`, the removal of empty accounts, which changes no balance, receipts' logs and blooms, and the consensus engine's `Finalize`.
- Wallets.Synchronise: no wallet of another backend has the URL of a keystore account; delivery of events by the feed, and backends that come and go.
- Unlocks.StepInv: how long timers run, since a goroutine may see its timer at any moment; decryption of keys.
- AccountCacheModel.AccountCache.Find: the completion of a bare file name to a path is a parameter; the order of the candidates in an ambiguity error.
- AccountCacheModel.AccountCache.DeleteByFile: with accounts of several schemes in one cache, which the keystore does not have, not when an account with the path is found.
- Keystore: sharing of backing arrays between Go slices, file watching, scanning of the key directory and key encryption.
- ForkCompat.CheckCompatible: fork blocks are block numbers below 2^64, so that reading them as 64-bit words loses nothing.
- Signing.SignRecover: the London signer only; the signers before it accept fewer transaction types with the same arithmetic. RLP encoding, Keccak and secp256k1 are parameters.
- HashCache.HashFn.Get: headers are found under their own number and none has the number 2^64 - 1.
- Peer-to-peer networking, the RPC interface, the command line, storage back ends and the transaction pool.
