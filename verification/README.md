# Verified model of a Polkadot client's algorithms and protocols

This project models the parts of the C++ Polkadot API client in which correctness is hard to see: the
in-place arithmetic behind addresses, hashes and 128-bit numbers, the concurrency of the update queue, the
request and subscription protocols on top of it, and the SCALE codecs for extrinsics and metadata. Each file
is one module.

| file | what it models |
|---|---|
| `Common.dfy` | the optional value and the word sizes that several modules share |
| `Numerals.dfy` | digit strings in base 58 and 256, their values, uniqueness of canonical digits |
| `Base58.dfy` | base conversion with carries, both directions, on sequences and in place on arrays |
| `Ss58.dfy` | checksummed addresses over any hash function |
| `Blake2b.dfy` | the streaming hash against sections 3.2 and 3.3 of RFC 7693, over any compression function |
| `UInt128.dfy` | top-bit search and shift-subtract division of 128-bit numbers |
| `DecimalText.dfy` | decimal printing in chunks and reverse double-dabble parsing |
| `MapQueue.dfy` | the bounded queue per key, its two semaphores, producers and consumers |
| `JsonRpc.dfy` | requests, replies and update queues of JSON-RPC over a web socket |
| `Subscriptions.dfy` | the callback and id tables of the application, and the update dispatch |
| `Scale.dfy` | hex streams and compact integers |
| `Extrinsics.dfy` | extrinsic and payload layout, sending, and the pending-extrinsics parser |
| `MetadataV7.dfy` | the V7 metadata parser against a reference encoding |
| `ModuleIndex.dfy` | the search for a module's call index |
| `EraProgress.dfy` | era, epoch and session progress |

Code that works in place is a method on an array or a class, proved equal to a function on values; the laws
are then lemmas about that function. Concurrency is a step system: `IsRun` is any interleaving of enabled
steps, and the results hold in every state of every run. The hash, the compression function and the signing
function are parameters, so every result holds for all of them.

Several laws hold only on part of the inputs. Those are stated as if-and-only-if, with a condition on the
input alone:

- Base58 loses an all-zero input: the digit array starts with one digit in it (`Base58Text.DecodeEncode`,
  `Base58Text.EncodeDecode`).
- A payload of 35 bytes needs 48 base-58 digits, one more than the scratch array of the source holds
  (`Ss58.PayloadDigits`); `len * 138 / 100 + 1` digits are always enough (`Ss58.ScratchBound`).
- A 48-character text can overrun the decoder's array only from 36 leading '1' on, and for each such number some
  text does (`Ss58.OverrunThreshold`); among alphabet texts only the one made of '1' does (`Ss58.OverrunOnlyOnes`).
- Compact integers from 0x1000 to 0x3FFF lose their upper bits, and from 2^56 on the byte array is too small
  (`Scale.EncodeIsCompact`, `Scale.CompactRoundTrip`); so amounts and nonces in that gap are sent wrong
  (`Extrinsics.TransferRoundTrip`).
- The length that `submitAndSubcribeExtrinsic` writes leaves the nonce out
  (`Extrinsics.SubmitAndSubscribeLengthIsRight`), and the signed payload holds at most 255 method bytes
  (`Extrinsics.PayloadHoldsTheMethod`).
- A producer and a consumer of a key can block each other for good if and only if the queue size is one
  (`MapQueue.DeadlockIffOne`); a size below one does not bound the queue (`MapQueue.UnboundedBelowOne`).
- unsubscribeWs erases the observer before the queue's key. A consumer that then has an update, in hand or queued,
  or still gets one, can call a missing observer; otherwise it cannot (`JsonRpc.NullCallIffLeftover`,
  `JsonRpc.CarefulRunsMeetNoNull`, with the run `JsonRpc.NullCallRun`).
- Each key has at most one live server subscription, except transfers and extrinsics: a transfer sent before the one
  before it is finalized, and every extrinsic after the first, leaves the earlier subscription live and unheard
  (`Subscriptions.AtMostOneOpen`, `Subscriptions.FirstTransferIsLost`).
- The call index of a module counts nameless slots in front of it (`ModuleIndex.CallIndexIffContiguous`), and
  a module without calls gets the index of the one before it (`ModuleIndex.AnswersKeepOrder`).
- The call with id 2147483647, which belongs to the health check, and the call with id zero never get their answer
  (`JsonRpc.CallReturnsItsMessage`).
- With modules skipped, -1 can also stand for a module that exists (`ModuleIndex.MinusOneIff`).
- Era and session progress are offsets in the right period only if the message and the best block agree
  (`EraProgress.EpochEraProgress`, `EraProgress.SessionProgress`).

Where the code differs from what its names suggest, the model follows the code: the magic bytes
of the metadata are not looked at, the network byte of an address is not tested, and subscribing to era and
session replaces the block-number callback.

## Model

| member | source | states |
|---|---|---|
| `Base58Text.AbsorbValue` | src/utils/address.cpp:19-24 | one carry pass turns the digits of v into digits of carry + base * v, for both conversions, and the 32-bit carry never wraps |
| `Base58Text.AbsorbCanonical` | src/utils/address.cpp:18-29 | a pass with its run-off digits keeps the digit array free of a leading zero and gives the right value |
| `Base58Text.ConvertValue` | src/utils/address.cpp:17-29 | after all passes the array holds the canonical digits of the big-endian number that was read |
| `Base58Text.ConvertLength` | src/utils/address.cpp:15-29 | the array needs at most c digits exactly if the number is below the c-th power of the target base |
| `Base58Text.RecodeInverse` | src/utils/address.cpp:14-69 | converting to the other base and back is the identity, leading zeros included, if and only if some digit is not zero |
| `Base58Text.RecodeZeros` | src/utils/address.cpp:17 | an input of z zeros becomes z + 1 zeros |
| `Base58Text.DecodeEncode` | src/utils/address.cpp:14-69 | decoding an encoding gives the bytes back if and only if one of them is not zero |
| `Base58Text.EncodeDecode` | src/utils/address.cpp:14-69 | encoding what alphabet text decodes to gives the text back if and only if it has a symbol other than '1' |
| `Base58Text.DecodeBytes` | src/utils/address.cpp:43-69 | any text at all decodes to bytes, also when unknown characters load -1 and the carry wraps |
| `Base58Text.Symbol` | src/utils/address.cpp:5-11 | the character table of the decoder inverts the alphabet of the encoder |
| `Base58Text.AlphabetIs` | src/utils/address.cpp:5 | digit by digit the symbols are those of the alphabet, given as text |
| `Base58Text.TableIs` | src/utils/address.cpp:6-11 | the table inverts the alphabet, and every other character loads 2^32 - 1 |
| `Base58Text.MultiplyPass` | src/utils/address.cpp:18-24 | the in-place multiply loop leaves the digits, and a carry, of the specified pass |
| `Base58Text.SpillCarry` | src/utils/address.cpp:25-28 | the run-off loop appends exactly the digits of the carry |
| `Base58Text.ConvertInPlace` | src/utils/address.cpp:16-29 | both loops together leave the specified conversion in the scratch array |
| `Base58Text.WriteOnes` | src/utils/address.cpp:30-33 | one '1' per leading zero byte, nothing else touched |
| `Base58Text.WriteSymbols` | src/utils/address.cpp:34-37 | the digits as symbols, most significant first, then the terminator |
| `Base58Text.EncodeBase58` | src/utils/address.cpp:14-40 | the buffer holds the specified text and its terminator; the rest is unchanged |
| `Base58Text.AppendZeros` | src/utils/address.cpp:59-61 | one zero byte per leading '1' |
| `Base58Text.ReverseInPlace` | src/utils/address.cpp:63-67 | the downward swap loop reverses the first n bytes and leaves the others |
| `Base58Text.DecodeCovered` | src/utils/address.cpp:43-69 | the loops leave the specified bytes in the buffer |
| `Base58Text.DecodeBase58` | src/utils/address.cpp:43-69 | refused exactly for text with a character from 128 on, which the table does not cover; otherwise the specified bytes |
| `Ss58.AddressBounds` | src/utils/address.cpp:103-123 | 58^47 <= 42 * 256^34 and 43 * 256^34 <= 58^48 |
| `Ss58.PayloadDigits` | src/utils/address.cpp:15 | every address payload needs exactly 48 digits, one more than 35 * 137 / 100 |
| `Ss58.AddressLength` | src/utils/address.cpp:103-123 | the address of every key has 48 symbols, all of the alphabet, whatever the hash |
| `Ss58.ScratchBound` | src/utils/address.cpp:15 | len * 138 / 100 + 1 digits suffice for every input of len bytes |
| `Ss58.KeyOfAddress` | src/utils/address.cpp:71-123 | the address of a key decodes to the 35 payload bytes, passes the checksum and gives that key |
| `Ss58.AddressOfKey` | src/utils/address.cpp:71-93 | text that passes the checksum is the address of its key if and only if its network byte is 42 |
| `Ss58.DecodeFits` | src/utils/address.cpp:43-69 | alphabet text decodes to no more bytes than it has characters, unless it is all '1' |
| `Ss58.OverrunOnlyOnes` | src/utils/address.cpp:71-76 | among 48-symbol alphabet texts only the one made of '1' needs more than the 48-byte array |
| `Ss58.ConvertAtMost` | src/utils/address.cpp:43-57 | with unknown characters and wrapping carries the bytes still have no leading zero, and their number is below a geometric sum |
| `Ss58.OverrunNeedsOnes` | src/utils/address.cpp:71-76 | any 7-bit text that overruns the array has at least 36 leading '1' |
| `Ss58.UnknownOverruns` | src/utils/address.cpp:71-76 | from 36 to 47 leading '1', one unknown character and '1's again overrun it |
| `Ss58.OverrunThreshold` | src/utils/address.cpp:71-76 | some 7-bit text with that many leading '1' overruns the array if and only if they are at least 36 |
| `Ss58.GetAddrFromPublicKey` | src/utils/address.cpp:103-123 | the produced text has 48 alphabet symbols, decodes to 0x2A, the key and the first two bytes of the hash of SS58PRE, 0x2A and the key, and gives the key back |
| `Ss58.KeyOfCases` | src/utils/address.cpp:71-93 | each outcome of decoding an address, in terms of its characters, the decoded bytes and the hash of SS58PRE and the first 33 of them |
| `Ss58.GetPublicKeyFromAddr` | src/utils/address.cpp:71-93 | for any 48 characters: key, checksum error, the zero key for a wrong length, or the overrun of table or array, as specified |
| `Ss58.GetPublicKeyFromText` | src/utils/address.cpp:95-101 | for any text: the key of its first 48 characters, the terminator included; a text that starts with an address gives its key |
| `Blake2b.CounterAddition` | src/libs/blake/blake2b.cpp:47-50 | the two-word increment is addition modulo 2^128 |
| `Blake2b.SplitInvariance` | src/libs/blake/blake2b.cpp:198-221 | any sequence of update calls leaves the state of one call on the concatenation |
| `Blake2b.UpdateAbsorbs` | src/libs/blake/blake2b.cpp:198-221 | after every update the chaining value is the RFC fold of all blocks but the last, the counter the bytes compressed, and the last block is held back |
| `Blake2b.DrainAbsorbs` | src/libs/blake/blake2b.cpp:210-218 | the block loop, from any point of the data, arrives at that state |
| `Blake2b.FinishIsReference` | src/libs/blake/blake2b.cpp:223-236 | finishing gives the fold of section 3.3 of RFC 7693 with the padded last block flagged final |
| `Blake2b.IVIsRoots` | src/libs/blake/blake2b.cpp:23-26 | the IV words are the first 64 fraction bits of the square roots of the first eight primes, as section 2.6 of RFC 7693 has them |
| `Blake2b.LoadValue` | src/libs/blake/blake2-impl.h:48-65 | load64 gives the value of eight bytes in base 256, the first least significant |
| `Blake2b.LoadStored` | src/libs/blake/blake2-impl.h:104-120 | loading what store64 stored gives the word back |
| `Blake2b.WordBytesValue` | src/libs/blake/blake2-impl.h:104-120 | the eight stored bytes, read in base 256 from the first, are the word |
| `Blake2b.ChainBytesValue` | src/libs/blake/blake2b.cpp:238-241 | bytes 8k to 8k + 7 of the digest are word k, least significant byte first |
| `Blake2b.FirstWord` | src/libs/blake/blake2b.cpp:75-84 | the first parameter word is the constant of section 3.3 of RFC 7693 with key and digest length |
| `Blake2b.MixParams` | src/libs/blake/blake2b.cpp:61-69 | the loop xors the IV with the parameter block word by word |
| `Blake2b.MixedIsInitial` | src/libs/blake/blake2b.cpp:61-94 | the xored words are the initial chaining value of the RFC |
| `Blake2b.State.constructor` | src/libs/blake/blake2b.cpp:52-94 | a fresh state has that chaining value, zero counters and flags, and an empty buffer |
| `Blake2b.State.IncrementCounterBy` | src/libs/blake/blake2b.cpp:47-50 | only the counter changes, as specified |
| `Blake2b.State.Compress` | src/libs/blake/blake2b.cpp:155-194 | only the chaining value changes, to a function of itself, the counter, the flags and the block |
| `Blake2b.State.CountAndCompress` | src/libs/blake/blake2b.cpp:206-207 | the counter moves before the block is compressed |
| `Blake2b.State.CopyIn` | src/libs/blake/blake2b.cpp:205 | exactly the named stretch of the buffer is overwritten |
| `Blake2b.State.FillAndCompress` | src/libs/blake/blake2b.cpp:204-207 | the held-back bytes and the first input bytes make up the compressed block |
| `Blake2b.State.CompressBlocks` | src/libs/blake/blake2b.cpp:210-215 | the loop compresses blocks as long as more input follows and leaves at most one |
| `Blake2b.State.CompressAll` | src/libs/blake/blake2b.cpp:203-216 | for input beyond the buffer, everything but a last block is compressed as the specified update has it |
| `Blake2b.State.Hold` | src/libs/blake/blake2b.cpp:217-218 | the bytes go behind those held back |
| `Blake2b.State.Absorb` | src/libs/blake/blake2b.cpp:198-221 | the object after blake2b_update is the specified update of the object before |
| `Blake2b.State.Final` | src/libs/blake/blake2b.cpp:223-244 | refused, with nothing changed, for a small buffer or a finished state; otherwise the digest is the first outlen bytes |
| `Blake2b.StreamIsReference` | src/libs/blake/blake2b.cpp:96-129 | key block, message and finish give the RFC fold of the keyed data |
| `Blake2b.AnySplitHashes` | src/libs/blake/blake2b.cpp:198-244 | any split of a message, then finish, gives the RFC fold of the whole message |
| `Blake2b.Hash` | src/libs/blake/blake2b.cpp:247-277 | fails exactly on bad lengths, and otherwise returns the RFC hash of key and message |
| `UInt128.FlsStep` | src/libs/int128/int128.cpp:44-53 | one halving step keeps the shifted remainder around the number and halves its width |
| `UInt128.TableIsTopBit` | src/libs/int128/int128.cpp:52 | the packed table gives the top bit of every number from 1 to 15 |
| `UInt128.Fls64` | src/libs/int128/int128.cpp:44-53 | 2^top <= n < 2^(top+1) for every nonzero 64-bit n |
| `UInt128.Fls128` | src/libs/int128/int128.cpp:58-63 | the same for 128 bits |
| `UInt128.Aligned` | src/libs/int128/int128.cpp:87-88 | the aligned divisor does not overflow 128 bits and is more than half the dividend |
| `UInt128.Round` | src/libs/int128/int128.cpp:92-99 | a round keeps dividend = shifted product + remainder, and the quotient does not overflow |
| `UInt128.ShiftSubtract` | src/libs/int128/int128.cpp:92-99 | the loop body restores the invariant with the remainder below the halved denominator |
| `UInt128.DivMod` | src/libs/int128/int128.cpp:68-103 | dividend == quotient * divisor + remainder with remainder < divisor, for all inputs but divisor zero |
| `DecimalText.ToDecimalCorrect` | src/libs/int128/int128.cpp:172-213 | the decimal text denotes its number and has no leading zero, except for zero itself |
| `DecimalText.DigitIs` | src/libs/int128/int128.cpp:172-213 | digit d is printed as the d-th of 0123456789 |
| `DecimalText.ChunkSplit` | src/libs/int128/int128.cpp:199-211 | the text of hi * 10^19 + lo is the text of hi and the low chunk padded to 19 digits |
| `DecimalText.FormatDecimal` | src/libs/int128/int128.cpp:172-213 | three chunks, padded where a higher one was printed, give the decimal text of every 128-bit number |
| `DecimalText.HalvedValue` | src/utils/converters.cpp:47-58 | handing 5 on for every odd digit halves the number, and the last digit has its parity |
| `DecimalText.ShiftDigits` | src/utils/converters.cpp:47-52 | the downward shift gives each digit half plus 8 for an odd neighbour |
| `DecimalText.CorrectDigits` | src/utils/converters.cpp:55-58 | subtracting 3 above 7 turns the 8 into the 5 of a decimal halving |
| `DecimalText.HalveDigits` | src/utils/converters.cpp:47-58 | shift, skip and correction together halve the digit string in place |
| `DecimalText.HalveNumber` | src/utils/converters.cpp:44-58 | a round yields the parity and the half; the scan start reaches the end exactly at zero |
| `DecimalText.RoundKeepsSum` | src/utils/converters.cpp:44-58 | collected bits + 2^k * what is left stays constant |
| `DecimalText.RoundResult` | src/utils/converters.cpp:44-46 | the 128-bit result and mask hold the collected bits modulo 2^128, beyond 128 rounds too |
| `DecimalText.ScanDigits` | src/utils/converters.cpp:39-59 | the loop ends, with the number of any digit array modulo 2^128 |
| `DecimalText.SkipBlanks` | src/utils/converters.cpp:25-26 | the first position that is no blank and no plus sign |
| `DecimalText.CountDigits` | src/utils/converters.cpp:32-34 | the length of the leading digit run |
| `DecimalText.LoadDigits` | src/utils/converters.cpp:36-38 | the scratch array holds the digit values |
| `DecimalText.Atoi128` | src/utils/converters.cpp:24-62 | the signed decimal value modulo 2^128, for every text with up to 255 digits |
| `DecimalText.AtoiNegative` | src/utils/converters.cpp:24-62 | blanks and plus signs, a minus sign, digits, anything else: the negated value of the digits modulo 2^128 |
| `DecimalText.AtoiPositive` | src/utils/converters.cpp:24-62 | the same without the minus sign: the value of the digits modulo 2^128 |
| `DecimalText.SignedText` | src/utils/converters.cpp:24-62 | after any blanks, the printed text of v with a minus sign gives the negation of v, and without it v |
| `DecimalText.PrintThenParse` | src/utils/converters.cpp:24-62 | printing any 128-bit number and parsing the text returns it |
| `MapQueue.StepKeepsInv` | src/utils/concurrentmapqueue.h:65-95 | every step keeps the counts balanced, no wake-up lost, and the order of the items |
| `MapQueue.RunKeepsInv` | src/utils/concurrentmapqueue.h:65-111 | in every run, for every key and every max_size, write count + read count + threads in flight == max_size - 1, and woken threads that have not run number at least the count if one sleeps |
| `MapQueue.Safety` | src/utils/concurrentmapqueue.h:65-95 | the queue stays below a positive max_size, a consumer past its wait finds an item, and reads are a FIFO prefix of writes |
| `MapQueue.RunQueueSteps` | src/utils/concurrentmapqueue.h:65-95 | in every run a write finds room and appends, a read finds an item and takes the front, and nothing else touches a queue |
| `MapQueue.RunnableHasStep` | src/utils/concurrentmapqueue.h:16-27 | a key has a thread that can go on if and only if a step that continues a call is enabled |
| `MapQueue.StuckOnlyForCause` | src/utils/concurrentmapqueue.h:79-95 | when nothing of a key can run, producers sleep only on a full queue and consumers only on an empty one |
| `MapQueue.NoDeadlock` | src/utils/concurrentmapqueue.h:79-95 | unless max_size is one, a producer and a consumer of a key never both sleep while none can run |
| `MapQueue.DeadlockAtOne` | src/utils/concurrentmapqueue.h:105-111 | with max_size one there is a run that ends so |
| `MapQueue.DeadlockIffOne` | src/utils/concurrentmapqueue.h:79-111 | some run of a key deadlocks if and only if max_size is one |
| `MapQueue.ContinuingLeavesLess` | src/utils/concurrentmapqueue.h:16-27 | every step that goes on with a call, a wake-up included, leaves the calls of the key less to do |
| `MapQueue.CallsComeToRest` | src/utils/concurrentmapqueue.h:79-95 | however they are scheduled, the calls of a key go on for no more steps than that measure |
| `MapQueue.CallsFinishOrSleep` | src/utils/concurrentmapqueue.h:79-95 | from any state of a run the calls of a key come to their end or to a sleep, producers only on a full queue and consumers only on an empty one |
| `MapQueue.UnboundedBelowOne` | src/utils/concurrentmapqueue.h:105-111 | with max_size below one there is, for every n, a run that leaves n items in the queue |
| `MapQueue.OnePutMore` | src/utils/concurrentmapqueue.h:79-85 | any run can be extended by a put that finds the write count other than zero |
| `MapQueue.ConcurrentMapQueue.constructor` | src/utils/concurrentmapqueue.h:62-63 | no keys, the given size, and the empty run |
| `MapQueue.ConcurrentMapQueue.AddKey` | src/utils/concurrentmapqueue.h:105-111 | a new key gets counts 0 and max_size - 1; an old one keeps its own; no thread moves |
| `MapQueue.ConcurrentMapQueue.EnterPut` | src/utils/concurrentmapqueue.h:79-80 | entering put is a step of the run, from any state |
| `MapQueue.ConcurrentMapQueue.EnterGet` | src/utils/concurrentmapqueue.h:87-88 | entering get is a step of the run, from any state |
| `MapQueue.ConcurrentMapQueue.TestWrite` | src/utils/concurrentmapqueue.h:21-27 | one pass of the wait loop is the model's step: sleep on zero, else take one |
| `MapQueue.ConcurrentMapQueue.TestRead` | src/utils/concurrentmapqueue.h:21-27 | the same on the read semaphore |
| `MapQueue.ConcurrentMapQueue.WriteItem` | src/utils/concurrentmapqueue.h:65-67 | the item goes to the end of its own key's queue |
| `MapQueue.ConcurrentMapQueue.ReadItem` | src/utils/concurrentmapqueue.h:69-77 | the front item is taken, or none from an empty queue |
| `MapQueue.ConcurrentMapQueue.NotifyReader` | src/utils/concurrentmapqueue.h:16-20 | the count goes up and one sleeper wakes if there is one |
| `MapQueue.ConcurrentMapQueue.NotifyWriter` | src/utils/concurrentmapqueue.h:16-20 | the same on the write semaphore |
| `MapQueue.ConcurrentMapQueue.Wake` | src/utils/concurrentmapqueue.h:23-25 | a spurious wake-up is a step of the run that changes no field |
| `MapQueue.ConcurrentMapQueue.PutWaits` | src/utils/concurrentmapqueue.h:79-82 | put up to its wait: two steps, passed exactly if the count is not zero |
| `MapQueue.ConcurrentMapQueue.PutWrites` | src/utils/concurrentmapqueue.h:83-84 | the rest of put: the item at the end of the queue, two steps |
| `MapQueue.ConcurrentMapQueue.Put` | src/utils/concurrentmapqueue.h:79-85 | put on any reachable object: sleeps exactly on count zero, else appends the item |
| `MapQueue.ConcurrentMapQueue.GetWaits` | src/utils/concurrentmapqueue.h:87-90 | get up to its wait: two steps, passed exactly if the count is not zero |
| `MapQueue.ConcurrentMapQueue.GetReads` | src/utils/concurrentmapqueue.h:91-94 | the rest of get never finds the queue empty and takes the front |
| `MapQueue.ConcurrentMapQueue.Get` | src/utils/concurrentmapqueue.h:87-95 | get on any reachable object: sleeps exactly on count zero, else returns the front item |
| `MapQueue.ConcurrentMapQueue.AlwaysSafe` | src/utils/concurrentmapqueue.h:41-60 | whatever calls were made, the object's queue is bounded, FIFO, ready for readers past their wait, and not deadlocked unless its size is one |
| `JsonRpc.IdsDiffer` | src/jsonrpc.cpp:10 | the ids of fewer than 2^32 calls differ |
| `JsonRpc.IdsWrapAround` | src/jsonrpc.cpp:10 | after 2^32 calls an id comes again |
| `JsonRpc.RunKeepsCalls` | src/jsonrpc.cpp:22-101 | in every state of every run the query table holds, per waiting call, the last answer to its id since it started, and nothing for calls that have returned |
| `JsonRpc.CallGetsItsAnswer` | src/jsonrpc.cpp:22-64 | what a call returns is the last answer to its own id handled while it waited, or null |
| `JsonRpc.CallReturnsItsMessage` | src/jsonrpc.cpp:22-101 | call c returns the result of the last message whose id is c + 1 (as a signed 32-bit number) among those handled while it waited, or null if there is none; only calls 0x7FFF_FFFE and 0xFFFF_FFFF never get an answer |
| `JsonRpc.LatestAnswerIsAnAnswer` | src/jsonrpc.cpp:72-93 | that answer is null or the result of a message which carries the id |
| `JsonRpc.IdsAreNotReused` | src/jsonrpc.cpp:10-32 | no two calls of a run of up to 2^32 calls share an id |
| `JsonRpc.RepliesTouchOnlyTheirCall` | src/jsonrpc.cpp:72-101 | a message sets the entry of its own id and changes no other; one without id, with id zero or with the health id 2147483647 changes none |
| `JsonRpc.LateReplyTouchesNothing` | src/jsonrpc.cpp:59-101 | a reply to a call that has returned changes no entry |
| `JsonRpc.RunKeepsObservers` | src/jsonrpc.cpp:65-134 | every consumer thread has its observer until unsubscribeWs erases it, all updates of an id go to that one observer, and only an erased observer can be missed |
| `JsonRpc.RunKeepsSubscriptions` | src/jsonrpc.cpp:65-115 | received by the registered observer, in hand and queued updates of an id, in this order, are all updates that arrived for it |
| `JsonRpc.ObserverSeesAPrefix` | src/jsonrpc.cpp:65-115 | until its observer is erased a subscription has delivered to it, and to no other, a prefix of the arrived updates, at most 128 behind |
| `JsonRpc.DeliveriesStayAPrefix` | src/jsonrpc.cpp:65-134 | what any observer was handed is a prefix of the arrived updates in every state, after the end of the subscription too |
| `JsonRpc.LeftoverMeetsNull` | src/jsonrpc.cpp:65-70 | a consumer whose observer is erased and that has an update, in hand or queued, can hand it to a missing observer |
| `JsonRpc.IdleMeetsNoNull` | src/jsonrpc.cpp:65-70 | one that has none, and gets none, never does, whatever else happens |
| `JsonRpc.NullCallIffLeftover` | src/jsonrpc.cpp:117-134 | right after the observer is erased, a null call without a further update for the id is possible if and only if an update is in hand or queued |
| `JsonRpc.LateUpdateMeetsNull` | src/jsonrpc.cpp:72-98 | with a further update before the consumer ends it is always possible |
| `JsonRpc.CarefulRunsMeetNoNull` | src/jsonrpc.cpp:117-134 | a run that erases observers only of idle consumers, and gets no update for a consumer without one, never makes a null call |
| `JsonRpc.NullCallRun` | src/jsonrpc.cpp:65-134 | a concrete run of one subscription and one update that makes a null call |
| `JsonRpc.QueueBounded` | src/jsonrpc.cpp:3-8 | no update queue ever holds more than 127 messages |
| `JsonRpc.QueueRunIsAllowed` | src/jsonrpc.cpp:65-98 | every run of the concurrent queue of size 128, seen through its writes and reads, takes only steps the protocol model allows and leaves the same queues |
| `JsonRpc.CJsonRpc.constructor` | src/jsonrpc.cpp:3-8 | all tables start empty |
| `JsonRpc.CJsonRpc.GetNextId` | src/jsonrpc.cpp:10 | the unsigned counter goes up by one and its int value is returned |
| `JsonRpc.CJsonRpc.BeginRequest` | src/jsonrpc.cpp:22-33 | a new id with an empty entry; nothing else changes |
| `JsonRpc.CJsonRpc.EndRequest` | src/jsonrpc.cpp:59-63 | the stored result is returned and the entry removed |
| `JsonRpc.CJsonRpc.Dispatch` | src/jsonrpc.cpp:72-101 | a message is routed to its query entry, its update queue, or nowhere |
| `JsonRpc.CJsonRpc.Register` | src/jsonrpc.cpp:103-115 | the observer is entered under the subscription id of the response |
| `JsonRpc.CJsonRpc.Unregister` | src/jsonrpc.cpp:126-128 | only the observer of that id is erased; the queue stays |
| `Subscriptions.RunRefines` | src/application.cpp:830-1135 | after every honest history the slots and maps equal a per-owner reference, and id and callback tables have the same keys |
| `Subscriptions.GuardsFollowEntries` | src/application.cpp:962-1135 | the tests in front of subscribeWs and unsubscribeWs are true exactly when the reference has no entry, or has one |
| `Subscriptions.EntriesAreOpen` | src/application.cpp:962-1135 | the id of every entry is live on the server |
| `Subscriptions.OpenIdsAreDisjoint` | src/application.cpp:962-1135 | no server subscription is live for two owners |
| `Subscriptions.OpenIsTheEntry` | src/application.cpp:962-1135 | without an overlapping submission the entry is the one live subscription of its owner; for owners that can unsubscribe, always |
| `Subscriptions.OverlapLeavesTwo` | src/application.cpp:1415-1416 | a transfer or extrinsic submitted while the entry is set leaves two live subscriptions |
| `Subscriptions.AtMostOneOpen` | src/application.cpp:962-1416 | an owner has at most one live server subscription at every moment if and only if it never submits, without a guard, while it has an entry |
| `Subscriptions.ExtrinsicsStayOpen` | src/application.cpp:1238-1240 | live extrinsic subscriptions number exactly the submissions |
| `Subscriptions.LostUpdateCallsNobody` | src/application.cpp:830-960 | an update for a live id calls its owner's callback, under those conditions, if the entry still holds that id, and otherwise nobody |
| `Subscriptions.FirstTransferIsLost` | src/application.cpp:1415-1416 | two transfers in a row: both ids live, and no update of the first calls anybody |
| `Subscriptions.OwnersHaveDistinctIds` | src/application.cpp:962-1135 | no two owners ever hold the same server id |
| `Subscriptions.EntriesUseHandedOutIds` | src/application.cpp:962-1135 | entries hold only ids the server handed out |
| `Subscriptions.OwnerOfIsOwner` | src/application.cpp:830-960 | the chain of tests finds the owner of an id if and only if there is one, except an era update before the first block number |
| `Subscriptions.UpdateKeepsRefinement` | src/application.cpp:830-960 | an update changes only what the reference says: the block number, and a finalized transfer's entry |
| `Subscriptions.SubscribeKeepsRefinement` | src/application.cpp:962-1135 | subscribing and unsubscribing change only what the reference says, for every owner |
| `Subscriptions.CalledIff` | src/application.cpp:830-960 | the same in any state that agrees with the history |
| `Subscriptions.UpdateCallsTheLatest` | src/application.cpp:830-960 | a callback is called if and only if it is the latest registered for the owner of the id; a transfer update must be ready or finalized, an era update must find a block number and, in session mode, be complete; nothing else is asked |
| `Subscriptions.BestBlockIsTheLastHead` | src/application.cpp:833-836 | after any history the best block is the number of the last new-heads update that went to the function era and session registered, or -1 |
| `Subscriptions.StaysGone` | src/application.cpp:962-1135 | an entry that is gone stays away until its owner subscribes again |
| `Subscriptions.SilentAfterTheEnd` | src/application.cpp:860-872 | no callback of an owner is called after it unsubscribed, nor a transfer's after "finalized" |
| `Subscriptions.CPolkaApi.constructor` | src/application.cpp:10-15 | no subscription, no block number |
| `Subscriptions.CPolkaApi.SubscribeBlockNumber` | src/application.cpp:962-972 | the callback is replaced; a server subscription is opened exactly if there is none |
| `Subscriptions.CPolkaApi.SubscribeEraAndSession` | src/application.cpp:974-997 | era and the new-heads slot it depends on are both set, each opened exactly if there was none |
| `Subscriptions.CPolkaApi.UnsubscribeEraAndSession` | src/application.cpp:999-1007 | both are cleared and exactly their ids given back |
| `Subscriptions.CPolkaApi.UnsubscribeBlockNumber` | src/application.cpp:1009-1016 | id and callback are cleared together and the id given back |
| `Subscriptions.CPolkaApi.SubscribeTransfer` | src/application.cpp:1415-1416 | callback and id are overwritten without a test |
| `Subscriptions.CPolkaApi.SubscribeExtrinsic` | src/application.cpp:1238-1240 | callback and id are overwritten without a test |
| `Subscriptions.CPolkaApi.SubscribeBalance` | src/application.cpp:1018-1033 | the entry of that address only, opened exactly if there was none |
| `Subscriptions.CPolkaApi.UnsubscribeBalance` | src/application.cpp:1035-1042 | the entry of that address only, with its id given back |
| `Subscriptions.CPolkaApi.FindKey` | src/application.cpp:838-852 | a key whose id matches, or none if no id does |
| `Subscriptions.CPolkaApi.HandleWsMessage` | src/application.cpp:830-960 | a callback is called exactly if it is the latest of the owner of the id, under the same conditions, and the new state is the specified one |
| `Subscriptions.CPolkaApi.Route` | src/application.cpp:830-960 | the chain of tests and loops calls the callback the specification names |
| `Scale.StoulByteCases` | src/scale.cpp:30-35 | what stoul makes of any two characters: two digits, one digit after white space, a sign or before anything else, or an exception |
| `Scale.HexDigitIs` | src/application.cpp:1405-1410 | the digits are those of the two usual alphabets |
| `Scale.NextByteOfHex` | src/scale.cpp:30-35 | a byte written as two hex digits is read back, the rest untouched |
| `Scale.NextBytesOfHex` | src/scale.cpp:37-45 | the same for any number of bytes |
| `Scale.NextBytesSpelled` | src/scale.cpp:37-45 | the same for digits of mixed case |
| `Scale.NextBytesConsumes` | src/scale.cpp:37-45 | on any text, reading n bytes fails or leaves a suffix at an even offset, n bytes on |
| `Scale.DecodeCompactConsumes` | src/scale.cpp:47-99 | on any text the decoder fails or leaves a suffix at an even offset, at least one byte on |
| `Scale.DecodeCompactOfCompact` | src/scale.cpp:47-99 | every compact encoding of the SCALE codec is read as its number modulo 2^64, with the stream after it untouched |
| `Scale.DecodeSpelled` | src/scale.cpp:47-99 | whatever the case of its digits, a compact form is read as the number it denotes, the stream after it untouched |
| `Scale.EncodeIsCompact` | src/scale.cpp:101-133 | the encoder produces the SCALE encoding if and only if n <= 0xFFF or 0x4000 <= n < 2^56 |
| `Scale.EncodeInTheGap` | src/scale.cpp:109-112 | in two-byte mode what is read back is n modulo 0x1000 |
| `Scale.CompactRoundTrip` | src/scale.cpp:47-133 | encode and decode give n and the following stream back on exactly those n |
| `Scale.Stream.Next` | src/scale.cpp:30-35 | fails exactly where specified; otherwise byte and remaining stream as specified |
| `Scale.Stream.NextMany` | src/scale.cpp:37-45 | the reading loop equals the specified read |
| `Scale.Stream.DecodeCompactInteger` | src/scale.cpp:47-99 | the in-place decoder equals the specified one, failures included |
| `Scale.SumThree` | src/scale.cpp:67-77 | the multiplier loop adds 256 times the little-endian value of the three bytes |
| `Scale.SumBytes` | src/scale.cpp:79-92 | the 64-bit loop sums to the little-endian value modulo 2^64, for any number of bytes |
| `Scale.EncodeFour` | src/scale.cpp:113-120 | the four bytes of the mode |
| `Scale.FillBytes` | src/scale.cpp:122-128 | the byte loop writes the minimal little-endian bytes, and fits exactly if there are at most seven |
| `Scale.EncodeBig` | src/scale.cpp:121-130 | big-integer mode as specified, overrun included |
| `Scale.EncodeCompactInteger` | src/scale.cpp:101-133 | all modes as specified |
| `Extrinsics.TransferLengthIsRight` | src/structs/transfer.h:33-76 | the length field of a transfer is the number of bytes after it |
| `Extrinsics.SubmitLengthIsRight` | src/application.cpp:1295 | the same for submitExtrinsic |
| `Extrinsics.SubmitAndSubscribeLengthIsRight` | src/application.cpp:1190 | for submitAndSubcribeExtrinsic it is so if and only if the nonce is at most 63 |
| `Extrinsics.PayloadHoldsTheMethod` | src/structs/signaturepayload.h:15-41 | the signed payload holds the whole method if and only if it has at most 255 bytes |
| `Extrinsics.FromHexByteSpelled` | src/utils/converters.cpp:3-22 | two digits, each in either case, give their byte |
| `Extrinsics.FromHexSpelled` | src/utils/converters.cpp:86-113 | the hex text of bytes, in digits of either case, gives the bytes |
| `Extrinsics.CompactFieldSpelled` | src/application.cpp:729-730 | a nonce field is read as the nonce, or modulo 0x1000 where the encoder loses bits |
| `Extrinsics.ParseSignatureText` | src/application.cpp:716-738 | version, signer, signature, nonce and era are read from their text, in digits of either case |
| `Extrinsics.ParseSent` | src/application.cpp:705-761 | parsing the hex text of any sent extrinsic, in digits of either case, gives back all its fields, the signer's address and the method bytes |
| `Extrinsics.ArgumentsRead` | src/structs/transfer.h:10-31 | the method bytes of a transfer hold 0xFF, the receiver and the amount, modulo 0x1000 where the encoder loses bits, and nothing else |
| `Extrinsics.OverrunIff` | src/scale.cpp:121-130 | a 128-bit number overruns its eight bytes if and only if it reaches 2^56 |
| `Extrinsics.TransferRoundTrip` | src/application.cpp:705-761 | for every 128-bit amount and nonce a transfer overruns exactly from 2^56 on; otherwise its hex text, in digits of either case, is parsed into the same fields and receiver, its length counts the bytes after it, and amount and nonce come back if and only if encodable |
| `Extrinsics.SubmitRoundTrip` | src/application.cpp:1243-1347 | the same for an extrinsic of submitExtrinsic, for every nonce, with 0xFF and the given bytes as method bytes |
| `Extrinsics.PendingExtrinsics` | src/application.cpp:705-761 | every element is counted, the first bufferSize are parsed, and one that throws makes the call throw |
| `Extrinsics.ParseFirst` | src/application.cpp:710-757 | the counting loop over any element parser |
| `Extrinsics.Append` | src/scale.cpp:135-139 | bytes go right after what was written, which stays |
| `Extrinsics.AppendCompact` | src/scale.cpp:135-139 | the compact form of a number goes right after what was written |
| `Extrinsics.SerializeMethodBinary` | src/structs/transfer.h:10-31 | the buffer holds the method layout after what was there |
| `Extrinsics.SerializeSignature` | src/structs/transfer.h:52-70 | the buffer holds the signature layout after what was there |
| `Extrinsics.TransferLengthSum` | src/structs/transfer.h:34-41 | the computed sum is the specified length |
| `Extrinsics.SerializeFitting` | src/structs/transfer.h:44-76 | the buffer holds length, signature and method of the transfer |
| `Extrinsics.SerializeBinary` | src/structs/transfer.h:33-76 | nothing exactly where the amount or the nonce overruns, else the bytes of the transfer |
| `Extrinsics.SerializePayload` | src/structs/signaturepayload.h:22-41 | the buffer holds nonce, method, era and block hash |
| `Extrinsics.SignAndSendTransfer` | src/application.cpp:1359-1417 | nothing exactly where the amount or the nonce overruns; else the sent text byte by byte: length, 0x81, 0xFF, sender, signature, nonce, era, method; and what is signed is that nonce, method and era with the genesis hash |
| `Extrinsics.HexText` | src/application.cpp:1405-1410 | the printed text is 0x and two upper-case digits per byte |
| `MetadataV7.FillV7Consumes` | src/metadatafactory.cpp:819-887 | on any text the parser fails or leaves a suffix at an even offset, having read at least six bytes and one per module |
| `MetadataV7.ManyConsumes` | src/metadatafactory.cpp:829-884 | a count loop of n rounds reads at least n bytes, so it cannot run on without input |
| `MetadataV7.CountedConsumes` | src/metadatafactory.cpp:852-874 | a counted list reads at least its count and one byte per element |
| `MetadataV7.GetStorageConsumes` | src/structs/metadataV7.cpp:3-59 | a storage item reads at least one byte |
| `MetadataV7.GetCallConsumes` | src/structs/metadataV7.cpp:61-90 | a call reads at least one byte |
| `MetadataV7.GetEventConsumes` | src/structs/metadataV7.cpp:92-115 | an event reads at least one byte |
| `MetadataV7.GetConstConsumes` | src/structs/metadataV7.cpp:117-144 | a constant reads at least one byte |
| `MetadataV7.GetModuleConsumes` | src/metadatafactory.cpp:829-884 | a module reads at least one byte |
| `MetadataV7.ListReads` | src/metadatafactory.cpp:852-874 | a counted list of encoded elements is read element by element, the text after it untouched |
| `MetadataV7.DocsRead` | src/structs/metadataV7.cpp:50-56 | documentation lines are read back, cut at a NUL |
| `MetadataV7.RawReads` | src/structs/metadataV7.cpp:44-48 | fallback and constant values are kept as their raw hex |
| `MetadataV7.KindReads` | src/structs/metadataV7.cpp:10-41 | plain, map and double-map types are read with hasher, key, value and linked flag |
| `MetadataV7.StorageReads` | src/structs/metadataV7.cpp:3-59 | every encoded storage item is read back in the fields the struct keeps |
| `MetadataV7.CallReads` | src/structs/metadataV7.cpp:61-90 | every encoded call is read back |
| `MetadataV7.EventReads` | src/structs/metadataV7.cpp:92-115 | every encoded event is read back |
| `MetadataV7.ConstReads` | src/structs/metadataV7.cpp:117-144 | every encoded constant is read back |
| `MetadataV7.ModuleReads` | src/metadatafactory.cpp:829-884 | every encoded module is read back, absent sections included |
| `MetadataV7.MetadataRoundTrip` | src/metadatafactory.cpp:819-887 | parsing the SCALE encoding of any V7 metadata, followed by any text, recovers every field that is kept and leaves exactly that text |
| `MetadataV7.MetadataComesBack` | src/metadatafactory.cpp:819-887 | if no text holds a zero byte, every parsed name, prefix, key, value type, argument and documentation line equals the one in the definition |
| `MetadataV7.ManyStep` | src/metadatafactory.cpp:829-884 | one round more of a count loop appends one element, and a round that throws makes the loop throw |
| `MetadataV7.UpToNul` | src/structs/metadataV7.cpp:8 | strcpy keeps the longest beginning without a zero byte |
| `MetadataV7.ReadText` | src/structs/metadataV7.cpp:7-8 | length, bytes and strcpy as specified |
| `MetadataV7.ReadDocs` | src/structs/metadataV7.cpp:50-56 | the documentation loop as specified |
| `MetadataV7.ReadMapValue` | src/structs/metadataV7.cpp:20-37 | the value of a map, and of a double map after its second key |
| `MetadataV7.ReadStorageType` | src/structs/metadataV7.cpp:10-41 | kind, hasher, key, value and flag as specified |
| `MetadataV7.ReadFallback` | src/structs/metadataV7.cpp:44-48 | the two substr calls, a position past the end failing |
| `MetadataV7.ReadValue` | src/structs/metadataV7.cpp:129-133 | the same with an int length |
| `MetadataV7.GetStorageV7` | src/structs/metadataV7.cpp:3-59 | the in-place parser returns, fails and leaves the stream as the specified one |
| `MetadataV7.ReadArg` | src/structs/metadataV7.cpp:71-78 | one argument, likewise |
| `MetadataV7.ReadArgs` | src/structs/metadataV7.cpp:68-79 | the argument loop, likewise |
| `MetadataV7.GetCallV7` | src/structs/metadataV7.cpp:61-90 | a call, likewise |
| `MetadataV7.ReadArgTypes` | src/structs/metadataV7.cpp:99-104 | the event argument loop, likewise |
| `MetadataV7.GetEventV7` | src/structs/metadataV7.cpp:92-115 | an event, likewise |
| `MetadataV7.GetConstsV7` | src/structs/metadataV7.cpp:117-144 | a constant, likewise |
| `MetadataV7.ReadStorageItems` | src/metadatafactory.cpp:851-855 | the storage loop, likewise |
| `MetadataV7.ReadCalls` | src/metadatafactory.cpp:861-866 | the call loop, likewise |
| `MetadataV7.ReadEvents` | src/metadatafactory.cpp:870-875 | the event loop, likewise |
| `MetadataV7.ReadConsts` | src/metadatafactory.cpp:878-883 | the constant loop, likewise |
| `MetadataV7.ReadStorageSection` | src/metadatafactory.cpp:839-856 | an optional storage section, likewise |
| `MetadataV7.ReadModule` | src/metadatafactory.cpp:829-884 | a module, likewise |
| `MetadataV7.FillV7Metadata` | src/metadatafactory.cpp:819-887 | the whole parser: modules, failure and remaining stream are the specified ones |
| `ModuleIndex.GetModuleIndex` | src/application.cpp:129-167 | without skipping, the slot of the first case-insensitive match, and -1 exactly if there is none; with skipping, less the modules without calls up to it |
| `ModuleIndex.MinusOneIff` | src/application.cpp:129-167 | with skipping, a module that is found gets -1 if and only if it and every slot before it is a module without calls |
| `ModuleIndex.LowerIgnoresCase` | src/application.cpp:90-94 | lowered names are equal if and only if the names agree letter by letter up to the case of A to Z |
| `ModuleIndex.AnswerCounts` | src/application.cpp:129-167 | skipping computes the callable modules and nameless slots before the match, less one if it has no calls |
| `ModuleIndex.CallIndexIffContiguous` | src/application.cpp:129-167 | for a module with calls it is the number of earlier modules with calls if and only if no nameless slot precedes it |
| `ModuleIndex.NameFindsItsSlot` | src/application.cpp:129-167 | with distinct names each name finds its own slot |
| `ModuleIndex.AnswersKeepOrder` | src/application.cpp:129-167 | later modules get no smaller answer, and the same one if and only if no module with calls lies after the first up to the second |
| `ModuleIndex.EveryCallIndexIsTaken` | src/application.cpp:129-167 | every index below the number of callable modules is some callable module's answer |
| `ModuleIndex.CallIndexIsABijection` | src/application.cpp:129-167 | over well-named metadata the answers map the callable modules in order, one to one, onto 0..k-1 |
| `ModuleIndex.CallIndexOfEncodedMetadata` | src/application.cpp:129-167 | from the encoding of V7 metadata with distinct names to the index: parsing and searching finds each module with calls at the number of earlier modules with calls |
| `EraProgress.EpochFields` | src/application.cpp:875-885 | in epoch mode nothing is reported exactly while no block number is known, and missing fields count as zero |
| `EraProgress.EpochEraStart` | src/application.cpp:887-889 | era progress counts slots from the first slot of the reported epoch's era |
| `EraProgress.EpochEraProgress` | src/application.cpp:887-894 | it is (slot - genesis) mod era length, and in range, if and only if the slot lies in that era |
| `EraProgress.EpochSessionProgress` | src/application.cpp:887-888 | epoch progress is (slot - genesis) mod epoch length, and in range, if and only if the slot lies in the reported epoch |
| `EraProgress.CurrentEpoch` | src/application.cpp:887-898 | when the slot lies in the reported epoch both are right and in range |
| `EraProgress.SessionProgress` | src/application.cpp:901-928 | an update is reported exactly if all fields are there and positive and a block number is known; then session progress is (best - last change) mod length, less one length unless best + length >= last change or the distance is a whole number of sessions, era progress adds the sessions before, and both have exact range conditions |

## Left out

- Base58Text.EncodeBase58: the scratch size is a parameter, because the source allocates one digit too few for an address payload (`Ss58.PayloadDigits`); `Ss58.GetAddrFromPublicKey` uses a size that is always enough.
- Base58Text.DecodeBase58: for a character from 128 on the source reads outside its table; the model stops there.
- Ss58.GetPublicKeyFromText: for a text of fewer than 47 characters the source reads past its end, and for the texts of `Ss58.OverrunThreshold` it writes past its array; the model stops there and says which.
- Blake2b.Hash: the compression function is any function of chaining value, counter, flags and block, so its rounds are not modelled; null pointers and wiping of memory are not modelled.
- DecimalText.Atoi128: more than 255 digits overrun the scratch array and are excluded.
- DecimalText.FormatDecimal: hexadecimal and octal output, stream padding and conversions from floating point are not modelled.
- MapQueue.RunKeepsInv: erasing a key and the lifetime of its semaphores are not modelled. Threads are counted per program point, not named. Each of wait pass, write, read and notify is one atomic step although the maps are not always accessed under a lock.
- JsonRpc.CallGetsItsAnswer: request start, request completion and handling of a message are each one atomic step. A request that finds no connection starts and throws, and its entry stays.
- JsonRpc.ObserverSeesAPrefix: a message is taken to be either a response or a notification, as in JSON-RPC 2.0; JSON text is not parsed. The server hands out no id other than zero that has a consumer or has been ended.
- JsonRpc.RunKeepsObservers: erasing a key ends a consumer that has nothing to do and leaves another one running; that its semaphores are deleted under a running thread is not modelled.
- JsonRpc.QueueRunIsAllowed: the projection shows writes and reads as atomic steps on the queue; the waits around them are those of `MapQueue`.
- Subscriptions.RunRefines: subscribe, unsubscribe and dispatch are each one atomic step, whereas in the source the callback is set before the blocking request and the id is stored after the consumer thread has started. The server hands out nonzero ids, none twice, and every subscribe request succeeds; all ids start at zero, whereas the constructor of the source sets only two of them.
- Subscriptions.CPolkaApi.SubscribeBalance: the nonce and storage pairs repeat the balance pair, and the finalized-block and runtime-version pairs repeat the block-number pair; the value-level functions and lemmas cover all of them, the class methods only these.
- Subscriptions.AtMostOneOpen: the server is taken to end a transfer with its finalized update, as the source does; the end of a watched extrinsic is unknown to the client and not modelled.
- Subscriptions.CPolkaApi.HandleWsMessage: the decoded content of an update is not modelled beyond what decides whether a callback runs.
- Extrinsics.SerializeMethodBinary: amounts from 2^56 on are excluded here, and in SerializePayload such nonces; the operations that call them stop before, where the source writes past the eight bytes.
- Extrinsics.PendingExtrinsics: a field that itself starts with the characters 0x is cut short by the hex reader; the model fails there.
- Extrinsics.SignAndSendTransfer: looking up indices and nonce over the network is left out; sr25519 signing is any function.
- MetadataV7.MetadataRoundTrip: lengths and counts are below 2^30, the largest for which a constant's value length, doubled, fits an int. Capacities of the fixed-size arrays are not modelled; fields are sequences. The kind of a storage entry and the second key of a double map are not recovered, since the structs do not keep them.
- MetadataV7.FillV7Metadata: the int loop counters of documentation and constant loops are unbounded here.
- EraProgress.EpochEraProgress: overflow of 64-bit products is not modelled; epoch duration and sessions per era are positive.
- Metadata of versions 0, 4, 5 and 6 repeats the shape of version 7.
- The scalar form of the hex reader beyond one byte, storage keys and hashers, XXH64 and the JSON deserializers of blocks, versions and peers are field copies or foreign code.
- Web socket, TLS, logging and configuration are not part of this model.
