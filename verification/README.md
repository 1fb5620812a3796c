# Verified model of the hasher, the codec and the worker pool

A Dafny 4.11 model of three components of the game server and its client, with proofs of what
they promise. `dafny verify dfyconfig.toml` checks the whole project.

**The SHA-256 context** (`DummyClient/sha256.h`). An object that is fed bytes in any pieces keeps a
64-byte buffer, the message length in two 32-bit halves with a hand-made carry, the chaining value
and two flags, `computed_` and `corrupted_`. The class `Sha256` has the same fields and the same
methods, and its arrays are updated in place. It is proved against FIPS 180-4 as written down in
`Fips180.dfy`: on bit strings, for whole messages, without reference to the program. That text is itself
held to the primes its constants come from, to arithmetic and single bits, and to the standard's example. The class's
ghost field `session` says what an object stands for: a message still being fed, a finished bit
string, or an object that gives no digest. `Sha256Runs.dfy` then speaks about every list of calls:
whatever the calls, the caller's buffer ends with the standard's digest of exactly the bits that
were finished at the last call that wrote one, or as it was if none did.

**The base64 codec** (`DummyClient/base64.h`, `DummyClient/base64.cpp`). The encoder and both
decoders are loops proved against one definition by bits: bytes are groups of eight, sextets groups
of six, and the decoder accepts sextets by a flat rule that reads one character at a time. The
tables are modelled as they stand. They disagree on 63: the encoder writes `_`, which the decoder
skips, where RFC 4648 and the decoder have `/`. So decoding does not undo encoding on all byte
strings. It does so exactly when no six-bit group is 63 (`RoundTripIff`; `RoundTripFails` gives three
bytes that come back as none), the decoder does undo the standard's encoding on all of them, and the
encoder is injective on all of them. Both alphabets are stated by ranges of characters, apart from
the tables.

**The worker pool** (`digital_content_game/ThreadPool.h`). Workers, calls of `enqueue` and the
destructor are threads that move one statement at a time. The mutex is explicit, a sleeping worker
may wake without a notification at any time, and a call notifies after it has released the mutex.
Any number of calls may be under way, and every theorem is about every interleaving. `PoolObject`
is the same pool as an object whose fields the threads update in place; each of its methods is one
statement of one thread and makes exactly the step of the transition system. Seen from outside
the pool refines a plain FIFO queue, and the tasks it completes are traced back to the arguments of
the calls of `enqueue` in the run.

## Files

| file | contents |
|---|---|
| `Bits.dfy` | bit strings, and bytes and numbers as bits |
| `Fips180.dfy`, `Fips180Constants.dfy` | the standard, and its constants from the primes |
| `Fips180Functions.dfy` | its sums by arithmetic and its functions bit by bit |
| `Fips180Example.dfy`, `Sha256Example.dfy` | the standard's example "abc", from the message to the digest |
| `Sha256Block.dfy`, `Sha256Padding.dfy` | the program's word forms, padding and blocks, against the standard |
| `Sha256Context.dfy`, `Sha256Runs.dfy` | the object, and all lists of calls on it |
| `Base64Tables.dfy`, `Base64Spec.dfy`, `Base64Bits.dfy` | tables, the definition by bits, shifts and masks |
| `Base64Encode.dfy`, `Base64Decode.dfy`, `Base64Theorems.dfy` | the three loops, and encoding against decoding |
| `HashBase64.dfy` | the hash in base64 |
| `ThreadPool.dfy`, `ThreadPoolObject.dfy` | the pool as a transition system and as an object |
| `ThreadPoolInvariant.dfy`, `ThreadPoolTheorems.dfy` | what every step keeps, and what follows in every reachable state |
| `ThreadPoolShutdown.dfy`, `ThreadPoolProgress.dfy` | termination after stop, and completion of every task without it |
| `ThreadPoolCalls.dfy` | whole runs by the tasks the callers gave |
| `ThreadPoolOperations.dfy` | each operation by itself |
| `ThreadPoolRefinement.dfy` | the pool as a FIFO queue |

## Model

| member | source | states |
|---|---|---|
| Sha256Runs.Perform | DummyClient/sha256.h:95-263 | driving an object through any list of input, final_bits, result and reset calls, from any valid state, leaves the digest buffer holding the FIPS 180-4 digest of the bits finished at the last call that wrote, or untouched, and nothing past its first 32 bytes is ever written |
| Sha256Runs.AnySplitFinishes | DummyClient/sha256.h:132-144 | a fresh object fed a message cut in any pieces and then asked has finished exactly that message, and the buffer shows its digest, if the message is shorter than 2^61 bytes; otherwise the object is corrupted and the buffer untouched |
| Sha256Runs.AnySplitFinishesBits | DummyClient/sha256.h:146-174 | the same for a message followed by the top k bits of one more byte, k from 1 to 7 |
| Sha256Runs.SplitInput | DummyClient/sha256.h:132-144 | cutting one input call in two, anywhere in any list of calls and from any state, changes nothing |
| Sha256Runs.FinishedStays | DummyClient/sha256.h:132-216 | once computed, later inputs, results and empty final bits leave what is finished as it is, and each result among them writes the same digest again |
| Sha256Runs.CorruptedStays | DummyClient/sha256.h:165-180 | corruption survives every call but reset, and nothing is written |
| Sha256Runs.WrongBitsCorrupt | DummyClient/sha256.h:165-169 | final bits after the end, or eight or more at any time, corrupt the object; without a reset it stays so and writes nothing, whatever is called |
| Sha256Runs.BitsAfterResult | DummyClient/sha256.h:165-180 | in a whole run: a message in any pieces, its result, then any bits: the buffer keeps the digest of the message and later results leave it alone |
| Sha256Runs.TooManyBits | DummyClient/sha256.h:165-180 | in a whole run: a message in any pieces, then eight bits or more: the buffer is never written |
| Sha256Runs.NoBitsChangeNothing | DummyClient/sha256.h:162-163 | final bits of length 0 may be left out anywhere in any list of calls |
| Sha256Runs.ResetForgets | DummyClient/sha256.h:114-130 | nothing before a reset matters to what follows it |
| Sha256Runs.DigestIsUnique | DummyClient/sha256.h:184-215 | a bit string has only one digest, so what is written is fixed in every bit |
| Sha256Context.Sha256.constructor | DummyClient/sha256.h:95-110 | a new object stands for the empty message, whatever bytes its buffer starts with |
| Sha256Context.Sha256.Reset | DummyClient/sha256.h:114-130 | from any valid state, back to the empty message |
| Sha256Context.Sha256.AddLength | DummyClient/sha256.h:48-51 | the two 32-bit halves are one 64-bit length: their sum wraps at 2^64, and the flag reports and stores exactly that |
| Sha256Context.Sha256.InputByte | DummyClient/sha256.h:138-143 | one byte: the length stays eight times the bytes fed, the index stays the byte count mod 64, the chaining value stays the fold over the whole blocks, and the object is corrupted exactly when 2^64 bits are reached |
| Sha256Context.Sha256.Input | DummyClient/sha256.h:132-144 | any bytes at once: appended to the message, or corrupted if it gets too long, or ignored if the object is finished or corrupted |
| Sha256Context.Sha256.FinalBits | DummyClient/sha256.h:146-174 | finishes the message with the top bits of a byte; a length of 0 does nothing; the object is corrupted afterwards exactly if it was, or if the length is not 0 and it was computed or the length is 8 or more; the added bits never overflow the length |
| Sha256Context.Sha256.Result | DummyClient/sha256.h:176-216 | finishes a message still being fed and writes the digest FIPS 180-4 defines, most significant byte first; a corrupted object leaves the buffer as it was |
| Sha256Context.Sha256.WriteDigest | DummyClient/sha256.h:184-215 | the 32 bytes parse back to the eight words of the chaining value |
| Sha256Context.Sha256.PadMessage | DummyClient/sha256.h:227-252 | one or two more blocks: the chaining value becomes the fold over the message, the pad byte, zeros and the length, and the number of compressions grows by one, or by two if the pad byte falls in the last eight bytes |
| Sha256Context.Sha256.SpillBlock | DummyClient/sha256.h:229-234 | the block that has no room for the length is filled with zeros and compressed |
| Sha256Context.Sha256.FinishBlock | DummyClient/sha256.h:239-251 | zeros and the length complete the last block, which is compressed |
| Sha256Context.Sha256.StoreLength | DummyClient/sha256.h:242-249 | the last eight bytes are the 64-bit length, most significant byte first |
| Sha256Context.Sha256.Finalize | DummyClient/sha256.h:254-263 | the object is finished with the bit string fed and its tail: chaining value the standard's hash, buffer and length wiped, compressions counted |
| Sha256Context.Sha256.MessageSchedule | DummyClient/sha256.h:286-397 | the 64 words are those of the standard's recursive schedule for the block in the buffer |
| Sha256Context.Sha256.LoadBlock | DummyClient/sha256.h:286-349 | the first sixteen words are the block, big-endian |
| Sha256Context.Sha256.RunRounds | DummyClient/sha256.h:399-1047 | the eight variables, shifted in place, are the standard's working variables after 64 rounds |
| Sha256Context.Sha256.AddToHash | DummyClient/sha256.h:1049-1056 | each variable is added to its own word of the chaining value |
| Sha256Context.Sha256.ProcessMessageBlock | DummyClient/sha256.h:265-1059 | one compression of section 6.2.2 for every chaining value and block, and the index back to 0 |
| Sha256Context.HashBytes | DummyClient/sha256.h:65-70 | the one-call hash writes the standard's digest of its input |
| Sha256Block.BigSigma0IsFips | DummyClient/sha256.h:39-40 | SIGMA0 is the standard's function on all words |
| Sha256Block.BigSigma1IsFips | DummyClient/sha256.h:41-42 | SIGMA1 is the standard's function on all words |
| Sha256Block.SmallSigma0IsFips | DummyClient/sha256.h:43-44 | sigma0 is the standard's function on all words |
| Sha256Block.SmallSigma1IsFips | DummyClient/sha256.h:45-46 | sigma1 is the standard's function on all words |
| Sha256Block.ChIsFips | DummyClient/sha256.h:53 | the rewritten CH is the standard's on all words |
| Sha256Block.MajIsFips | DummyClient/sha256.h:54 | the rewritten MAJ is the standard's on all words |
| Sha256Block.RoundIsFips | DummyClient/sha256.h:408-417 | the two temporaries and the shuffle of eight variables are one round of the standard |
| Fips180Functions.Sum2IsModular | DummyClient/sha256.h:409-417 | the sum of two words is the sum of both, modulo 2^32, in 64-bit arithmetic |
| Fips180Functions.Sum4IsModular | DummyClient/sha256.h:350-397 | the sum of a schedule word is that of all four of its terms, modulo 2^32 |
| Fips180Functions.Sum5IsModular | DummyClient/sha256.h:408 | the sum of a round is that of all five of its terms, message word included, modulo 2^32 |
| Fips180Functions.ChChooses | DummyClient/sha256.h:53 | in every place Ch has the bit of y where x has a one, and the bit of z elsewhere |
| Fips180Functions.MajIsMajority | DummyClient/sha256.h:54 | in every place Maj has a one where at least two of its arguments do |
| Fips180Functions.BigSigma0Bit | DummyClient/sha256.h:39-40 | every bit of SIGMA0 is the sum modulo 2 of the bits 2, 13 and 22 places further up, round the end |
| Fips180Functions.BigSigma1Bit | DummyClient/sha256.h:41-42 | the same for SIGMA1 with 6, 11 and 25 |
| Fips180Functions.SmallSigma0Bit | DummyClient/sha256.h:43-44 | the same for sigma0 with 7 and 18, and 3 off the end |
| Fips180Functions.SmallSigma1Bit | DummyClient/sha256.h:45-46 | the same for sigma1 with 17 and 19, and 10 off the end |
| Fips180Functions.PaddingShape | DummyClient/sha256.h:227-252 | what the standard appends is a one, zeros, and 64 bits that write the length, for every length it allows |
| Fips180Example.HashOfAbc | DummyClient/sha256.h:265-1059 | the definitions give the hash value of the standard's example "abc", through all of its schedule and its 64 rounds |
| Sha256Example.DigestOfAbc | DummyClient/sha256.h:184-215 | the 32 bytes of that value in their order, and no others, are the digest of "abc" |
| Sha256Block.ScheduleStep | DummyClient/sha256.h:350-397 | the program's expression for one schedule word is the standard's |
| Fips180Constants.RoundConstant | DummyClient/sha256.h:267-281 | each of the 64 round constants is the fractional part of the cube root of its prime, to 32 bits |
| Fips180Constants.InitialHashWord | DummyClient/sha256.h:102-109 | each of the 8 initial words is the fractional part of the square root of its prime, to 32 bits |
| Sha256Padding.PaddedIsFips | DummyClient/sha256.h:227-252 | pad byte, zero bytes and length appended to a message of any length are, bit for bit, the padding of section 5.1.1 |
| Sha256Padding.ZeroFillInBytes | DummyClient/sha256.h:229-240 | the count of zero bytes and the bits of the pad byte give the standard's least count of zero bits |
| Sha256Padding.PartialByteMark | DummyClient/sha256.h:148-173 | masks and mark bits keep the top k bits and put the one bit right after them, for each k from 1 to 7 |
| Sha256Padding.LengthBytes | DummyClient/sha256.h:242-249 | the eight bytes taken from the two halves are the 64-bit length |
| Sha256Padding.PaddedBlocks | DummyClient/sha256.h:227-252 | a whole message of n bytes takes (n + 8) / 64 + 1 compressions |
| Sha256Padding.FoldFilled | DummyClient/sha256.h:140-141 | compressing the buffer when it fills extends the fold over the message by one block |
| Sha256Padding.FoldUnfinished | DummyClient/sha256.h:139-140 | a byte that does not fill the buffer leaves the fold as it was |
| Base64Tables.EncoderAlphabet | DummyClient/base64.cpp:4 | the encoder writes the values from 0 on as A-Z, a-z, 0-9, `+` and `_`, said by ranges of character codes |
| Base64Tables.DecoderAlphabet | DummyClient/base64.cpp:5-14 | the decoder reads A-Z, a-z, 0-9, `+` and `/` as 0 to 63, and skips a character exactly when it is none of these |
| Base64Encode.EncodeFromArray | DummyClient/base64.h:44-74 | the loop with its two short tails computes the regrouping by bits, with zero fill and pad characters |
| Base64Theorems.EncodedBits | DummyClient/base64.h:51-72 | the bits of the six-bit groups are those of the bytes and then zeros, for every byte string |
| Base64Theorems.EncodedCharacters | DummyClient/base64.h:51-72 | the text is one character for each group, the one the alphabet gives its value, and then pads |
| Base64Encode.EncodeConcat | DummyClient/base64.h:51-72 | encoding a multiple of three bytes and then the rest is encoding it all |
| Base64Encode.EncodeThree | DummyClient/base64.h:67-71 | the four expressions of a full group are its four sextets |
| Base64Encode.EncodeTwo | DummyClient/base64.h:59-66 | two bytes left over give three sextets, the last filled with two zeros, and one pad |
| Base64Encode.EncodeOne | DummyClient/base64.h:52-58 | one byte left over gives two sextets, the last filled with four zeros, and two pads |
| Base64Theorems.RoundTripIff | DummyClient/base64.h:45-187 | decoding undoes encoding exactly when no six-bit group is 63, that is, when the text holds no `_` |
| Base64Theorems.DecodedIsShorter | DummyClient/base64.cpp:4-14 | when some group is 63 the decoded string is strictly shorter |
| Base64Theorems.RoundTripFails | DummyClient/base64.cpp:4-14 | three bytes of ones encode to `____` and come back as nothing |
| Base64Theorems.DecodeStandard | DummyClient/base64.h:131-187 | the decoder undoes the standard's encoding, with `/` for 63, of every byte string |
| Base64Theorems.EncodeInjective | DummyClient/base64.h:51-72 | no two byte strings encode alike, across all three tails |
| Base64Theorems.EncodedShape | DummyClient/base64.h:51-72 | four characters for each three bytes begun, with pads exactly in the last places left over |
| Base64Theorems.PadRule | DummyClient/base64.h:165-181 | the first pad ends the input if two or three sextets of a group stand open, else it is passed over |
| Base64Theorems.DecodedBits | DummyClient/base64.h:150-186 | the bits of the decoded bytes are those of the accepted sextets, but for fewer than eight at the end |
| Base64Theorems.JunkIsIgnored | DummyClient/base64.h:150-186 | a character that is no letter, digit, `+`, `/` or pad may be put in or left out anywhere |
| Base64Decode.Scan | DummyClient/base64.h:151-161 | the scans for the first two sextets of a group stop at the next sextet the flat rule accepts, past all junk and pads, and find none exactly when the flat rule has none left |
| Base64Decode.ScanOrPad | DummyClient/base64.h:165-183 | the scans for the last two do the same, but a pad ends the input |
| Base64Decode.DecodeTo | DummyClient/base64.h:129-187 | the container holds exactly the whole bytes in the sextets the flat rule accepts, for every ASCII string |
| Base64Decode.DecodeToArray | DummyClient/base64.h:76-127 | the first dest_len bytes are the same ones, and every write is inside the reserved three quarters of the input length |
| Base64Decode.AcceptStep | DummyClient/base64.h:150-186 | one character of the flat rule, and what the table can answer |
| Base64Decode.OctetsTwo | DummyClient/base64.h:163 | the first byte expression adds the byte that two sextets complete |
| Base64Decode.OctetsThree | DummyClient/base64.h:174 | the second byte expression adds the byte that three sextets complete |
| Base64Decode.OctetsFour | DummyClient/base64.h:185 | the third byte expression adds the byte that four sextets complete |
| Base64Tables.DecodeChar | DummyClient/base64.cpp:4-14 | the decoder's table undoes the encoder's on every value but 63, whose character it skips |
| Base64Tables.PadIsSkipped | DummyClient/base64.cpp:4-14 | the two tables' disagreement: 63 is written `_`, `_` is skipped, `/` is read as 63 |
| Base64Tables.DecodedRange | DummyClient/base64.cpp:5-14 | every entry of the decoder's table is a sextet or the skip mark |
| HashBase64.HashToBase64 | DummyClient/sha256.h:87-93 | 43 characters and a pad that encode the one digest of the input, and decode to it exactly when no `_` was written |
| HashBase64.SameTextSameHash | DummyClient/sha256.h:87-93 | two messages have the same text exactly when they have the same hash value |
| ThreadPoolInvariant.NextInv | digital_content_game/ThreadPool.h:45-100 | every step of every thread keeps the invariant: mutex, tested conditions, stop, order, tasks in hand, tasks delivered, wakeups |
| ThreadPoolInvariant.ReachableInv | digital_content_game/ThreadPool.h:38-100 | so every reachable state satisfies it |
| ThreadPoolInvariant.NextHand | digital_content_game/ThreadPool.h:55-59 | no step duplicates or drops a started task: each is in one worker's hands or completed |
| ThreadPoolInvariant.NextWake | digital_content_game/ThreadPool.h:51-86 | no step breaks the count of queued tasks against pending notifications and awake workers |
| ThreadPoolTheorems.MutualExclusion | digital_content_game/ThreadPool.h:50-99 | no two threads are ever inside a critical section at once, and no thread keeps the mutex while it sleeps, runs a task, notifies or joins |
| ThreadPoolTheorems.TakeIsSafe | digital_content_game/ThreadPool.h:51-56 | a worker that passed the wait condition never pops an empty queue |
| ThreadPoolTheorems.FifoAndConservation | digital_content_game/ThreadPool.h:53-84 | tasks accepted are tasks started followed by the queue, and the calls that pushed account for exactly the tasks queued, in hand and completed |
| ThreadPoolTheorems.RefusedCallChangesNothing | digital_content_game/ThreadPool.h:78-85 | a call that finds stop set changes nothing but itself |
| ThreadPoolTheorems.NoLostWakeup | digital_content_game/ThreadPool.h:50-86 | while a worker sleeps, the queue is no longer than the notifications to come plus the workers awake |
| ThreadPoolTheorems.NoDeadlock | digital_content_game/ThreadPool.h:45-100 | where no thread can move, no call is halfway, every accepted task has completed, and either all workers sleep in a live pool or all have left a destroyed one |
| ThreadPoolTheorems.DrainOnShutdown | digital_content_game/ThreadPool.h:91-100 | when the destructor returns, every accepted task has completed once, the queue is empty and every worker has exited, in a pool with a worker |
| ThreadPoolTheorems.ShutdownDrainsIff | digital_content_game/ThreadPool.h:38-100 | shutdown drains every run exactly when the pool has at least one worker |
| ThreadPoolTheorems.UnstaffedLosesTask | digital_content_game/ThreadPool.h:38-100 | a pool of no workers accepts a task and is destroyed without running it |
| ThreadPoolShutdown.StoppedDescends | digital_content_game/ThreadPool.h:51-99 | with stop set every step but a new call lowers the measure, spurious wakeups included, and the queue never grows |
| ThreadPoolShutdown.StoppedRunIsBounded | digital_content_game/ThreadPool.h:51-99 | so a run after stop is no longer than the measure and four steps a new call |
| ThreadPoolShutdown.NoSleepAfterStop | digital_content_game/ThreadPool.h:51-54 | no worker falls asleep once stop is set |
| ThreadPoolShutdown.ShutdownCompletes | digital_content_game/ThreadPool.h:91-100 | from stop on, a run without new calls is finite, and where it cannot go on the destructor has returned and the pool is drained |
| ThreadPoolProgress.RunIsBounded | digital_content_game/ThreadPool.h:45-100 | any run, stopped or not, is no longer than the effort left at its start plus a fixed cost for each new call and each spurious wakeup |
| ThreadPoolProgress.QuietRunFinishes | digital_content_game/ThreadPool.h:45-100 | left to itself the pool stops moving, and wherever it stops every accepted task has completed |
| ThreadPoolProgress.ComesToRest | digital_content_game/ThreadPool.h:45-100 | and from every reachable state the threads' own steps do lead to such a state, with every task accepted so far completed |
| ThreadPoolCalls.EachCallHasItsTask | digital_content_game/ThreadPool.h:66-87 | after any run the calls are the ones it started, each with the very task it was given |
| ThreadPoolCalls.AcceptedAsGiven | digital_content_game/ThreadPool.h:84 | the tasks accepted in a run are, in order, the tasks given to the calls that pushed |
| ThreadPoolCalls.EachCallPushesOnce | digital_content_game/ThreadPool.h:77-86 | no call pushes twice, and the ones that pushed are those on their way to return |
| ThreadPoolCalls.NoPushAfterStop | digital_content_game/ThreadPool.h:81-82 | once stop is set nothing more is accepted, and no call that starts then returns |
| ThreadPoolCalls.ThrowsOnlyAfterStop | digital_content_game/ThreadPool.h:81-82 | a call throws only if stop is set |
| ThreadPoolCalls.EveryTaskGivenIsDone | digital_content_game/ThreadPool.h:38-100 | at rest each enqueue of the run either threw, the pool being stopped, or returned and had the task it was given completed, and the tasks completed are those given to the calls that pushed, as often |
| ThreadPoolOperations.EnqueueQueues | digital_content_game/ThreadPool.h:76-85 | undisturbed, enqueue on a live pool puts the task it was given at the end of the queue and changes nothing else |
| ThreadPoolOperations.EnqueueNotifies | digital_content_game/ThreadPool.h:86 | its notification wakes one sleeping worker, whichever, or nobody if none sleeps |
| ThreadPoolOperations.EnqueueThrows | digital_content_game/ThreadPool.h:81-82 | undisturbed, enqueue on a stopped pool throws and changes nothing |
| ThreadPoolOperations.WorkerRunsTask | digital_content_game/ThreadPool.h:45-59 | undisturbed, a worker runs the oldest task, stop or not, and is back at the top of its loop |
| ThreadPoolOperations.WorkerSleeps | digital_content_game/ThreadPool.h:51-52 | with nothing queued it sleeps in a live pool and gives the mutex back |
| ThreadPoolOperations.WorkerMayWake | digital_content_game/ThreadPool.h:51-52 | a sleeping worker may wake without a notification at any time |
| ThreadPoolOperations.WorkerLeaves | digital_content_game/ThreadPool.h:53-54 | with nothing queued it leaves a stopped pool and gives the mutex back |
| ThreadPoolOperations.DestructorStops | digital_content_game/ThreadPool.h:91-97 | undisturbed, the destructor sets stop and wakes every sleeping worker before it joins |
| ThreadPoolRefinement.StepRefines | digital_content_game/ThreadPool.h:45-100 | each step is a possible step of a FIFO queue that can be closed, or invisible; nothing is accepted after the close although stop is tested earlier |
| ThreadPoolRefinement.RunRefines | digital_content_game/ThreadPool.h:45-100 | every run of the pool is a run of the queue |
| ThreadPoolObject.PoolObject.constructor | digital_content_game/ThreadPool.h:38-63 | a new pool has its workers at the top of their loops and nothing queued |
| ThreadPoolObject.PoolObject.RunWorker | digital_content_game/ThreadPool.h:45-61 | one statement of a worker, updating the fields in place, is its step of the transition system, the state stays reachable, and the queue loses its first task exactly when the worker pops |
| ThreadPoolObject.PoolObject.StartCall | digital_content_game/ThreadPool.h:66-76 | a call of enqueue begins, with the task it was given |
| ThreadPoolObject.PoolObject.RunCall | digital_content_game/ThreadPool.h:77-87 | one statement of a call is its step; the queue gains the task of this call exactly when it pushes, and every call keeps its task |
| ThreadPoolObject.PoolObject.RunDestructor | digital_content_game/ThreadPool.h:91-100 | one statement of the destructor is its step |

## Left out

- The compression is written out line by line in the source (DummyClient/sha256.h:286-1047); the model uses loops over the same sixteen, forty-eight and sixty-four repetitions, and stores the digest in a loop over the eight words.
- The byte loops of `pad_message` and `finalize`, the two kinds of scan of the decoders and the two kinds of store are methods of their own in the model; the source writes them out in place.
- SHA-256: lengths of one call are not narrowed to `unsigned int`, the null-pointer assertions are not modelled, and neither is the hex formatting of `hash_hex`. Nothing is claimed about cryptographic strength.
- HashBase64.HashToBase64: for an input of 2^61 bytes or more the digest array is never written and the text encodes whatever it held, so only the shape of the text is stated then.
- Base64: `encode_from_string` only forwards. Characters of 128 and above, which the decoders' table does not cover, are excluded by precondition, and `char` is taken as signed, so that -1 is one value.
- Base64Decode.DecodeToArray: the reserved size is the exact three quarters rounded up; the source computes it in `float`, which agrees while three times the size is at most 2^24, and its indices are 32-bit.
- Base64Decode.DecodeTo: the capacity the source reserves in the container is not modelled, only its contents.
- Pool: a task is a number and always returns; futures, arguments, exceptions inside tasks and tasks that block for ever are not modelled. A task that itself calls `enqueue` is modelled as one more calling thread.
- Pool: the object outlives its calls; a call that is still under way when the object's memory is freed is not modelled.
- Pool: one notification wakes exactly one sleeping worker if there is one; that it may wake more is covered by spurious wakeups.
- The database wrappers, sockets, packet structures, logging and game logic of the repository are not part of this model: they hold little state of their own or rest on code that is not there.
