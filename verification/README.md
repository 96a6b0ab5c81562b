# Four cores, modelled and proved

The project models four independent parts of the repository and proves what they promise.

**MSGQ, the ring buffer between one publisher and many subscribers.** `MsgqLayout` says how frames
and wraparound tags lie in the data segment, and when a read position is sound. `MsgqMachine` is a
step machine: every load and store of a header word, of a size word and of a payload byte in
`msgq_msg_send`, `msgq_msg_recv` and `msgq_reset_reader` is one step, and a schedule interleaves one
publisher with up to 15 subscribers in any order, subscriptions in the middle of a send included.
`MsgqSafety` proves an invariant of every run and from it that a subscriber returns a subsequence of
the messages sent, byte for byte and in order, but for what it returns in a spell: the time from a
reset of its own that the writer laps to its next reset. `MsgqRace` shows a schedule with such a
reset. `MsgqOrder` proves exactly when a subscriber misses messages, and `MsgqProgress` what one
receive or one send achieves from any state of such a run: the next message, the last one, or none;
and a message published. `MsgqQueue` is the same code run call by call on a mutable object, with
each call proved against the list of messages published; `MsgqSlots` has what those proofs need as
facts about values, and when a send makes a subscriber lose messages.

**RSA verification and SHA-1 of the panda boot check.** `RsaWords` has the carry loops on word
arrays, for any number of words; `Congruence` the modular arithmetic; `Rsa` conversion,
exponentiation, verification, and what the signing script emits. `Sha1` is the streaming hash,
proved against the definition of FIPS 180-4, and `Sha1Vectors` computes from that definition the
standard's digests of "abc" and of the empty message. `BootCheck` puts them together: the check of a
whole image before it is started, and the images that the signing script makes.

**CAN packets between host and device.** `CanWire` is the byte stream and its parsing as a function;
`Libc` the word-unrolled `memcpy`; `CanComms` the two carry-over buffers of the device; `PandaHost`
packing and unpacking on the host; `CanEndToEnd` both ends together. A packet is the sequence of its
bytes, and the device keeps the list of packets it has sent on.

**Numeric kernels.** `FftSize` is the search with five nested loops; `Correlation`, `Lagd`,
`LagPeak`, `LagShort` and `LagBlocks` the estimate of the lateral lag; `Transformations` and
`Rotations` the rotation conversions. Floating-point numbers are real numbers. An angle is the
cosine and sine of its half. The square root of a number is its non-negative root where there is
one, and 0 otherwise; for quaternions, and for delayed copies in the lag estimate, the root is shown
to exist; for the standard deviations of the blocks it is any function. A division by zero yields 0;
the theorems show that the code's divisors are not zero, or say so. The product of two Fourier
transforms, transformed back, is circular convolution.

`Arith`, `Bytes` and `Reals` hold the arithmetic that the others share.

## What was found

- The safety of MSGQ depends on the reset of a reader not being lapped. `msgq_reset_reader` marks
  the reader valid before it copies the write pointer, in two separate accesses. A publisher that
  laps the copied pointer between the two, and does not clear the flag, leaves a valid reader
  pointing into the middle of a frame. For example, it counted the readers before the subscriber
  came (`MsgqRace.LappedResetTears`); or it did count the reader, but its searches compare the
  pointer that the slot still holds. It concerns that one reader, until its next reset: everybody
  else is safe, and so are the messages which that reader returns before and after, taken together
  (`MsgqSafety.NoTornReads`).
- MSGQ can lose messages without clearing the flag of a reader. The search for readers beyond a
  wraparound tag is strict (`msgq.cc:271`), and the emptiness test compares only offsets
  (`msgq.cc:377`). A reader exactly one lap behind is told that there is nothing to read, and later
  continues past what it missed (`MsgqQueue.LosesMessages`). The README of MSGQ promises that all
  readers in the rest of the buffer are marked; the model follows the code. For whole calls, a
  reader that a send does not invalidate loses messages if and only if it is level with the tag, in
  another cycle (`MsgqSlots.TrackAfterSend`). For single steps, a valid reader misses messages if
  and only if the writer has entered a new lap while it had not entered the one before, or it has
  followed a tag that stands on the size of its next message (`MsgqOrder.MissesIff`). Being level
  with the tag when the tag is stored is not the condition there: a reader that has already read the
  tag at the end of its own lap may still jump before the write pointer moves, and misses nothing.
- `rsa.c` says that one subtraction is enough after the exponentiation. It is when the modulus uses
  its top bit, or when the input is not above the modulus (`Rsa.ModPow`); otherwise it may not be
  (`Rsa.NotReduced`). The verification never accepts wrongly for that, and whatever the signing
  script emits is of the second kind (`Rsa.Verify`, `Rsa.SignedIsAccepted`). The comments also speak
  of 2048 bits and SHA-256; the code handles 1024 bits and SHA-1 only.
- `sign.py` writes the length over the first four bytes of the data, after it has put the version
  tag behind them. An image it makes boots if and only if there are at least four bytes of data
  (`BootCheck.SignedPasses`): with fewer, the length destroys the tag.
- `pack_can_buffer` accepts addresses of 29 bits and more and bus numbers above 7, and exactly those
  messages do not survive (`PandaHost.RoundTrip`).
- `actuator_delay` takes its slice with the borders from index n - 6 on. With five samples or fewer
  that counts from the end. Then there is an estimate if and only if one of the last entries of the
  correlation, before the upper end of the slice, reaches the threshold
  (`LagShort.ShortEstimateIff`); otherwise the code fails with an index error. The width that it
  reports counts the last run among those entries, wherever the peak is (`LagShort.WidthIs`). For
  real signals and at least five lags all these entries belong to lags longer than the signals
  (`LagShort.ShortSignals`): a delayed copy is never found (`LagShort.ShortDelayIsLost`), and an
  estimate, which takes a threshold of at most 0, has a width that says nothing of its peak. At the
  padded size 25 for five samples and the twenty lags of the defaults (`LagShort.FivePadded`), a
  step that is followed at once scores 1 and the code fails (`LagShort.FiveSteps`), while signals
  with nothing valid give an estimate of width 1, although all lags rival the peak
  (`LagShort.FiveMasked`).
- `BlockAverage.get` leaves out the oldest of a full set of blocks even when no block is open, so
  the valid mean covers at most one block less than there are slots. It fails with an index error
  after a start with more valid blocks than slots, until the next block is complete
  (`LagBlocks.BlockAverage.Get`).

## Model

| member | source | states |
|---|---|---|
| MsgqLayout.PlacedAfterSend | msgq_repo/msgq/msgq.cc:284-309 | storing a frame at the write pointer and publishing it leaves every position outside the frame sound |
| MsgqLayout.PlacedAfterTagAndWrap | msgq_repo/msgq/msgq.cc:257-282 | storing a tag at the write pointer and starting a new lap leaves every position sound |
| MsgqLayout.BufferAfterPublish | msgq_repo/msgq/msgq.cc:298-309 | after a send the frames of the lap still tile the buffer up to the write pointer, which stays a multiple of 8 with room for a tag |
| MsgqLayout.SizeFound | msgq_repo/msgq/msgq.cc:386-404 | at a sound position behind the write pointer the size word is either the tag of a finished lap or the size of the next message, with its payload intact |
| MsgqSafety.WriterKeeps | msgq_repo/msgq/msgq.cc:236-318 | each load or store of a send keeps the invariant of the buffer and of every reader, whatever step each reader is at |
| MsgqSafety.ReaderKeeps | msgq_repo/msgq/msgq.cc:350-435 | each load or store of a receive or a reset keeps what is known of that reader, whatever step the writer is at; a reset that is not lapped restores it |
| MsgqSafety.DoKeeps | msgq_repo/msgq/msgq.cc:186-435 | every action of any process keeps the whole invariant |
| MsgqSafety.RunKeeps | msgq_repo/msgq/msgq.cc:186-435 | every state of every schedule satisfies the invariant: aligned frames tile the lap, and every valid reader whose last reset was not lapped stands at a sound position, with a cycle never above the true one |
| MsgqSafety.NoTornReads | msgq_repo/README.md:39-54 | whatever the interleaving, all that a subscriber has returned outside its spells, before and after them and across resets, is one subsequence of the messages published, byte for byte and with strictly increasing indices; a spell is from a lapped reset of its own to its next reset, and without one that is everything it has returned |
| MsgqSafety.NoCrash | msgq_repo/msgq/msgq.cc:399-404 | the two size asserts of a receive fail in no run that publishes no empty message, for a subscriber whose last reset was not lapped |
| MsgqSafety.SpellIff | msgq_repo/msgq/msgq.cc:72-76 | a reset begins a spell exactly when, since it loaded the write pointer, the writer has gone two laps on, or one lap on and beyond that offset |
| MsgqSafety.AtMostFifteen | msgq_repo/msgq/msgq.cc:186-215 | in no run are there more than fifteen subscribers, and while there are fewer one more may come |
| MsgqRace.LappedResetTears | msgq_repo/msgq/msgq.cc:72-76 | what NoTornReads assumes of a subscriber is needed: some run of four sends returns a message that was never sent, to a subscriber that stayed valid |
| MsgqOrder.WriterKeepsOrder | msgq_repo/msgq/msgq.cc:257-309 | a step of the writer keeps a reader on the next message it has not read, unless it leaves the reader behind, which then misses a message |
| MsgqOrder.JumpLosesNothing | msgq_repo/msgq/msgq.cc:391-395 | following a tag of the previous lap leads to exactly the next message |
| MsgqOrder.JumpLosesNext | msgq_repo/msgq/msgq.cc:391-395 | following a tag that stands on the size of the next message leads past it |
| MsgqOrder.RunKeepsOrder | msgq_repo/msgq/msgq.cc:236-435 | in every run, for a reader that does not conflate and whose last reset was not lapped: either the indices returned since then start at the message that came next and are contiguous, or one of the two events has happened, and a valid reader then misses a message |
| MsgqOrder.NoGaps | msgq_repo/README.md:39-54 | without those events such a subscriber has returned, since its last reset, exactly the messages published from then on, one after the other |
| MsgqOrder.MissesIff | msgq_repo/msgq/msgq.cc:262-274 | a valid subscriber misses a message, in any run, if and only if one of those events has happened since its last reset |
| MsgqOrder.MissedForGood | msgq_repo/msgq/msgq.cc:350-435 | a message once missed is not returned before the next reset, however the run goes on |
| MsgqProgress.ReceiveReturns | msgq_repo/msgq/msgq.cc:350-435 | from any state that the invariants allow, with the writer idle, a receive of a valid subscriber outside a spell ends, and leaves everything else alone: it returns nothing if and only if its offset is that of the writer; otherwise, when it conflates, the last message of all, and else its next message, also across a tag, or, if it has lost messages and stands on a tag, the first of the lap of the writer; it has then passed exactly that one; it fails, returning nothing, if and only if there is an empty message on the way |
| MsgqProgress.RestartsAtWriter | msgq_repo/msgq/msgq.cc:350-383 | a subscriber without its flag, or a new one, ends valid and level with the writer, expecting the next message, and returns nothing |
| MsgqProgress.SendPublishes | msgq_repo/msgq/msgq.cc:236-318 | from any state that the invariants allow a send ends, wherever any reader is: with the message published and intact at the write pointer, or at the start of the next lap if there is no room for it and a tag; with the flag cleared of exactly the readers in the way; or it fails at once, if and only if three messages of its size do not fit |
| MsgqProgress.SendThenReceive | msgq_repo/README.md:39-54 | a drained subscriber receives exactly the message sent next, step by step, also when that send wraps |
| MsgqQueue.Queue.constructor | msgq_repo/msgq/msgq.cc:86-150 | a fresh zeroed segment satisfies the layout invariant with nothing published |
| MsgqQueue.Queue.InitPublisher | msgq_repo/msgq/msgq.cc:159-172 | a new publisher takes the queue over and leaves no reader registered or valid |
| MsgqQueue.Queue.InitSubscriber | msgq_repo/msgq/msgq.cc:186-234 | a subscriber gets the next slot, valid and at the write pointer, and no other slot changes; with all slots taken every other reader is evicted first |
| MsgqQueue.Queue.ResetReader | msgq_repo/msgq/msgq.cc:72-76 | the slot becomes valid at the write pointer, expecting the next message to be published, with nothing lost |
| MsgqQueue.Queue.Send | msgq_repo/msgq/msgq.cc:236-318 | a send appends exactly one message to the history, frames it where it belongs, leaves the rest of the buffer alone and clears exactly the flags of the readers in the way; of the others that had lost nothing, it leaves on track exactly those not level with the tag in another cycle; the two refusals change nothing |
| MsgqQueue.Queue.Recv | msgq_repo/msgq/msgq.cc:350-435 | a receive terminates and returns the message found and moves past it, which for a reader that has lost nothing is the next, and stays so; a conflated one returns the last message sent and leaves the slot level with the writer, or fails if and only if it passes an empty message; an evicted or invalid slot restarts empty at the write pointer |
| MsgqQueue.Queue.Ready | msgq_repo/msgq/msgq.cc:321-348 | terminates with a live subscriber, and tells whether its offset differs from that of the writer |
| MsgqQueue.Queue.SendThenRecv | msgq_repo/msgq/msgq.cc:244-251 | a drained subscriber receives exactly the next message sent, also when that send wraps |
| MsgqQueue.LosesMessages | msgq_repo/msgq/msgq.cc:262-274 | on a fresh queue, with the subscriber valid throughout, messages 0 and 1 are followed by message 4 |
| MsgqSlots.Finds | msgq_repo/msgq/msgq.cc:374-404 | a valid slot that is not level with the writer stands on a message with its payload, or on a tag of an earlier lap |
| MsgqSlots.TrackAfterSend | msgq_repo/msgq/msgq.cc:262-296 | a reader that has lost nothing and survives a send stays so, and still finds its next message, if and only if it is not level with the tag of a wraparound in another cycle; otherwise it finds the message just sent |
| MsgqSlots.TrackAfterMessage | msgq_repo/msgq/msgq.cc:404-424 | moving past a message keeps a reader that has lost nothing on track |
| MsgqSlots.NextFound | msgq_repo/msgq/msgq.cc:391-424 | after a message a reader finds the next of the same lap, or else the first of the lap of the writer |
| RsaWords.SubM | panda/crypto/rsa.c:31-41 | subtracts the modulus from the number in the array, modulo the word size to the length |
| RsaWords.GeM | panda/crypto/rsa.c:43-53 | is the comparison of the two numbers, both ways |
| RsaWords.MontMulAdd | panda/crypto/rsa.c:55-78 | one row of the product, for any inputs: with a correct inverse and c < b + n, times 2^32 the result is the old value plus a*b plus a multiple of the modulus, it stays below b + n, and the multiple is below 2^32, and not negative when b + n fits |
| RsaWords.NoOverflow | panda/crypto/rsa.c:60-67 | each accumulation of a carry, a product of two words and a word fits 64 bits |
| RsaWords.MontMul | panda/crypto/rsa.c:80-92 | for any word count, with a correct inverse, R * c = a * b modulo n, with c < R and c < b + n, for unreduced inputs too, and a multiple of n below R |
| RsaWords.FinishBound | panda/crypto/rsa.c:71-77 | the carry out of the top word is 0 or 1, and with it the array is the whole quotient |
| RsaWords.LowWordClears | panda/crypto/rsa.c:60-62 | the choice of d0 makes the lowest word of the sum vanish |
| Rsa.ToWords | panda/crypto/rsa.c:104-112 | the conversion from big-endian bytes keeps the number |
| Rsa.ToBytes | panda/crypto/rsa.c:134-141 | and so does the conversion back |
| Rsa.EnterMontgomery | panda/crypto/rsa.c:116-116 | multiplying by rr gives a * R modulo n |
| Rsa.Power65537 | panda/crypto/rsa.c:114-121 | sixteen squarings and a multiplication leave a^65537 modulo n, below a + n |
| Rsa.Power3 | panda/crypto/rsa.c:122-127 | a squaring and a multiplication leave a^3 modulo n, below a + n |
| Rsa.ModPow | panda/crypto/rsa.c:94-142 | for a well-formed key the bytes become the power modulo n, and its least residue when the top bit of n is set or the input is not above n |
| Rsa.Reduce | panda/crypto/rsa.c:129-132 | the single subtraction reaches the least residue exactly when the product is below 2n |
| Rsa.NotReduced | panda/crypto/rsa.c:129-132 | for a short modulus and an input above it the result of the exponentiation is not reduced, which the comment there rules out |
| Rsa.ComparePadded | panda/crypto/rsa.c:264-293 | xor and compare succeed exactly on the padded block of the digest |
| Rsa.PaddedIs | panda/crypto/rsa.c:187-205 | the padded block of a digest is the number 256^126 + (256^105 - 1) * 256^21 + digest |
| Rsa.Verify | panda/crypto/rsa.c:222-294 | for any key, nothing is accepted whose lengths or exponent are wrong; with a well-formed key, nothing whose power is not the padded digest modulo n; and when the top bit of n is set or the signature is not above n, it accepts if and only if sig^e mod n is the number 256^126 + (256^105 - 1) * 256^21 + digest |
| Rsa.SignedIsAccepted | panda/crypto/sign.py:34-37 | every signature of the script for a modulus above the padded digest is accepted when the exponents undo each other, and is below the modulus |
| BootCheck.VerifiedBy | panda/board/bootstub.c:54-69 | for any key, image and length, hashing and verifying accept only a signature that exponentiates, modulo n, to the padded digest of the signed part; and exactly those that do where one subtraction is enough |
| BootCheck.Boots | panda/board/bootstub.c:50-85 | an image is started only if its length and version are possible and one of the keys in use accepts its signature over its signed part, and always if one does so for certain; exactly then, when one subtraction is enough for the keys in use |
| BootCheck.VersionedIs | panda/board/bootstub.c:51-63 | an image has a version if and only if its length is from 8 to 0xFFBF7C and the part it spans ends with the letters VERS and a number of at least 2 |
| BootCheck.ImageParts | panda/crypto/sign.py:21-38 | from four bytes of data on, the image of the script has a version, and the signed part and the signature that are read back are those that were written |
| BootCheck.SignedPasses | panda/crypto/sign.py:21-38 | an image of the script passes hashing, version check and verification together if and only if there are at least four bytes of data, when the exponents undo each other on its padded digest |
| Sha1.ChIs | panda/crypto/sha.c:63-64 | the optimised choice function is Ch of section 4.1.1 of FIPS 180-4 |
| Sha1.MajIs | panda/crypto/sha.c:67-68 | the optimised majority function is Maj of that section |
| Sha1.Context.Expand | panda/crypto/sha.c:42-52 | the 80 words are the message schedule of section 6.1.2 of FIPS 180-4 |
| Sha1.Context.Transform | panda/crypto/sha.c:36-84 | the state becomes the compression of the old state and the buffer |
| Sha1.Context.Init | panda/crypto/sha.c:94-102 | a context starts over with no message, whatever it held |
| Sha1.Context.Update | panda/crypto/sha.c:105-118 | the context stands for the message so far followed by the data |
| Sha1.Context.PadZeros | panda/crypto/sha.c:126-129 | the padding loop stops, after the least number of zeros |
| Sha1.ZerosLeft | panda/crypto/sha.c:127-127 | the test of that loop holds after exactly that number of zeros, also when the count wraps |
| Sha1.Context.Finish | panda/crypto/sha.c:121-159 | the state is the fold of the compression over the message padded as in section 5.1.1 of FIPS 180-4 |
| Sha1.Context.Final | panda/crypto/sha.c:121-170 | the first 20 bytes of the buffer are the digest of the message |
| Sha1.HashOf | panda/crypto/sha.c:172-179 | the convenience function returns the digest of its data |
| Sha1Vectors.AbcDigest | panda/crypto/sha.c:36-84 | the digest of "abc" is a9993e36 4706816a ba3e2571 7850c26c 9cd0d89d, as in the standard's example |
| Sha1Vectors.EmptyDigest | panda/crypto/sha.c:36-84 | the digest of the empty message is da39a3ee 5e6b4b0d 3255bfef 95601890 afd80709 |
| Sha1Vectors.Constants | panda/crypto/sha.c:63-70 | the four round constants are the integer parts of 2^30 times the roots of 2, 3, 5 and 10 |
| Sha1.DigestIsState | panda/crypto/sha.c:161-167 | the 20 bytes keep the whole state: two messages have the same digest if and only if their padded blocks compress to the same five words |
| Sha1.HashOfChunks | panda/crypto/sha.c:105-118 | however a message is split into updates, the digest is that of the whole |
| Sha1.FoldConcat | panda/crypto/sha.c:105-118 | compressing block by block composes over concatenation |
| Libc.MemCpy | panda/board/libc.h:30-63 | for every length and alignment the copy equals the byte-by-byte copy, also when it shifts data down in one array |
| CanWire.DlcTable | panda/python/__init__.py:24-24 | the lengths are d up to 8, 4 * (d - 6) up to d = 12, and 16 * (d - 11) up to 15 |
| CanWire.ParseConcat | panda/board/can_comms.h:59-105 | parsing is independent of where the stream is cut |
| CanWire.ParseFlatten | panda/board/can_comms.h:88-102 | parsing recovers exactly the packets that were strung together |
| CanWire.ParsePrefix | panda/board/can_comms.h:88-102 | packets once found stay the first ones however the stream goes on |
| CanWire.ChecksumClears | panda/python/__init__.py:47-47 | with its checksum in place a packet sums to zero |
| CanComms.Comms.Assemble | panda/board/can_comms.h:62-86 | a buffered head is completed to exactly one packet, or extended by all the data |
| CanComms.Comms.CommsCanWrite | panda/board/can_comms.h:59-105 | sends on exactly the packets that the buffered head and the data make up, and buffers the rest; a buffered head knows how many bytes it lacks and fits |
| CanComms.Comms.CommsCanRead | panda/board/can_comms.h:23-54 | bytes put out and bytes buffered are the old buffer and the packets popped, in order; only a call that empties the queue returns less than asked; the buffer does not overflow |
| CanComms.Comms.Reset | panda/board/can_comms.h:107-112 | both carry-over buffers are empty |
| PandaHost.CalculateChecksum | panda/python/__init__.py:29-33 | the loop computes the xor of the bytes |
| PandaHost.PackCanBuffer | panda/python/__init__.py:35-54 | the chunks together are the packets of the messages in order, each with the header bits of its message, and a chunk is closed as soon as it holds more than 256 bytes; otherwise the error is that of the first bad message |
| PandaHost.WireFormat | panda/python/__init__.py:38-47 | for every message that is packed: bit 0 of the header is the FD flag and the next three are the low bits of the bus number, with the length code above them if it has no others; the extended flag is set if and only if the address is 0x800 or more, the two flags below it are not, and the 29 bits above are the low ones of the address; the packet sums to zero |
| PandaHost.UnpackCanBuffer | panda/python/__init__.py:56-85 | returns the messages of the complete packets and the incomplete rest, or fails where a checksum does |
| PandaHost.DecodeIs | panda/python/__init__.py:60-85 | from its bytes, a packet decodes to the 29 bits above the flags, its data, and its three bus bits raised by 128 if it was returned, by 192 if it was rejected, by 320 if both |
| PandaHost.RoundTrip | panda/python/__init__.py:35-85 | a message survives packing and unpacking if and only if its address is below 2^29 and its bus below 8 |
| PandaHost.InRange | panda/python/__init__.py:64-72 | a packet that kept its length comes back with a 29-bit address and a 3-bit bus, whatever was packed |
| PandaHost.Delivers | panda/python/__init__.py:35-85 | a packet of such a message has the declared length and checksum zero, and decodes to it |
| CanEndToEnd.CanSendMany | panda/python/__init__.py:707-712 | through bulk writes of any sizes the device gets exactly the packets of the messages, in order, each with the header bits of its message, with nothing left over |
| CanEndToEnd.Panda.CanRecv | panda/python/__init__.py:718-728 | one receive returns the messages of the carried bytes and the new ones, and carries the rest |
| CanEndToEnd.UnpacksMore | panda/python/__init__.py:717-728 | with sound packets on the stream, messages and carried bytes after any prefix are those of unpacking the prefix at once |
| CanEndToEnd.Drain | panda/python/__init__.py:717-728 | while packets arrive between bulk reads of any sizes, the messages received are those of the first packets, in order, and no checksum assertion fires; how many bytes the device still holds is exact, and it holds none, with every message received, if and only if each final stretch of the reads asks for the bytes that arrived in it, and all of them for all bytes |
| CanEndToEnd.BacklogIff | panda/board/can_comms.h:23-54 | after any rounds of arrivals and reads the device holds at most c bytes if and only if every final stretch of the reads, and all of them with what was held at first, asks for all but c of the bytes that arrived |
| FftSize.FftNextGoodSize | selfdrive/locationd/helpers.py:10-33 | terminates and returns the least number from n on whose only prime factors are 2, 3, 5, 7 and 11 |
| FftSize.SmoothIsProduct | selfdrive/locationd/helpers.py:18-32 | a number without other prime factors is a product of powers of those five |
| FftSize.ProductIsSmooth | selfdrive/locationd/helpers.py:18-32 | and each such product has no other prime factor |
| FftSize.LeastSmooth | selfdrive/locationd/helpers.py:17-33 | when the loops are done, the initial bound 2n has been replaced and no smaller candidate is left |
| Correlation.CircIsDirect | selfdrive/locationd/lagd.py:51-65 | every entry of a circular sum is the direct sum at its lag plus the one a padded size further on |
| Correlation.NoAliasing | selfdrive/locationd/lagd.py:51-65 | where the second overlap is empty it is the direct sum alone |
| Lagd.CircularSums | selfdrive/locationd/lagd.py:58-77 | the six circular sums of an entry are the count and the sums over the jointly valid pairs |
| Lagd.EntryIs | selfdrive/locationd/lagd.py:64-77 | the numerator is the covariance of the jointly valid pairs, the denominators are their variances and never negative |
| Lagd.ToleranceIs | selfdrive/locationd/lagd.py:82-83 | the tolerance is a thousand times the machine epsilon times the greatest denominator |
| Lagd.NccIsPearson | selfdrive/locationd/lagd.py:79-90 | an entry is the Pearson correlation of those pairs, within -1 and 1 before it is clipped, or 0 within the tolerance |
| Lagd.CauchySchwarz | selfdrive/locationd/lagd.py:87-88 | the square of a sum of products is at most the product of the sums of squares |
| Lagd.ScoreOne | selfdrive/locationd/lagd.py:79-90 | an entry above the tolerance is 1 if and only if the actual samples are an increasing affine copy of the expected ones |
| Lagd.DelayScoresOne | selfdrive/locationd/lagd.py:310-317 | a scaled, shifted and delayed copy scores 1 at its delay |
| LagPeak.PaddedSize | selfdrive/locationd/lagd.py:312-313 | the padded size is the least good one, and keeps every lag from minus the longest lag up free of aliasing |
| LagPeak.PeakIsBest | selfdrive/locationd/lagd.py:317-325 | whenever there is an estimate its index is the first best lag, the correlation its score, and the lag, within half a sample of it, is the top of the parabola through that lag and its neighbours, or itself at either end; with six samples there is one |
| LagShort.ShortEstimateIff | selfdrive/locationd/lagd.py:317-334 | with five samples or fewer there is an estimate if and only if one of the last entries, before the upper end of the slice, reaches the threshold |
| LagShort.WidthIs | selfdrive/locationd/lagd.py:327-337 | for any number of samples the confidence is 1 less the width in seconds, and 0 from one second on; the threshold is nine tenths of the way from the least to the greatest score; from six samples on the width is that of the maximal stretch of lags that reach it around the peak, counted across the borders, and with fewer that of the last run among the last entries |
| LagShort.WiderIsLessConfident | selfdrive/locationd/lagd.py:335-335 | of two estimates with the same time step the wider is never the more confident |
| LagShort.ShortSignals | selfdrive/locationd/lagd.py:309-337 | for signals of five samples or fewer, and at least five lags, there is an estimate if and only if the padded size is below the lags plus 10 and the threshold is not positive, and its width is the number of entries in the slice |
| LagShort.ShortDelayIsLost | selfdrive/locationd/lagd.py:309-337 | a delayed copy of five samples or fewer, scoring 1 at its delay, gives no estimate |
| LagShort.FivePadded | selfdrive/locationd/lagd.py:311-312 | for five samples and twenty lags the padded size is 25 |
| LagShort.FiveMasked | selfdrive/locationd/lagd.py:309-337 | there, five samples none of which is valid give an estimate of width 1, although the stretch of lags above the threshold has all 25 |
| LagShort.FiveSteps | selfdrive/locationd/lagd.py:309-337 | there, a step in the last of five samples, followed at once, scores 1 and gives no estimate |
| LagPeak.InterpIsVertex | selfdrive/locationd/helpers.py:36-43 | at the first maximum the divisor is positive and the result is the top of the parabola through three samples, within half a sample; at either end it is the index |
| LagPeak.RunFound | selfdrive/locationd/lagd.py:331-334 | the starts and ends of runs pair up, and the search picks the longest run around an entry |
| LagPeak.DelayIsFound | selfdrive/locationd/lagd.py:309-337 | for a delayed copy the estimate, if there is one, scores 1, at the delay or at an earlier lag that scores 1 too |
| LagBlocks.BlockAverage.constructor | selfdrive/locationd/lagd.py:119-126 | the blocks that count as valid at the start, however many, hold the initial value |
| LagBlocks.BlockAverage.Update | selfdrive/locationd/lagd.py:128-133 | one more value joins the history, the circular array still holds the mean of every recent block, and a complete block corrects a count of valid blocks that was too large |
| LagBlocks.BlockAverage.Get | selfdrive/locationd/lagd.py:135-151 | for the means of the last complete blocks, one less than there are slots, and the same with the open block: there is a reading if and only if there are any; the mean times their number is their sum, and the square of the standard deviation times their number is the sum of the squared distances from the mean, if the root is one; the reading fails exactly while the count of valid blocks exceeds the slots |
| LagBlocks.EqualValues | selfdrive/locationd/lagd.py:139-142 | equal blocks read back their value, with the root of 0 as deviation |
| Transformations.EulerAgrees | common/transformations/transformations.py:54-72 | for all angles and both signs, the matrix of the quaternion is the matrix of the angles, and the quaternion has norm 1 and w at least 0 |
| Transformations.ScaledMul | common/transformations/transformations.py:141-156 | rotation matrices multiply as their quaternions do |
| Transformations.Orthogonal | common/transformations/transformations.py:88-102 | the matrix of a unit quaternion is orthogonal, and its transpose is that of the conjugate |
| Transformations.PivotIsLarge | common/transformations/transformations.py:109-133 | in every branch the number under the root is four times a squared component and at least 1, so each divisor is positive |
| Transformations.RotAndBack | common/transformations/transformations.py:105-138 | for every unit quaternion, in all four branches, the conversion there and back returns it or its negative, with w at least 0 |
| Transformations.EulerByMatrix | common/transformations/transformations.py:105-156 | the matrix of an angle leads back to its quaternion, up to sign only where w is 0, and to the same matrix |
| Rotations.CrossesOf | common/transformations/transformations.py:105-138 | in a rotation matrix each row is the cross product of the other two |
| Rotations.RowX | common/transformations/transformations.py:117-121 | the entries that the second branch divides are a row of a table of rank one |
| Rotations.MatrixAndBack | common/transformations/transformations.py:105-138 | for every orthogonal matrix of determinant 1, in all four branches, the quaternion has norm 1 and w at least 0, and its matrix is the one given |

## Left out

- MsgqSafety.NoTornReads: says nothing of the messages returned within a spell; MsgqRace.LappedResetTears shows one that was never sent.
- MsgqSafety.NoCrash: excludes runs that publish an empty message, on which a receive does fail (MsgqProgress.ReceiveReturns).
- Rsa.ModPow: for inputs above a modulus with its top bit clear only the congruence is stated; Rsa.NotReduced shows that the result need not be the least residue there. Its key has one word, so it is about the exponentiation alone and not about a key the verification would hand on.
- Rsa.Verify: of a key whose inverse or R^2 is wrong only the checks of lengths and exponent are stated; R^2 has as many words as the modulus, as in the struct of the source.
- Rsa.SignedIsAccepted: takes the identity of the two exponents as a hypothesis; key generation and the private key are not modelled.
- BootCheck.SignedPasses: takes the same hypothesis; images without a length, which the script makes for the boot stub itself, are left out.
- BootCheck.Boots: the flash is taken to be as long as the greatest length it allows and a signature; the soft loader, the set-up of the hardware and the jump are left out.
- Rotations.MatrixAndBack: takes the root of one number that is at least 1 as a parameter, because the real numbers of the model are not known to be complete; matrices that are not rotations are not considered.
- MSGQ: the mapping of shared memory, signals, sleeping and polling, and the ZMQ and fake back ends.
- MSGQ: eviction of a reader during a receive, and a second publisher starting during a send, are calls of `MsgqQueue` but not steps of `MsgqMachine`.
- MSGQ: weak memory ordering; the step machine is sequentially consistent.
- MSGQ: the cycle counters are unbounded, and the data segment is shorter than 2^32 - 1 bytes.
- MSGQ: a load or store outside the segment reads 0 or is dropped in the model; the invariants show that a sound reader does neither.
- SHA-1: the bit length of a message counts modulo 2^64, and lengths are natural numbers rather than `int`.
- CAN: the queues, safety hooks and slots behind `can_send` and `can_pop`, the retries and errors of the bulk transfers, and the USB and SPI transports.
- CAN: offsets into the transfers are unbounded; `uint32_t` sums of a length and a packet size do not wrap.
- Lag: rounding of floating-point numbers and the Fourier transform itself; the filters that decide which samples are valid.
- Lag: the masking of the input arrays in place is a function on values, so the model does not show that the caller's arrays change.
- Rotations: conversions to Euler angles, which need inverse trigonometric functions, and the geodetic conversions.
