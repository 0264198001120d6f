# Verified models of the ground-station firmware

The repository is firmware for a satellite ground station on an nRF52 board, with a few build scripts.  Most
of it drives hardware and network stacks.  This project models the parts that are logic of their own, and
proves what they are for.  `dafny verify dfyconfig.toml` checks the whole project.

Loops and code that updates state are methods and classes, each proved equal to a function of its input or
of the state before it.  The theorems are lemmas about those functions, about whole streams, whole runs or
whole histories.  Protocols that several threads or a library take part in are state machines whose steps
the environment chooses.

| modules | what they model |
|---|---|
| `Bits`, `LineCoding`, `Hdlc`, `FrameRoundTrip`, `FrameConverse`, `NoisyStart`, `SentAndReturned`, `Aborts`, `Bitcode` | the FSK frame decoder: NRZ-S, the x^17 + x^12 descrambler, flag search and bit unstuffing, bit order; and the transmitter of AX.25 version 2.2 (sections 3.1, 3.6 and 3.8) as its partner |
| `Pn9` | the PN9 whitener |
| `SoftCrc`, `CrcDivision` | the software CRC with its parameters, against the bit-serial CRC and against the division of polynomials |
| `LogQueue`, `LogRing` | the web log: a byte ring of variable-length records that refines a queue, and the reader with its cursor |
| `DnsResolver`, `DnsAnswers` | the resolver shared by several threads, with callbacks that may come late or twice: that it is safe, what it returns, and that every call can be made and ends |
| `ConnectionMachine`, `ConnectionProgress` | the five-state machine of `main`, with the MQTT event handler: what every run keeps, and that it recovers from every state |
| `ConfigSync`, `ConfigText` | the three-way synchronisation of NVS, `config.json` and the snapshot at boot, and what the device reads of a text and of its own file |
| `VbusDebounce` | switching the USB stack with the cable, on a clock of 32 bits |
| `DayNumbers` | calendar dates and day numbers |
| `FormParser`, `ConfigPage`, `ConfigForm`, `Escaping` | the `/config` page: form fields, chunked page and chunked form, what the form stores, escaping; and the JSON escaping of the MQTT messages |
| `LandRuns` | the runs of set bits from which the dashboard's map is drawn |
| `Wrappers` | what several modules share: a value that may be missing, the smaller of two numbers, a C string in a sequence |

Some of what one would like to promise is false of the code.  There the code is modelled as it is, a lemma
gives the input or run that shows it, and another says exactly when the promise holds:

* A frame whose first five transmitted bits are all 1 is lost (`FiveOnesFail`, `AllOnesPayloadIsLost`), because
  the count of ones stays at 5 after a flag.  Every other frame is recovered (`RecoveredIffNotFiveOnes`).
* What the deframer accepts is not always what AX.25 put between the two flags.  Given a frame that ends at
  the accepted flag, and no abort before, its data are returned, all of them and nothing else, if and only if
  its opening flag ends with an octet of the input and they do not start with five 1 bits (`ReturnedAsSentIff`).
  Given only what is returned, it is such data if and only if a flag ends just before the receiver's first octet
  and five 1 bits stand neither there nor before the closing flag (`ReturnedIsSentIff`).  Each of the three
  occurs: bits behind a flag off the octet boundary are lost (`MisalignedFlagLosesBits`), a stuffed 0 is
  returned as data (`ExtraZeroReturned`), and one bit over is dropped, if it is the fifth 1 in a row and the 0
  stuffed after it is also the first bit of the flag (`OneBitTooMany`).
* A frame abort, seven or more 1 bits, does not end a frame: the ones are taken for data, the rest of the octet of
  the input is dropped, and the frame goes on and may be accepted (`AbortIsTakenForData`, `AbortExample`).  For
  streams without an abort before the closing flag the condition above is exact.
* A CRC polynomial without constant term misses a burst in every accepted packet that has data
  (`EvenPolynomialMisses`); with it no burst of 16 bits is missed (`DetectsBurstsIff`).
* Values that the server or the web page stores do not always survive a boot.  A file left in place, because
  the rendering came out as the old snapshot, is compared again at every later boot, and its edit comes back
  (`StoredAltitudeIsLost`).  A stored value survives if and only if the boot before wrote the file anew, or
  the file left has no edit of that field, or the edit has the same value (`StoredValueSurvivesIff`).
* `fndate` inverts `fnday` exactly from 1 March of year 0 on (`RoundTripIff`); the comment at
  `lib/AioP13/src/AioP13.cpp:104` claims less.
* CONNECTED can be entered from ERROR: when a send inside the CONNACK handler closes the connection, the
  handler first sets ERROR and then overwrites it (`FailedSendIsForgotten`).  Otherwise it is entered from
  MQTT_CONNECT only (`ConnectedIsEarned`).
* A pair in a form body that follows a segment without `=` is missed (`PairAfterBareNameIsMissed`,
  `FindsFirstReachable`), unlike in section 5.1 of the WHATWG URL Standard.
* A number in a file the device wrote is found exactly if none of the three strings before it spells its search
  key (`NumberIsFoundIff`).  A station's name that does makes the switch read as set (`NameCanHideTheSwitch`).
* JSON escaping leaves control characters alone, so the text is a JSON string exactly if the source holds none
  (`JsonRoundTrip`).
* A level that has been stable for longer than the debounce time need not be matched.  It is, if and only if it
  was when it appeared, or some poll since then came at least 2000 ms after the change modulo 2^32 and could
  switch (`MatchedSinceIff`).  One late poll may miss (`WrapHidesTheChange`), and so may several, none
  of them 2^32 ms behind the one before (`ShortGapsDoNotHelp`).
* A form of more than 1024 octets sent in one piece is dropped, but the page says "Saved" and transmission is
  switched off, because the check box is missing from the empty body (`OversizedFormClearsTx`).

Where code and documentation disagree the code is followed.  `docs/CONFIG.md:51-59` says that edits of every
field of `config.json` are adopted, but the search keys of the string fields have no blank after the colon
(`src/main.cpp:2836-2841`) and the file the device writes has one (`src/main.cpp:2897-2899`), so string edits
in it are found only if a value itself spells out the key, quotation marks included.  The head comment of
`src/web/log_backend_web.c` speaks of a 4 KB ring; the constant is 2048.  The layout comment there calls
every field little-endian; the length is stored high byte first.

## Model

| member | source | states |
|---|---|---|
| Bits.ReverseByte | src/bitcode.c:42-49 | The loop returns the octet whose position p is position 9 - p of its input. |
| Bits.ReversalIsInvolutive | src/bitcode.c:42-49 | Reversing an octet twice gives it back. |
| Bits.StreamIsItsBits | src/bitcode.c:12-15 | Two octet strings with the same bit stream are the same. |
| Bits.OctetValue | src/bitcode.c:12-15 | An octet is the number its bits spell, position 1 weighing 1 and position 8 weighing 128. |
| LineCoding.Nrz2Nrzi | src/bitcode.c:52-70 | For every input the loop leaves in the output the NRZ-S decoding of the whole bit stream from level 0, and writes nothing beyond it. |
| LineCoding.NrzsRoundTrip | src/bitcode.c:52-70 | Decoding inverts NRZ-S encoding for every level and bit stream. |
| LineCoding.Descram1712 | src/bitcode.c:73-91 | The 32-bit shift register computes the descrambling of the whole bit stream by the line bits 12 and 17 places back, from a cleared register. |
| LineCoding.ScrambleThenDescramble | src/bitcode.c:73-91 | The descrambler inverts the scrambler on every bit stream, from every register. |
| LineCoding.DescrambleThenScramble | src/bitcode.c:73-91 | And the other way round, so that descrambling loses nothing. |
| LineCoding.DescramblerSynchronises | src/bitcode.c:73-91 | From any two register values the outputs agree after 17 bits. |
| LineCoding.OneErrorHitsThreeBits | src/bitcode.c:73-91 | Flipping line bit i flips output bits i, i + 12 and i + 17, as far as they exist, and no others. |
| Hdlc.RemoveBitStuffing | src/bitcode.c:94-187 | The loops over octets and bits, with the two jumps, terminate on every input and compute the deframer's run over the bit stream; at most out_max octets are written, and 0 is returned exactly if that run ends at an accepted flag. |
| Hdlc.TakeBit | src/bitcode.c:115-181 | One turn of the inner loop is one step of the deframer, and drops the rest of the octet exactly where the source sets `j = 0`. |
| Hdlc.StoreBit | src/bitcode.c:127-147 | One data bit is stored: the octet is emitted when complete, and no octet goes beyond out_max. |
| FrameRoundTrip.ReceiveBody | src/bitcode.c:94-187 | Any stretch of stuffed data, of any length, is received as that data, whatever count of ones the stretch starts with. |
| FrameRoundTrip.ClosingFlagAccepts | src/bitcode.c:148-170 | A flag at any bit offset that closes at least sixteen whole octets ends the run with success. |
| FrameRoundTrip.OtherFlagRestarts | src/bitcode.c:148-170 | Any other flag starts a new frame at the next input octet. |
| FrameRoundTrip.FrameIsReceived | src/bitcode.c:94-187 | One or more opening flags, stuffed data of at least sixteen octets whose first five bits are not all 1, a closing flag and any tail: the deframer succeeds with exactly that data. |
| FrameRoundTrip.FiveOnesAreLost | src/bitcode.c:154-159 | If they are all 1 and only 0 bits follow the closing flag, the frame is lost. |
| FrameRoundTrip.AcceptedOnlyAtFlag | src/bitcode.c:94-187 | For every input, success means that a flag on the line ends the frame: the run succeeds on the stream up to that flag's last bit, with the same result, and not on one bit less; at least sixteen octets stand before it and the count of bits is at an octet boundary. |
| FrameRoundTrip.ClosedOnce | src/bitcode.c:94-187 | There is only one such flag. |
| FrameConverse.AcceptedIsFramed | src/bitcode.c:94-187 | The converse in the receiver's own terms: for every accepted stream without an abort sequence up to its closing flag, whatever follows, the octets returned are what stands, unstuffed by a count that begins at 5, between the octet after an opening flag and the closing flag; or that and one more 1 bit whose stuffed 0 is the flag's own. |
| FrameConverse.OneBitTooMany | src/bitcode.c:148-170 | The second case occurs: whole octets and one bit too many are accepted, for every such stream in which that bit is the fifth 1 in a row. |
| NoisyStart.AnyFlagEndsOrRestarts | src/bitcode.c:113-184 | From every state the deframer can be in at the beginning of an octet, a flag in that octet ends a frame with success or starts a new one at the next octet. |
| NoisyStart.FrameAfterNoise | src/bitcode.c:94-187 | A frame is received behind any whole number of octets of anything and a flag, unless the noise with that flag is itself accepted; then that is the result. |
| NoisyStart.ShortNoiseIsNoFrame | src/bitcode.c:94-187 | Fourteen octets of noise and a flag are never accepted. |
| SentAndReturned.ReturnedAsSentIff | src/bitcode.c:94-187 | The converse against AX.25: if the accepted flag closes a frame of AX.25 and no abort came before, the frame's data are returned, all of them and nothing else, if and only if its opening flag ends with an octet and they do not start with five 1 bits. |
| SentAndReturned.ReturnedIsSentIff | src/bitcode.c:94-187 | What is returned is AX.25 data between some flag and the closing flag if and only if a flag ends just before the receiver's first octet, and five 1 bits stand neither there nor before the closing flag. |
| SentAndReturned.WhatWasSent | src/bitcode.c:94-187 | Of data returned in step, the line carried those data; or, if they start with 11111 0, the data without that 0; or six 1 bits first, which AX.25 never sends in data. |
| SentAndReturned.ExtraZeroReturned | src/bitcode.c:154-178 | For every frame of 7 modulo 8 bits, 127 at least, that starts with five 1 bits: it is accepted, with a 0 after the fifth bit that was not in the data. |
| SentAndReturned.ExtraZeroExample | src/bitcode.c:154-178 | One such stream of 144 bits, with aligned flags and without abort. |
| SentAndReturned.MisalignedFlagLosesBits | src/bitcode.c:153-162 | A flag one bit off the octet boundary: the seven bits behind it are lost, whatever they are, and the octets after them are accepted. |
| SentAndReturned.OneBitTooManyExample | src/bitcode.c:148-170 | A stream in which one bit too many is accepted. |
| Aborts.AbortIsTakenForData | src/bitcode.c:148-178 | For every frame with seven 1 bits in it, at any place: the ones are stored, what follows them in the octet is dropped, the frame goes on with the next octet, and it is accepted with both parts if together they are whole octets. |
| Aborts.AbortExample | src/bitcode.c:148-178 | One such stream: sixteen octets that end with an abort, accepted with the abort in them. |
| Bitcode.BitcodeNrz2Ax25 | src/bitcode.c:189-238 | The whole decoder, with its buffers, equals the composition of line decoding, deframing and bit reversal on sync word and data joined, with the source's length checks. |
| Bitcode.LineCodesCancel | src/bitcode.c:213-224 | For both framings the line decoding of a transmission is the frame that was sent. |
| Bitcode.RoundTrip | src/bitcode.c:189-238 | For framing 1 and 3, every payload of at least sixteen octets whose first five transmitted bits are not all 1, any number of flags and any tail, the decoder returns 0 and exactly the payload, cut to out_max. |
| Bitcode.RoundTripFromAnyStart | src/bitcode.c:189-238 | The round trip from every line level and every scrambler register of the transmitter, with two opening flags for framing 1 and four for framing 3. |
| Bitcode.ReceivedWasFramed | src/bitcode.c:189-238 | The converse in the receiver's terms: whenever 0 is returned and the decoded stream has no abort sequence up to the closing flag, the octets are those of a payload of at least sixteen octets, cut to out_max, that stands in the stream as `AcceptedIsFramed` says. |
| Bitcode.ReceivedAsSentIff | src/bitcode.c:189-238 | The same against AX.25: if the closing flag closes a frame of AX.25 in the decoded stream, the octets returned are the data of that frame, if and only if its opening flag ends with an octet and the data do not start with five 1 bits. |
| Bitcode.FiveOnesFail | src/bitcode.c:154-159 | The excluded payloads fail when only 0 bits follow. |
| Bitcode.RecoveredIffNotFiveOnes | src/bitcode.c:189-238 | With only 0 bits after the frame, a payload of at least sixteen octets is recovered if and only if its first five transmitted bits are not all 1. |
| Bitcode.AllOnesPayloadIsLost | src/bitcode.c:154-159 | Sixteen octets of 0xFF, padded to whole octets with 0 bits, are such a lost payload. |
| Bitcode.SuccessNeedsFlag | src/bitcode.c:189-238 | For every input, 0 is returned only with a closing flag in the decoded stream, the one that ends the run, at an octet boundary of the count and behind at least sixteen octets, which are returned if out_max allows. |
| Bitcode.Refused | src/bitcode.c:194-224 | Any other framing, fewer than sixteen octets and more than 512 give return code 1 and nothing. |
| Pn9.BitcodePn9 | src/bitcode.c:240-253 | The loop whitens the input as the function does that the theorems describe, and leaves the rest of the buffer. |
| Pn9.FlipsWhereNoiseIs | src/bitcode.c:240-253 | Bit by bit: position p of octet b is flipped exactly where bit 8b + p - 1 of the sequence is 1 that starts with nine 1 bits and then adds those nine and four places back. |
| Pn9.KeyIsNoise | src/bitcode.c:245-251 | The keystream is that sequence, the low bit of each octet first. |
| Pn9.WhitenTwice | src/bitcode.c:240-253 | Whitening twice gives back any input of any length. |
| Pn9.RegisterInRange | src/bitcode.c:240-253 | The register stays nonzero and below 512. |
| Pn9.Recurrence | src/bitcode.c:245-251 | The bits follow x^9 + x^5 + 1. |
| Pn9.SequenceHasPeriod511 | src/bitcode.c:240-253 | The bit sequence repeats after 511 bits. |
| Pn9.PeriodNeeds511 | src/bitcode.c:240-253 | Every period of the bit sequence is a multiple of 511. |
| Pn9.KeyRepeats | src/bitcode.c:240-253 | The keystream octets repeat after 511 octets. |
| Pn9.NoShorterPeriod | src/bitcode.c:240-253 | No shorter shift repeats even the first two octets, so the period is exactly 511. |
| SoftCrc.CheckCrc | src/main.cpp:3532-3582 | The nested loops, the masks and the comparison with the packet's tail decide acceptance as specified, for one and two octets, reflected or not. |
| SoftCrc.RegisterIsSerial | src/main.cpp:3538-3545 | The octet-wise loop computes the bit-serial CRC of the data. |
| CrcDivision.AcceptsIffRemainder | src/main.cpp:3532-3582 | The two-octet check is polynomial division, for every packet, initial value, polynomial and final value: a packet is accepted if and only if, with the initial value added to its first sixteen bits, it leaves the final value as remainder; one no longer than its CRC is not checked. |
| CrcDivision.RegisterIsRemainder | src/main.cpp:3538-3545 | After any data the register is the remainder of the data, the initial value added, followed by sixteen zeros. |
| CrcDivision.RemainderIsUnique | src/main.cpp:3538-3545 | Division leaves one remainder only. |
| CrcDivision.AcceptsOneOctetIffRemainder | src/main.cpp:3532-3582 | The one-octet check is the same division by the low octet of the polynomial. |
| CrcDivision.ReflectedOutput | src/main.cpp:3553-3557 | Output reflection, with input reflection or without, is the same check on packets whose CRC is sent in reverse. |
| CrcDivision.ReflectedWider | src/main.cpp:3554-3556 | Reflected in 24 bits only the high octet is left, in 32 bits nothing. |
| CrcDivision.AcceptsMoreOctets | src/main.cpp:3532-3582 | With more than two octets the register, the final value added, is compared with the last two. |
| CrcDivision.NarrowShiftBits | src/main.cpp:3546-3551 | Every bit of that register after a shift. |
| SoftCrc.AppendedCrcIsAccepted | src/main.cpp:3532-3582 | A packet is accepted if and only if its last two octets are the register xored with the final value. |
| SoftCrc.AcceptedResidue | src/main.cpp:3532-3582 | Running the register on through the tail leads exactly the accepted packets to one fixed value. |
| SoftCrc.BurstIsDetected | src/main.cpp:3532-3582 | With two unreflected octets, any initial value, any final xor and any polynomial with bit 0 set, an accepted packet damaged anywhere within 16 consecutive bits, in data, tail or across both, is rejected. |
| SoftCrc.EvenPolynomialMisses | src/main.cpp:3532-3582 | Without bit 0 every accepted packet with any data has a burst that goes undetected. |
| SoftCrc.DetectsBurstsIff | src/main.cpp:3532-3582 | Whatever the initial value and the final xor, every burst in every accepted packet is detected if and only if the polynomial has bit 0 set. |
| SoftCrc.ReflectedInput | src/main.cpp:3539-3540 | Input reflection is the same check on mirrored octets. |
| SoftCrc.LowOctetIsCrc8 | src/main.cpp:3546-3551 | The low octet of the unmasked 16-bit register is the textbook 8-bit CRC throughout. |
| SoftCrc.OneOctetCheck | src/main.cpp:3532-3582 | So the one-octet check accepts exactly what the textbook CRC accepts. |
| LogQueue.DropsFewest | src/web/log_backend_web.c:149-185 | The records dropped make room, and one fewer would not. |
| LogQueue.EnqueuedFits | src/web/log_backend_web.c:149-185 | The queue never outgrows the ring. |
| LogQueue.SentIsLongestRun | src/web/log_backend_web.c:222-296 | A reply is the longest run of whole pending lines that fits the buffer. |
| LogQueue.ReplyReadsBack | src/web/log_backend_web.c:255-282 | A reply cut at its newlines has one line for each record sent, in order, with its time stamp and its text. |
| LogQueue.StampReads | src/web/log_backend_web.c:255-270 | The stamp reads as hour, minute and second, or as question marks if the time was not known. |
| LogQueue.PollMakesProgress | src/web/log_backend_web.c:222-296 | If the buffer holds any one line and lines are pending, the cursor strictly advances. |
| LogQueue.EveryRecordOnce | src/web/log_backend_web.c:222-296 | Over every interleaving of log lines and polls, a client that feeds back the cursor gets every record at most once and in order, and every record up to its cursor exactly once unless it was overwritten before it was read. |
| LogQueue.HistoryIsLogged | src/web/log_backend_web.c:149-185 | The records the client's are compared with are the lines logged that fit the ring, numbered from 1. |
| LogRing.HeaderDecodes | src/web/log_backend_web.c:168-182 | Reading a stored header back gives the record's number, epoch and length. |
| LogRing.OldestIsFirst | src/web/log_backend_web.c:128-147 | In a ring that holds an encoded queue, the length field at the tail delimits exactly the oldest record, so the corrupt case does not arise. |
| LogRing.CircularExtends | src/web/log_backend_web.c:99-111 | Writing at the head appends to the bytes between tail and head, wrapping or not. |
| LogRing.WebLog.RingPut | src/web/log_backend_web.c:99-111 | Appends to the contents. |
| LogRing.WebLog.RingPeek | src/web/log_backend_web.c:114-124 | Reads the bytes at a position, wrapping or not. |
| LogRing.WebLog.DropOldest | src/web/log_backend_web.c:128-147 | On any bytes whatever: nothing to drop, a length that points beyond the contents and flushes everything, or one entry dropped. |
| LogRing.WebLog.MakeRoom | src/web/log_backend_web.c:161-166 | The loop drops the fewest oldest records that make room, never meets the corrupt case and never gives up. |
| LogRing.WebLog.EnqueueLine | src/web/log_backend_web.c:149-185 | The ring refines the queue: fewest oldest records dropped, the new one appended, numbers consecutive and ending before the next one; a line too big changes nothing. |
| LogRing.WebLog.ReadSince | src/web/log_backend_web.c:222-296 | Writes the longest run of whole pending lines that fits, and returns the number of the last one. |
| LogRing.WebLog.HeadSeq | src/web/log_backend_web.c:298-304 | Returns the number before the next one, which is that of the newest record if there is one. |
| DnsResolver.RunIsSafe | src/main.cpp:1451-1593 | The invariant holds in every run, over every interleaving of callers, timeouts and callbacks, late and repeated ones among them. |
| DnsResolver.OneInside | src/main.cpp:1514-1593 | At most one thread is past the lock. |
| DnsResolver.CallbackWritesOnlyItsCaller | src/main.cpp:1472-1508 | In every run a callback writes a caller's variable only while that caller is inside, with the very query the callback answers. |
| DnsResolver.OnlyCallbacksWrite | src/main.cpp:1472-1508 | Nothing else writes it. |
| DnsResolver.ZeroMeansResolved | src/main.cpp:1514-1593 | In every run, a call that returns 0 leaves in its variable an address that a successful callback delivered for its own query. |
| DnsAnswers.ReturnsZeroIff | src/main.cpp:1472-1593 | In every run: a caller whose wait did not time out returns 0 if and only if the last callback for its own query before it read the result was a success, -1 otherwise, whatever happens afterwards; and it has the address of that callback unless another for the same query follows. |
| DnsAnswers.OnlyReadingReturnsZero | src/main.cpp:1514-1593 | A call returns 0 only by reading the result. |
| DnsAnswers.UndisturbedCall | src/main.cpp:1472-1593 | From every state with the mutex free, a call that nobody disturbs has exactly the outcome and leaves exactly the state that the world's answer asks for: no route, query refused, no answer, failure, or success with the address. |
| DnsAnswers.EveryThreadCanCall | src/main.cpp:1472-1593 | After every run that leaves the mutex free every thread can make a call, which succeeds if its query is answered. |
| DnsAnswers.OwnerReturns | src/main.cpp:1514-1593 | A thread that has the mutex comes nearer to its return with every statement that is not a wait, no other step takes it back, and at its return the mutex is free. |
| DnsAnswers.ContextIsForgotten | src/main.cpp:1522-1593 | When a call has returned the context no longer points to its variable, unless it issued no query. |
| DnsResolver.WokenByOwnCallback | src/main.cpp:1514-1593 | In every run a wait that does not time out was ended by a callback of the caller's own query. |
| DnsResolver.StaleContextIsUnreachable | src/main.cpp:1522-1536 | The exit without a NAT64 route leaves the context pointing at a finished call; in no run can a callback reach it. |
| ConnectionMachine.ConnectedIsEarned | src/main.cpp:3975-4012 | In every run, CONNECTED is entered with an address resolved and the poll descriptor on the current session; from MQTT_CONNECT in its wait loop if and only if no send of the CONNACK handler failed. |
| ConnectionMachine.ConnectedOnlyByConnack | src/main.cpp:1639-1677 | No turn enters CONNECTED without a CONNACK with result 0. |
| ConnectionMachine.CleanSessionUntilAccepted | src/main.cpp:2321 | In every run, an attempt asks for a clean session exactly if no CONNACK with result 0 came before it. |
| ConnectionMachine.ElevenFailures | src/main.cpp:3945-3973 | In every run, DNS_RESOLVE is left for ERROR exactly at the eleventh failure in a row. |
| ConnectionMachine.ServesCurrentSession | src/main.cpp:3975-4054 | In every run, whenever an inner loop runs or the state is CONNECTED, the descriptor polled is the session opened last. |
| ConnectionProgress.RecoversFromAnywhere | src/main.cpp:3923-4271 | From every state a run can reach, CONNECTED is reached after exactly as many turns as the distance of the state says, at most five, if the network is there and the broker accepts. |
| ConnectionProgress.SmoothTurnExists | src/main.cpp:3923-4271 | Such a turn is possible in every state. |
| ConnectionProgress.BrokenConnectionIsRemade | src/main.cpp:4032-4092 | A connection found broken in the connected loop is two such turns away from the next, without a DNS query. |
| ConnectionProgress.GivesUpAfterFifteen | src/main.cpp:3984-4008 | Without an answer the wait loop takes fifteen turns and ends in ERROR. |
| ConnectionProgress.WaitVerdict | src/main.cpp:3985-4004 | A turn of the wait loop ends in CONNECTED exactly if the broker accepts and the connection stays open, goes on exactly if nothing happens, and ends in ERROR otherwise. |
| ConnectionProgress.ServeVerdict | src/main.cpp:4032-4120 | A turn of the connected loop leads to MQTT_CONNECT exactly if the loop finds the connection broken, to ERROR exactly if only the library reports its end, and stays exactly otherwise. |
| ConnectionProgress.AttemptVerdict | src/main.cpp:3975-4012 | A turn in MQTT_CONNECT makes one attempt on a new socket and waits for the answer exactly if TLS comes up. |
| ConnectionProgress.AcceptedIsServed | src/main.cpp:4014-4032 | From CONNECTED the connected loop is entered, at once or when the wait loop is left. |
| ConnectionProgress.DnsStandsTenFailures | src/main.cpp:3945-3973 | Every visit to DNS_RESOLVE, from whatever state, stands ten failures, and the eleventh leads to ERROR. |
| ConnectionProgress.WaitsForThread | src/main.cpp:3925-3943 | Without Thread the machine goes from ERROR to WAIT_THREAD and stays there, without a query or an attempt. |
| ConnectionMachine.FailedSendIsForgotten | src/main.cpp:1639-1677 | A run of four turns in which CONNECTED is entered from ERROR. |
| ConnectionMachine.TwoPacketsWouldBreakIt | src/main.cpp:1639-1677 | The promise rests on one packet per library call: a CONNACK after a DISCONNECT in the same call would enter CONNECTED from ERROR. |
| ConnectionMachine.Firmware.MqttEvtHandler | src/main.cpp:1639-1677 | The handler's statements, with the DISCONNECT it may receive inside itself, have the effect specified. |
| ConnectionMachine.Firmware.OuterIteration | src/main.cpp:3923-4270 | One turn of the `switch` has the effect specified. |
| ConnectionMachine.Firmware.ConnectIteration | src/main.cpp:3985-4008 | One turn of the wait loop has the effect specified. |
| ConnectionMachine.Firmware.ServeIteration | src/main.cpp:4032-4120 | One turn of the connected loop has the effect specified. |
| ConfigSync.Station.SyncConfig | src/main.cpp:2748-2944 | The block, field by field and with the rewrite, equals the specified synchronisation of memory, NVS, file and snapshot. |
| ConfigSync.SecondBootChangesNothing | src/main.cpp:2748-2944 | A second boot with nothing changed in between leaves memory, NVS, file and snapshot as they are. |
| ConfigSync.UntouchedFieldsAreKept | src/main.cpp:2748-2944 | Within one boot with a snapshot, every field whose extracted value is the same in file and snapshot keeps the value NVS had loaded, in memory and in NVS. |
| ConfigSync.LeftOverComesBack | src/main.cpp:2930-2941 | Whatever is stored between two boots, the second applies to it the edits of a file that the first left in place, and none if the file was written anew. |
| ConfigSync.StoredValueSurvivesIff | src/main.cpp:2748-2944 | For each of the eight fields: a value stored between two boots survives the second if and only if the file was written anew, or the file left has no edit of the field, or the edit has the same value. |
| ConfigSync.StoredAltitudeIsLost | src/main.cpp:2897-2930 | A run in which a stored altitude is lost: 50.4 is adopted, prints as 50, the file stays, 500 is stored, and the next boot puts 50.4 back. |
| ConfigSync.EditsAreAdopted | src/main.cpp:2748-2944 | A value in range that differs from the snapshot reaches memory and NVS, for each of the eight fields. |
| ConfigText.AdoptedIff | src/main.cpp:2778-2886 | Exactly, for all eight fields, with a snapshot or without: the value read is adopted if and only if it is in range and differs from what the snapshot says. |
| ConfigText.ReadsSwitch | src/tinygs_json.cpp:279-291 | On every text: behind the first occurrence of the key and blanks, `true` or 1 reads as 1, `false` or 0 as 0, anything else leaves the default. |
| ConfigText.ReadsString | src/tinygs_json.cpp:253-265 | A string is what stands between the first occurrence of the key and the next quotation mark, cut to the buffer; nothing without that mark. |
| ConfigText.ReadsNumber | src/tinygs_json.cpp:245-273 | A number is what the C library makes of the text behind the first occurrence of the key. |
| ConfigText.ReadsNothing | src/tinygs_json.cpp:245-291 | Without the key the defaults are left. |
| ConfigText.FindsFirst | src/tinygs_json.cpp:246-247 | The search finds the first occurrence, and nothing exactly if there is none. |
| ConfigText.NumberIsFoundIff | src/main.cpp:2895-2912 | In a file the device writes, before it is cut to its buffer, the search for a number or the switch ends at what is printed for it, if and only if none of the three strings spells its key. |
| ConfigText.NameCanHideTheSwitch | src/main.cpp:2895-2912 | With a certain station's name the file reads as if the switch were set, whatever it is. |
| ConfigText.DeviceReadsItsFile | src/main.cpp:2895-2912 | The device reads its own file back: every coordinate as printed, whether the switch is set, and the log level, each under its own key. |
| ConfigText.NumberEditsInDeviceFileAreAdopted | src/main.cpp:2778-2912 | Edits of numbers and of the switch in a file the device wrote are adopted, exactly those in range that differ as printed; all other fields keep what memory holds. |
| ConfigText.LocationIsSavedWhole | src/main.cpp:2823-2834 | An edit of one coordinate saves all three. |
| ConfigText.CutAtTheBuffer | src/main.cpp:2895-2918 | The file is what the format says, cut to 383 characters. |
| ConfigText.LongFileIsCut | src/main.cpp:2749-2766 | Of a file only the first 383 characters are read. |
| ConfigText.NoFileNoEdits | src/main.cpp:2748-2944 | Without a file nothing is edited and the rendering is written. |
| ConfigSync.MirrorIsKept | src/main.cpp:2748-2944 | Memory and NVS stay copies of each other. |
| ConfigSync.FileDiffersOnlyAfterRejectedEdit | src/main.cpp:2930-2941 | After boot the file differs from the snapshot if and only if it was edited and the rendering nevertheless came out as the old snapshot. |
| ConfigSync.StringKeyIsAbsent | src/main.cpp:2836-2841 | In a file the device writes, a string search key occurs only if one of the three values, with its quotation marks, spells it out; and exactly then if the file fits the buffer. |
| ConfigSync.FileShape | src/main.cpp:2895-2912 | The file field by field: station, user and password under their names, each with a blank after the colon, and then the numbers. |
| ConfigSync.StringKeyOccursIff | src/main.cpp:2897-2899 | The same for the file before it is cut to its buffer, as an equivalence. |
| ConfigSync.UnquotedSpellsNoKey | src/main.cpp:2836-2841 | Values without quotation marks spell no key. |
| ConfigSync.NameCanSpellItsKey | src/main.cpp:2897-2899 | A station's name that does. |
| ConfigSync.StringEditsInDeviceFileAreMissed | src/main.cpp:2836-2841 | So string edits in a file the device wrote are never picked up, unless a value spells out a key. |
| ConfigSync.SameTextNoEdits | src/main.cpp:2748-2944 | A file equal to its snapshot carries no edits. |
| VbusDebounce.UsbPoll.WorkHandler | src/main.cpp:2618-2658 | One poll has the effect specified, on the 32-bit clock. |
| VbusDebounce.TogglesWhen | src/main.cpp:2625-2645 | Exactly when a poll of a run switches the stack. |
| VbusDebounce.ToggleNeedsStableLevel | src/main.cpp:2618-2658 | In every run, with the clock wrapping, the stack is switched only if all polls over at least the last 2000 ms read the same level, and to that level. |
| VbusDebounce.MatchedIff | src/main.cpp:2618-2658 | Exactly when a poll leaves the level matched: it was before, or the poll comes at least 2000 ms after the change modulo 2^32 and can switch. |
| VbusDebounce.MatchedSinceIff | src/main.cpp:2618-2658 | Over the whole run: a level is matched if and only if it was when it appeared, or some poll since then met that condition. |
| VbusDebounce.FirstSeenMatchedIff | src/main.cpp:2618-2658 | Where a level is first seen it is matched if and only if, at the start, it is absent or could be enabled, and later the level before was not matched. |
| VbusDebounce.TogglesAreFarApart | src/main.cpp:2618-2658 | Any two toggles are more than 2000 ms apart. |
| VbusDebounce.ConstantLevelIsMatched | src/main.cpp:2618-2658 | A level that stays is matched at every poll from 2000 ms to less than 2^32 ms after its change, if enabling succeeds. |
| VbusDebounce.MatchedLevelStaysMatched | src/main.cpp:2618-2658 | And it stays matched at every later poll, however late, while it is constant. |
| VbusDebounce.WrapHidesTheChange | src/main.cpp:2628-2629 | A run in which one poll exactly 2^32 ms after the change misses it. |
| VbusDebounce.ShortGapsDoNotHelp | src/main.cpp:2628-2629 | A run in which a level stays unmatched for more than 2^32 ms although no two polls are that far apart. |
| DayNumbers.FnDate | lib/AioP13/src/AioP13.cpp:105-121 | The statements compute the specified date. |
| DayNumbers.RoundTrip | lib/AioP13/src/AioP13.cpp:92-121 | `fndate` inverts `fnday` on every valid date from 1 March of year 0 on, under the every-fourth-year leap rule. |
| DayNumbers.RoundTripIff | lib/AioP13/src/AioP13.cpp:92-121 | On all valid dates it does so if and only if the date is not before that day. |
| DayNumbers.NextDayNextNumber | lib/AioP13/src/AioP13.cpp:92-101 | The next date has the next day number. |
| DayNumbers.DayOfYear | lib/AioP13/src/AioP13.cpp:92-101 | Counted from day 0 of January, the day number is the day of the year. |
| DayNumbers.DayNumberIs | lib/AioP13/src/AioP13.cpp:92-101 | Day 1 is 1 January of year 1, and every later date has the number of days from there. |
| DayNumbers.EpochIsNthDay | lib/AioP13/src/AioP13.cpp:373-391 | The epoch composed from two-digit year and fractional day is that day of that year. |
| DayNumbers.EpochIsDayOfItsYear | lib/AioP13/src/AioP13.cpp:373-391 | Two digits stand for the years 1958 to 2057, and the epoch is that day of that year. |
| FormParser.HexNibble | src/web/web_ui.cpp:145-151 | Not negative exactly for the 22 hexadecimal digits. |
| FormParser.NibbleIsDigitValue | src/web/web_ui.cpp:145-151 | It is the place of the digit in 0 to 9 and A to F, in either case, and -1 for everything else. |
| FormParser.DecodeInto | src/web/web_ui.cpp:168-187 | The decoding loop writes the decoded value cut to the room beside the NUL, and nothing behind it. |
| FormParser.FormGet | src/web/web_ui.cpp:153-194 | Returns whether the lookup finds the key and leaves its decoded value, cut and terminated; on a miss the empty string. |
| FormParser.DecodesLikeTheStandard | src/web/web_ui.cpp:169-187 | The one-pass decoder does what section 5.1 of the WHATWG URL Standard does in two: replace each plus sign, then percent-decode. |
| FormParser.DecodeInvertsEncode | src/web/web_ui.cpp:170-187 | Decoding inverts the standard's encoding for every string. |
| FormParser.FindsFirstValue | src/web/web_ui.cpp:153-194 | In every submitted list of fields, with any octets in names and values, the lookup finds the first value stored under the name, and fails exactly if there is none. |
| FormParser.ConfigNamesArePlain | src/web/web_ui.cpp:829-919 | The names the form handler asks for meet the condition of that theorem. |
| FormParser.FindsFirstReachable | src/web/web_ui.cpp:162-191 | For every body whatever, the lookup returns the first pair under the key that does not directly follow a segment without `=`. |
| FormParser.AllPairsAreReachable | src/web/web_ui.cpp:162-191 | When every segment is a pair, that is the first pair under the key, and there is none exactly if no name matches. |
| FormParser.PairAfterBareNameIsMissed | src/web/web_ui.cpp:163-164 | A body in which a pair is missed. |
| ConfigPage.BatchIsCompleteIff | src/web/web_ui.cpp:700-719 | A batch holds all its rows exactly if together they leave room for the NUL. |
| ConfigPage.BatchIsComplete | src/web/web_ui.cpp:607 | With names of at most 31 characters thirty rows always fit the body. |
| ConfigPage.Handler.RenderOptions | src/web/web_ui.cpp:700-719 | The loop leaves the whole rows that fit in the body, and returns their length. |
| ConfigPage.Handler.Handle | src/web/web_ui.cpp:756-980 | One callback has the effect on the statics and the reply specified, for every status, method and state; the reply of a form is the body the form handler runs on. |
| ConfigPage.NothingIsLeftBehind | src/web/web_ui.cpp:770-775 | After any sequence of requests, each cut off anywhere, the state is the initial one. |
| ConfigPage.GetSendsThePage | src/web/web_ui.cpp:941-980 | After any such sequence an authorized GET sends the page, or as much of it as the client waits for. |
| ConfigPage.PageIsWhole | src/web/web_ui.cpp:941-980 | The page is the header, every option exactly once and in order for any table, and the footer as the only final chunk, in 2 + count / 30 chunks, rounded up. |
| ConfigPage.RowReadsBack | src/web/web_ui.cpp:706-712 | Each option reads as its index, as its zone's name, and as selected exactly if it is the zone set. |
| ConfigPage.DecimalReads | src/web/web_ui.cpp:709 | The index is printed in decimal digits that spell it, without leading zeros. |
| ConfigPage.PostIsHandledWhole | src/web/web_ui.cpp:778-941 | After any such sequence an authorized POST is answered once, its form is handled with what its own pieces leave in the buffer, and that is all its data if and only if they are at most 1024 octets. |
| ConfigPage.OutsiderGetsNothing | src/web/web_ui.cpp:802-805 | Without the password, whatever the state, the reply is the 401 alone. |
| ConfigForm.Form.Post | src/web/web_ui.cpp:830-928 | The form handler: every field present and not empty is stored, cut to its buffer, the check box is cleared if absent, NVS stays a copy of memory, and the result says whether a restart is asked for. |
| ConfigForm.StoredIsSubmitted | src/web/web_ui.cpp:830-928 | On the body of a submitted list of fields the handler stores the first value of each field. |
| ConfigForm.SubmittedFormIsStored | src/web/web_ui.cpp:756-942 | The whole way: after any requests, an authorized POST of a submitted list of fields that fits the buffer, in whatever pieces, stores exactly what was submitted. |
| ConfigForm.OversizedFormClearsTx | src/web/web_ui.cpp:778-928 | After any requests, an authorized POST whose pieces are each too large for the buffer is answered with the saved page all the same: every text and number stays, no restart is asked for, and transmission is switched off. |
| ConfigForm.EnteredIsStored | src/web/web_ui.cpp:830-928 | Whatever settings a user enters, the handler stores them, all nine and whatever was stored before. |
| ConfigForm.StoredOtherwise | src/web/web_ui.cpp:830-928 | Absent and empty fields keep what is stored, long texts are cut, a zone outside the table is ignored, and the check box is set only by a 1. |
| ConfigForm.RestartIff | src/web/web_ui.cpp:830-928 | A restart is asked for if and only if the station's name or the user changes or a password is given. |
| Escaping.JsonEscape | src/tinygs_json.cpp:27-44 | For any buffer, or none: returns the full length and leaves as many whole escapes as fit and the NUL, everything behind untouched. |
| Escaping.HtmlAttrEscape | src/web/web_ui.cpp:613-641 | The same for the attribute escapes. |
| Escaping.FitIsLongest | src/tinygs_json.cpp:32-35 | What is written when the buffer is too small is the longest prefix whose escapes have room. |
| Escaping.JsonRoundTrip | src/tinygs_json.cpp:27-44 | The escaped text is a JSON string that stands for the source, if and only if the source holds no control character (section 7 of RFC 8259). |
| Escaping.UnescapeInvertsEscape | src/tinygs_json.cpp:27-44 | A reader that takes what follows a backslash for itself gets the source back, whatever it holds. |
| Escaping.HtmlRoundTrip | src/web/web_ui.cpp:613-641 | The escaped text reads back as the source and holds no quote or angle bracket that could end the attribute. |
| Escaping.NeverTruncatesIff | src/tinygs_json.cpp:27-44 | A buffer takes every string of a source buffer in full if and only if it holds the source's capacity times 2 (JSON) or 5 (attribute), and the NUL. |
| Escaping.BuffersSuffice | src/tinygs_protocol.cpp:94-135 | modem_conf, satellite, the stored adv_prm, the station's name and the MQTT user are never truncated in the buffers given. |
| Escaping.BuildAdvPrm | src/tinygs_json.cpp:46-62 | Returns -1 or the length of the message, which then stands in the buffer whole; its value is what reads as a C string from the static buffer, which is described for every source, and is the escaped source if that fits. |
| Escaping.StoredAdvPrmFits | src/tinygs_json.cpp:46-62 | For every stored adv_prm the message needs at most 524 characters and its value reads back as the source, if that holds no control character. |
| Escaping.MessageIsObject | src/tinygs_json.cpp:46-62 | The whole message is a JSON object with the one member `adv_prm` that stands for the source, if and only if the source holds no control character. |
| LandRuns.Generate | scripts/gen_dashboard_gz.py:156-173 | The nested loops yield the runs of the bitmap: maximal, in row-major order, and painting exactly the set bits. |
| LandRuns.LandIsBit | scripts/gen_dashboard_gz.py:156-173 | A pixel is the bit of its octet at the position its number names, the low bit first, rows joined without padding. |
| LandRuns.RunsAreUnique | scripts/gen_dashboard_gz.py:156-173 | For every width, height and bitmap there is only one such list. |
| LandRuns.RunsAreDisjoint | scripts/gen_dashboard_gz.py:156-173 | No pixel is painted twice. |

## Left out

* Zephyr, OpenThread, mbedTLS, RadioLib, the MQTT library, the HTTP server, FATFS and NVS are not modelled.
  Writes to NVS and files succeed; what the libraries do is a step or an input chosen freely.
* Fault handlers, LEDs, ADC, display, fonts, PNG and gzip, timezone rules, shell and serial scripts.
* Orbit propagation, and time-of-day fractions of dates: trigonometry and floating point.
* `tinygs_parse_begine`, which lives on a JSON library, and the reconfiguration of the radio.
- Bitcode.RoundTrip: opening flags are octet-aligned, because the decoder drops the rest of an octet after a flag; abort sequences are not part of the transmitter.
- Bitcode.ReceivedWasFramed: streams with seven 1 bits in a row before the closing flag are excluded, because an abort is taken for data and the rest of its octet is dropped (`AbortIsTakenForData`); what follows the closing flag is free.
- Bitcode.FiveOnesFail: stated for tails of 0 bits, because an arbitrary tail may happen to hold a frame of its own.
- SoftCrc.BurstIsDetected: stated without reflection; `ReflectedInput` and `ReflectedOutput` carry it over to packets with reflected octets or a reflected CRC.
- LogQueue.EveryRecordOnce: sequence numbers do not wrap in the history of a client, although `EnqueueLine` itself wraps them at 2^32; the local time of a record is a parameter of the reader.
- LogRing.WebLog.ReadSince: the spinlock is not modelled, each call is atomic, as it makes the calls in the source.
- ConfigText.DeviceReadsItsFile: that the C library reads a number it printed, followed by a comma or a newline, as the value printed is a condition on the library.
- DnsResolver.RunIsSafe: a callback is one atomic step, and query numbers do not wrap at 2^32.
- ConnectionMachine.ConnectedIsEarned: a library call handles at most one packet and then closes at most once, and a run lies between two reboots; the silence watchdog, SNTP, the radio and the web user interface of the loop are left out.
- ConfigSync.StringEditsInDeviceFileAreMissed: values that spell out a search key are excluded, because the device prints quotation marks as they are and such a value can be found (`NameCanSpellItsKey`).
- ConfigSync.Station.SyncConfig: numbers are reals, so that rounding and NaN do not occur, and number parsing and printing are parameters; log messages are left out.
- VbusDebounce.UsbPoll.WorkHandler: the reboot after a changed configuration on unplugging is left out; a run ends there.
- DayNumbers.RoundTrip: doubles are exact reals and longs unbounded.
- ConfigPage.Handler.Handle: requests do not overlap, and the texts of header, footer and saved page are tokens; what the form handler does with the body is in `ConfigForm`.
- ConfigForm.Form.Post: numbers are reals, `strtof` and `strtoul` are parameters, and applying the timezone to the C library is left out.
- ConfigPage.PageIsWhole: the timezone index is cut to 16 bits when the name is looked up, as in the source, so beyond 65536 zones names would repeat.
- Escaping.JsonRoundTrip: the reader does not know `\u` escapes, which are never written.
- LandRuns.Generate: the bitmap has a bit for every pixel; the script stops with an IndexError otherwise.
