# Verified models of the network programming examples

This project models the algorithms and protocols in the UNIX Network Programming example code
(`unpv13e/`), the TFTP server (`server.c`) and the word-guessing server (`unpv13e/hw2_server.c`),
and proves their correctness properties. One file per component:

| file | what it models |
|---|---|
| `ThreadPool.dfy`, `ThreadPoolProgress.dfy` | the prethreaded server: a ring of 32 descriptors, one mutex, one condition variable, N workers |
| `Prefork.dfy`, `PreforkProgress.dfy` | the preforked server that passes descriptors to N children over stream pipes |
| `BoundedBuffer.dfy` | the bounded buffer shared by a producer and a consumer thread |
| `SignalQueue.dfy` | the UDP echo server whose SIGIO handler fills a ring that the main loop empties |
| `Inet4.dfy`, `Inet6.dfy` | printing and parsing of IPv4 and IPv6 addresses |
| `Inet6Text.dfy`, `Inet6Exact.dfy` | what is printed for which bytes, and exactly which texts are parsed to what |
| `Rtt.dfy`, `ReliableUdp.dfy` | the round-trip-time estimator and the reliable request/reply over UDP |
| `NonblockingClient.dfy` | the nonblocking echo client with two buffers in one select loop |
| `Readline.dfy` | the byte-at-a-time and the buffered readline |
| `AddrList.dfy` | the service part of getaddrinfo: port filling and cloning on a linked list |
| `WebScheduler.dfy` | the nonblocking web client that keeps up to N connections busy |
| `SelectServer.dfy` | the select server with its client table and ready countdown |
| `Checksum.dfy` | the Internet checksum and its use for UDP datagrams |
| `WordMatch.dfy` | the scoring of a guess |
| `TftpSender.dfy` | the packets a TFTP read request produces |
| `Ring.dfy` | index arithmetic of a ring, shared by the three ring buffers |
| `Counting.dfy` | counting and summing over sequences, shared by the others |

How the source is represented:

- Code that updates memory is a class or a method over arrays and fields, proved against functions
  of the old and new contents.
- Concurrent code appears twice: its critical sections in place on the shared array, and the whole
  system as a state machine with a program counter per thread. A step is one statement; only the
  preforked parent's statements from the accept to the write on the pipe are merged into one step,
  and those on one scanned child into another, since all but the first and the last concern a table
  that no child reads. A run is an arbitrary sequence of
  events; every theorem about runs quantifies over all of them. A mutex, a condition variable (with
  spurious wake-ups), signal masks and pipes are part of the state.
- The kernel and the network are choices: what select reports, how many bytes a read or write moves,
  which descriptor number is free, which datagrams arrive when, how often an alarm goes off. They
  are unconstrained (`*`, `:|`), or an arbitrary script or event sequence passed in.
- Integer widths are written out where they matter: 16-bit words and block numbers, the 32-bit
  checksum accumulator, 32-bit sequence numbers and time stamps. `float` is `real`.

Where the source does not do what one may expect, the exact condition is proved, with an input that
shows it:

- `unpv13e/libfree/inet_pton.c:134` says that `::` in a full address is silently ignored. With eight
  groups the code clears every group behind it, so it is ignored if and only if those groups are
  zero (`FullIgnoredIffZero`); `1:2:3:4::5:6:7:8` becomes `1:2:3:4::` (`FullLosesTail`).
- The checksum equals the complement of the one's complement sum if and only if the 32-bit
  accumulator did not wrap (`ExactUnlessWrapped`); it does for 131076 bytes of ones
  (`FirstWrongMessage`), and for no message of up to 131074 bytes.
- Both versions of readline return one more than the number of bytes stored, unless the stream ends
  or has a newline before the buffer is full (`ReturnedCountsStored`, `FullBufferReturnsOneMore`).
- `ga_port` gives one entry per address and type if and only if no type is passed twice
  (`OneEachUnlessRepeated`, `TwiceTheSameType`).
- `inet_ntop4` does not count the terminator: a returned text has room for it if and only if its
  length is not exactly the size given (`TerminatorFits`, `TerminatorLeftOut`).
- The web client with a connection limit below 1 ends up in a select on empty sets
  (`WebScheduler.Web.Fetch`, `LimitZero`).

## Model

| member | source | states |
|---|---|---|
| ThreadPool.ConnRing.constructor | unpv13e/server/serv08.c:27 | the ring starts empty |
| ThreadPool.ConnRing.Put | unpv13e/server/serv08.c:40-44 | appends the descriptor to the pending queue; the quit test fires exactly when 31 were already pending, and then no pending slot was changed |
| ThreadPool.ConnRing.Take | unpv13e/server/pthread08.c:24-26 | removes exactly the oldest pending descriptor |
| ThreadPool.PendingPut | unpv13e/server/serv08.c:40-43 | storing and advancing iput extends the queue by one at the end; the new index meets iget exactly when 31 were pending |
| ThreadPool.PendingTake | unpv13e/server/pthread08.c:24-26 | advancing iget drops the head of the queue and nothing else |
| ThreadPool.RingThreadStep | unpv13e/server/pthread08.c:20-28 | every statement of a worker keeps the ring equal to what was stored and not yet taken |
| ThreadPool.RingMainStep | unpv13e/server/serv08.c:39-46 | every statement of the main thread keeps the ring equal to what was stored and not yet taken |
| ThreadPool.LockThreadStep | unpv13e/server/pthread08.c:20-28 | mutual exclusion, and what a lock holder relies on, survive every worker statement |
| ThreadPool.WakeThreadStep | unpv13e/server/pthread08.c:22-23 | no worker statement uncovers a pending connection while some thread sleeps |
| ThreadPool.WakeStep | unpv13e/server/serv08.c:45-46 | neither does the signal, a spurious wake-up or any other event |
| ThreadPool.CountStep | unpv13e/server/pthread08.c:28 | thread_count over all workers, plus those between removal and counting, is the number of connections taken |
| ThreadPool.Preserved | unpv13e/server/serv08.c:35-47 | the whole invariant is inductive over all events of all threads |
| ThreadPool.Always | unpv13e/server/serv08.c:35-47 | it holds after every schedule, for every number of workers |
| ThreadPool.TakenInOrder | unpv13e/server/pthread08.c:24-28 | in every run connections leave in the order they came, each taken once; the counters never exceed what was taken |
| ThreadPool.RingHoldsPending | unpv13e/server/serv08.c:41-44 | in every run the ring holds exactly the pending connections; with the 32nd the server quits instead of overwriting |
| ThreadPool.SleepersAreCovered | unpv13e/server/pthread08.c:20-28 | no lost wake-up: with the mutex free and some thread waiting, at most as many connections are pending as there are signalled threads on their way back |
| ThreadPool.NotAllAsleep | unpv13e/server/pthread08.c:20-28 | with the mutex free, a pending connection always leaves some worker that is awake and can take its next step |
| ThreadPool.ServedThreadStep | unpv13e/server/pthread08.c:24-31 | every worker statement keeps: each worker has served, in order, what it took, but for the one in hand, and thread_count counts those it started |
| ThreadPoolProgress.MeasureStep | unpv13e/server/pthread08.c:20-32 | every statement of every thread uses up a measure that only a new connection or a spurious wake-up raises |
| ThreadPoolProgress.RunsAreFinite | unpv13e/server/serv08.c:35-47 | no run is longer than 17 steps per accepted connection, 4 per spurious wake-up and 3 for each thread to start, so no worker stays behind for ever |
| ThreadPoolProgress.QuietIsIdle | unpv13e/server/pthread08.c:20-32 | a state in which nothing can happen by itself has main in accept, all workers asleep and an empty ring |
| ThreadPoolProgress.EverythingServed | unpv13e/server/serv08.c:35-47 | a run that cannot go on by itself has taken exactly the accepted connections in order, each served once by its worker and counted, and the server accepts; the only other end is the quit with 32 pending |
| ThreadPoolProgress.NextIsTaken | unpv13e/server/pthread08.c:20-28 | from any reached state with a connection pending, some schedule takes exactly that one next, if and only if the 32nd pending connection is not already on its way onto the ring |
| ThreadPoolProgress.DoomedStays | unpv13e/server/serv08.c:40-44 | once it is, nothing more is taken |
| Prefork.FirstFree | unpv13e/server/serv05.c:54-56 | the first child with status 0, or the number of children |
| Prefork.ChildTable.constructor | unpv13e/server/serv05.c:30-36 | all children start available |
| Prefork.ChildTable.Assign | unpv13e/server/serv05.c:54-62 | with navail counting the available children, the quit happens exactly when there is none; otherwise the first available one is marked, counted and subtracted |
| Prefork.ChildTable.Collect | unpv13e/server/serv05.c:71-80 | although the countdown may leave the loop early, every ready child and no other becomes available, and navail follows |
| Prefork.StatusParentStep | unpv13e/server/serv05.c:50-80 | each parent statement keeps status equal to the tokens of a child: descriptor in the pipe, child at work, ready byte in flight |
| Prefork.ScanParentStep | unpv13e/server/serv05.c:58-79 | each parent statement keeps nsel equal to the ready children not yet scanned, and never reaches "no available children" |
| Prefork.StatusChildStep | unpv13e/server/child05.c:40-50 | each child statement moves its token without duplicating or dropping it |
| Prefork.HistoryParentStep | unpv13e/server/serv05.c:60-64 | a new connection goes to one child's pipe, behind everything it was given before |
| Prefork.HistoryChildStep | unpv13e/server/child05.c:41-49 | a child finishes what it was given, in that order |
| Prefork.Preserved | unpv13e/server/serv05.c:43-81 | the whole invariant is inductive over parent and children |
| Prefork.Always | unpv13e/server/serv05.c:43-81 | it holds after every schedule, for every number of children |
| Prefork.StatusIsExact | unpv13e/server/serv05.c:43-81 | every run: status is 1 iff exactly one of the three token places is occupied; navail counts the rest; "no available children" is unreachable |
| Prefork.ServedAtMostOnce | unpv13e/server/child05.c:40-50 | every run: no two services, finished or in progress, by one child or two, are of the same connection |
| Prefork.EveryConnectionAccounted | unpv13e/server/serv05.c:60-64 | every run: each accepted connection is finished, in service or in the pipe at exactly one child and nowhere at any other, and child_count sums to the connections accepted |
| Prefork.AvailableChildIsDone | unpv13e/server/child05.c:46-49 | every run: a child marked available has finished everything it was ever given |
| Prefork.BusyChildComesBack | unpv13e/server/serv05.c:45-47 | every run: when the parent sits in select, it can return for a connection or a ready byte, or some child can move |
| PreforkProgress.MeasureStep | unpv13e/server/serv05.c:43-81 | every step of parent and children uses up a measure that only a reported new connection raises |
| PreforkProgress.RunsAreFinite | unpv13e/server/child05.c:40-50 | no run is longer than 2n + 9 steps per connection, so no child stays away for ever |
| PreforkProgress.EverythingServed | unpv13e/server/serv05.c:43-81 | a run that cannot go on by itself has accepted every reported connection and finished it at its child, child_count is what each child finished, all are available, and the parent listens |
| BoundedBuffer.Buffer.Store | unpv13e/threads/example03.c:72-75 | appends the value to the buffer's contents |
| BoundedBuffer.Buffer.Fetch | unpv13e/threads/example03.c:93-97 | removes exactly the oldest value |
| BoundedBuffer.BufferStepProducer | unpv13e/threads/example03.c:65-79 | every producer statement keeps indices, item count and slot contents in step |
| BoundedBuffer.BufferStepConsumer | unpv13e/threads/example03.c:87-101 | so does every consumer statement |
| BoundedBuffer.Preserved | unpv13e/threads/example03.c:62-130 | the whole invariant, with mutual exclusion and the wake-up conditions, is inductive |
| BoundedBuffer.RunKeeps | unpv13e/threads/example03.c:62-130 | it holds after every run |
| BoundedBuffer.ConsumedIsPrefix | unpv13e/threads/example03.c:62-104 | every run: consumed is a prefix of produced, 0 <= nitems <= 10, and outside the critical sections nextput == (nextget + nitems) mod 10 with the buffer holding the difference in order |
| BoundedBuffer.NeverStuck | unpv13e/threads/example03.c:67-78 | every run: never both asleep, and some thread can move unless both loops are over |
| BoundedBuffer.MeasureStep | unpv13e/threads/example03.c:106-130 | every step lowers a measure; a spurious wake-up raises it by at most nine |
| BoundedBuffer.RunsAreFinite | unpv13e/threads/example03.c:106-130 | no run exceeds 40 steps per iteration plus 18, plus ten per spurious wake-up |
| BoundedBuffer.BothLoopsFinish | unpv13e/threads/example03.c:106-130 | a run that only spurious wake-ups could extend has finished both loops, and the consumer got 0, 1, 2, ... in order |
| SignalQueue.EchoQueue.constructor | unpv13e/sigio/dgecho01.c:38-43 | eight empty slots and a zero histogram |
| SignalQueue.EchoQueue.SigIo | unpv13e/sigio/dgecho01.c:85-107 | the handler reads until nothing is left or the queue is full, stores consecutively with wrap, and counts itself in the histogram unless it quits |
| SignalQueue.StoreAllHolds | unpv13e/sigio/dgecho01.c:89-104 | datagrams that fit land behind those queued and overwrite none of them |
| SignalQueue.EchoQueue.Interrupted | unpv13e/sigio/dgecho01.c:79-108 | a signal anywhere in the window appends what arrived; it quits exactly when the queue would reach eight |
| SignalQueue.EchoQueue.EchoOne | unpv13e/sigio/dgecho01.c:62-72 | one pass with signals before the send, after it and after ++iget sends the oldest datagram and keeps the rest in order |
| SignalQueue.MainKeeps | unpv13e/sigio/dgecho01.c:57-73 | every main-loop statement keeps the ring invariant, off by one between ++iget and nqueue-- |
| SignalQueue.SignalKeepsRing | unpv13e/sigio/dgecho01.c:85-106 | a handler run at any open point keeps it |
| SignalQueue.SignalKeepsHistory | unpv13e/sigio/dgecho01.c:85-107 | and keeps the histogram equal to the datagrams read |
| SignalQueue.Preserved | unpv13e/sigio/dgecho01.c:57-108 | the whole invariant is inductive over arrivals, signals and main-loop statements |
| SignalQueue.Always | unpv13e/sigio/dgecho01.c:57-108 | it holds after every schedule |
| SignalQueue.EchoedInOrder | unpv13e/sigio/dgecho01.c:64-65 | every run: sent is a prefix of received, which is a prefix of arrived, at most eight apart |
| SignalQueue.IndicesAgree | unpv13e/sigio/dgecho01.c:67-72 | every run: iput == (iget + nqueue) mod 8, one more than that exactly between ++iget and nqueue-- |
| SignalQueue.SlotBeingSentIsStable | unpv13e/sigio/dgecho01.c:64-72 | every run: no handler writes the slot of the datagram being sent, from unblocking until nqueue-- |
| SignalQueue.HistogramAddsUp | unpv13e/sigio/dgecho01.c:107 | every run: the sum of k * cntread[k] is the number of datagrams read by completed handlers |
| SignalQueue.NoLostSignal | unpv13e/sigio/dgecho01.c:56-59 | every run: while the loop is suspended everything received has been sent, and anything further that arrived has SIGIO pending |
| SignalQueue.WorkStep | unpv13e/sigio/dgecho01.c:57-73 | every main-loop statement uses up work that only a handler run adds |
| SignalQueue.MainStepsAreBounded | unpv13e/sigio/dgecho01.c:57-73 | the main loop makes at most seven steps per datagram read and one per wake-up |
| SignalQueue.EverythingEchoed | unpv13e/sigio/dgecho01.c:57-108 | a run in which neither the loop nor a pending signal can do more has echoed exactly what arrived, in order, unless a handler overflowed |
| Inet4.InetNtop4 | unpv13e/libfree/inet_ntop.c:86-101 | the dotted text, or ENOSPC exactly when it is longer than `size` |
| Inet4.TerminatorFits | unpv13e/libfree/inet_ntop.c:95-99 | a text that is returned fits with its NUL in `size` bytes if and only if it has not exactly `size` characters; 16 are always enough |
| Inet4.TerminatorLeftOut | unpv13e/libfree/inet_ntop.c:95-99 | 10.0.0.1 is returned for size 8 |
| Inet4.InetPton4 | unpv13e/libfree/inet_pton.c:87-125 | the in-place loop computes the parse function; the destination changes only on success, and only in four bytes |
| Inet4.DottedLength | unpv13e/libfree/inet_ntop.c:91-94 | the text has 7 to 15 characters, so the 16-byte scratch buffer never overflows |
| Inet4.DigitTable | unpv13e/libfree/inet_pton.c:91-102 | the digits of both conversions are those of the source's table |
| Inet4.DecCanonical | unpv13e/libfree/inet_ntop.c:91-94 | a number is printed in decimal without leading zeros |
| Inet4.DottedFields | unpv13e/libfree/inet_ntop.c:91-94 | the text is the four numbers with dots between them |
| Inet4.ParseDotted | unpv13e/libfree/inet_pton.c:98-124 | parsing the printed text of any four bytes gives them back |
| Inet4.Pton4Exact | unpv13e/libfree/inet_pton.c:98-124 | accepted are exactly four dot-separated decimal numbers below 256, leading zeros allowed, and the result is their values |
| Inet6.LoadWords | unpv13e/libfree/inet_ntop.c:132-134 | the bytewise copy gives the eight words of the address |
| Inet6.FindBestRun | unpv13e/libfree/inet_ntop.c:135-156 | the run found is the leftmost longest zero run of at least two words, or none when there is none |
| Inet6.LeftmostLongestIsUnique | unpv13e/libfree/inet_ntop.c:137-156 | that description determines the run |
| Inet6.FormatWords | unpv13e/libfree/inet_ntop.c:161-186 | the formatting loop writes the text form, with "::" leading, inner or trailing, and both dotted tails |
| Inet6.InetNtop6 | unpv13e/libfree/inet_ntop.c:109-198 | the text form for the leftmost longest run, or ENOSPC exactly when it and its terminator do not fit |
| Inet6.ShiftTail | unpv13e/libfree/inet_pton.c:205-217 | the overlapping shift moves the bytes after "::" to the end and clears the gap; with no gap it clears them |
| Inet6.ShiftedIsTheGap | unpv13e/libfree/inet_pton.c:205-217 | for the bytes in the buffer, the shift equals prefix ++ zeros ++ suffix if and only if the address was not full or the suffix is all zero |
| Inet6.ScanText | unpv13e/libfree/inet_pton.c:159-204 | the scanning loop computes the scanner function on the shared buffer, zero above the cursor |
| Inet6.InetPton6 | unpv13e/libfree/inet_pton.c:140-224 | the whole parser computes the parse function; the destination changes only on success |
| Inet6.ScanDotted | unpv13e/libfree/inet_pton.c:191-195 | a dotted tail is accepted although its first octet is read as a hexadecimal token first |
| Inet6.ParseShortened | unpv13e/libfree/inet_pton.c:155-220 | text with "::" parses to the words before it, the right number of zeros, and the bytes after it |
| Inet6.ParseEmbedded | unpv13e/libfree/inet_pton.c:155-220 | both forms with an embedded IPv4 address parse to the address they were printed for |
| Inet6.ParseWithoutRun | unpv13e/libfree/inet_pton.c:155-220 | eight groups without "::" parse to their words |
| Inet6.ParseAnyShortened | unpv13e/libfree/inet_pton.c:155-220 | groups with one "::", however many: below eight it stands for the missing zeros, with eight everything behind it is cleared, above eight the text is refused |
| Inet6.ParseFull | unpv13e/libfree/inet_pton.c:205-217 | eight groups with "::" anywhere among or around them: the groups before it, then zeros |
| Inet6.ParseFullDotted | unpv13e/libfree/inet_pton.c:191-217 | six groups and a dotted tail with "::" among them: the tail is cleared too |
| Inet6.FullIgnoredIffZero | unpv13e/libfree/inet_pton.c:134 | in a text of eight groups "::" is ignored, as the comment promises, if and only if every group behind it is zero |
| Inet6.FullLosesTail | unpv13e/libfree/inet_pton.c:205-217 | 1:2:3:4::5:6:7:8 parses to 1:2:3:4:0:0:0:0 |
| Inet6.ParsePrinted | unpv13e/libfree/inet_pton.c:140-224 | parsing the printed text of any sixteen bytes gives them back |
| Inet6.TextFits | unpv13e/libfree/inet_ntop.c:122-192 | every text and its terminator fit in 40 bytes, so the 46-byte scratch buffer never overflows |
| Inet6.PrintThenParse | unpv13e/libfree/inet_pton.c:140-224 | printing into 40 or more bytes and parsing the result always succeeds and returns the same sixteen bytes |
| Inet6Text.TextOfMapped | unpv13e/libfree/inet_ntop.c:174-179 | ten zero bytes and two of ones: "::ffff:" and the dotted form |
| Inet6Text.TextOfCompatible | unpv13e/libfree/inet_ntop.c:174-179 | twelve zero bytes and two not both zero: "::" and the dotted form |
| Inet6Text.DottedExactly | unpv13e/libfree/inet_ntop.c:173-180 | the text has a dot if and only if the address is of one of these two kinds |
| Inet6Text.TextOfRun | unpv13e/libfree/inet_ntop.c:162-186 | otherwise "::" stands in place of the leftmost longest run of two or more zero words, between the groups before and behind |
| Inet6Text.TextOfNone | unpv13e/libfree/inet_ntop.c:162-183 | without two zero words in a row: all eight words with colons between them |
| Inet6Exact.HexTable | unpv13e/libfree/inet_pton.c:145-166 | the digits of both conversions are those of the source's two tables |
| Inet6Exact.HexCanonical | unpv13e/libfree/inet_ntop.c:181 | a word is printed in lower-case hexadecimal without leading zeros |
| Inet6Exact.GroupsFields | unpv13e/libfree/inet_ntop.c:170-183 | the printed groups are the words with colons between them |
| Inet6Exact.Pton6Exact | unpv13e/libfree/inet_pton.c:140-224 | the accepted texts and their values, exactly, from the colon-separated fields: one gap, groups of up to 16 bits in either case with leading zeros, an empty or dotted last field, two colons at the start |
| Inet6Exact.TrailingColon | unpv13e/libfree/inet_pton.c:175-190 | a colon after eight groups is tolerated |
| Rtt.MinMax | unpv13e/lib/rtt.c:12-20 | a timeout in [2, 60] is unchanged, a smaller one becomes 2 and a larger one 60 |
| Rtt.RoundIsNearest | unpv13e/lib/rtt.c:65 | the alarm is the timeout rounded to the nearest second |
| Rtt.RttInfo.Start | unpv13e/lib/rtt.c:62-67 | so is the value returned |
| Rtt.RttInfo.Init | unpv13e/lib/rtt.c:22-35 | the initial estimate, the first timeout of 3 seconds, and the time base |
| Rtt.RttInfo.Stop | unpv13e/lib/rtt.c:80-102 | one sample updates mean and deviation with gains 1/8 and 1/4, and the timeout is srtt + 4 rttvar, held to [2, 60] |
| Rtt.RttInfo.Timeout | unpv13e/lib/rtt.c:111-119 | doubles the timeout without clamping and gives up after the fourth timeout |
| Rtt.ConstantSamples | unpv13e/lib/rtt.c:93-99 | n equal samples r: srtt == r + (7/8)^n (s0 - r) and rttvar == (3/4)^n v0 + 2 abs(s0 - r) ((7/8)^n - (3/4)^n) |
| Rtt.PowersOrdered | unpv13e/lib/rtt.c:94-99 | both decay factors stay in (0, 1], the deviation's being the smaller |
| Rtt.EstimatesBounded | unpv13e/lib/rtt.c:93-99 | any samples up to m keep srtt in [0, m] and rttvar in [0, max(0.75, m)] |
| Rtt.TimestampAge | unpv13e/lib/rtt.c:52 | the difference of two time stamps is the true elapsed time modulo 2^32 ms |
| Rtt.TimersBounded | unpv13e/lib/rtt.c:62-66 | the four doubled timers of a call lie between 2 and 480 seconds and sum to at most 900 |
| ReliableUdp.Client.Begin | unpv13e/rtt/dg_send_recv.c:26-54 | a call keeps the estimate and timeout of the last one, or starts from the initial ones at first and after giving up; a fresh sequence number and no retransmissions |
| ReliableUdp.Client.Transmit | unpv13e/rtt/dg_send_recv.c:60-61 | each request carries this call's number and payload and the time stamp of its own sending |
| ReliableUdp.Client.AwaitReply | unpv13e/rtt/dg_send_recv.c:81-86 | the first datagram with a full header and the current sequence number, or the first alarm, decides the wait, and nothing else does |
| ReliableUdp.AnswerIsAccepted | unpv13e/rtt/dg_send_recv.c:81-92 | a matching reply before the alarm is accepted, after exactly the transmissions made so far |
| ReliableUdp.AlarmSendsAgain | unpv13e/rtt/dg_send_recv.c:68-79 | an alarm first means another transmission, or the end after the fourth |
| ReliableUdp.NothingIsWaitedFor | unpv13e/rtt/dg_send_recv.c:81-86 | with neither, the client goes on waiting |
| ReliableUdp.Client.Exchange | unpv13e/rtt/dg_send_recv.c:56-86 | one to four transmissions, one timer each, giving up only after the fourth |
| ReliableUdp.Client.Accept | unpv13e/rtt/dg_send_recv.c:88-90 | the sample is the age of the transmission answered, modulo 2^32 ms, and updates the estimate |
| ReliableUdp.SameCall | unpv13e/rtt/dg_send_recv.c:86 | below 2^32 calls, equal sequence numbers mean the same call |
| ReliableUdp.ArmedBounds | unpv13e/rtt/dg_send_recv.c:63 | the alarms of a call obey the timer bounds |
| ReliableUdp.Client.SendRecv | unpv13e/rtt/dg_send_recv.c:18-93 | for any script of losses, duplicates, reordering and alarms: how the call ends and after how many transmissions, which timers were armed, that an accepted reply is this call's request cut to 4088 bytes and the caller's buffer, and that the sample is that request's age |
| ReliableUdp.TwiceCut | unpv13e/rtt/dg_echo.c:10-15 | the two cuts together: a prefix of the request, as long as request, 4088 bytes and buffer allow |
| ReliableUdp.Client.Session | unpv13e/rtt/dg_send_recv.c:18-93 | over any number of calls below 2^32, every accepted reply is its own call's payload, whole if it fits both buffers |
| NonblockingClient.StrCli.ReadStdin | unpv13e/nonblock/strclinonb.c:43-61 | the bytes read extend the pending window in its buffer; end of file with nothing pending sends FIN |
| NonblockingClient.StrCli.ReadSocket | unpv13e/nonblock/strclinonb.c:65-84 | the bytes read extend the other window; end of file returns only after stdin has ended |
| NonblockingClient.StrCli.WriteStdout | unpv13e/nonblock/strclinonb.c:90-103 | what is written is the front of the window; an emptied window is rewound |
| NonblockingClient.StrCli.WriteSocket | unpv13e/nonblock/strclinonb.c:106-121 | likewise for the socket, with FIN when the window empties after the end of stdin |
| NonblockingClient.StdinKeeps | unpv13e/nonblock/strclinonb.c:43-61 | reading stdin loses no byte and sends FIN only when it is due |
| NonblockingClient.SocketKeeps | unpv13e/nonblock/strclinonb.c:65-84 | reading the socket loses no byte |
| NonblockingClient.StdoutKeeps | unpv13e/nonblock/strclinonb.c:90-103 | a partial write moves the boundary between shown and pending |
| NonblockingClient.SendKeeps | unpv13e/nonblock/strclinonb.c:106-121 | a partial write moves the boundary between sent and pending; FIN follows the last byte, once |
| NonblockingClient.PassKeeps | unpv13e/nonblock/strclinonb.c:28-122 | select always has something to wait for, and whatever it answers a pass keeps the whole invariant |
| NonblockingClient.PassMoves | unpv13e/nonblock/strclinonb.c:42-122 | exactly which bytes a pass reads and writes, and when FIN goes out |
| NonblockingClient.PassEnds | unpv13e/nonblock/strclinonb.c:42-121 | a pass returns if and only if the socket ended after stdin had, and dies if and only if a call failed or the socket ended first |
| NonblockingClient.PassProgresses | unpv13e/nonblock/strclinonb.c:42-121 | what is ready moves: offered bytes are read when there is room, pending ones written when their writer takes any |
| NonblockingClient.StrCli.Pass | unpv13e/nonblock/strclinonb.c:28-122 | the pass in place on the two buffers, for an arbitrary kernel; no read has size 0 |
| NonblockingClient.RunKeeps | unpv13e/nonblock/strclinonb.c:27-123 | runs of any length: each output is a prefix of its input, the difference being the pending window; at most one FIN, exactly when all of stdin has been read and written, and nothing after it |
| NonblockingClient.RunIsPasses | unpv13e/nonblock/strclinonb.c:27-123 | a run is its passes one after the other, up to one that ends the program |
| NonblockingClient.RunEnds | unpv13e/nonblock/strclinonb.c:27-123 | a run that ended did so in a pass with exactly that reason |
| NonblockingClient.StrCli.Run | unpv13e/nonblock/strclinonb.c:27-123 | the loop in place performs exactly the passes of the kernel's script, until one ends the program, with all of this |
| Readline.StoredIsTheLine | unpv13e/lib/readline.c:35-45 | a call stores the longest prefix that fits with no newline but perhaps the last byte |
| Readline.OnlyTheLineIsStored | unpv13e/lib/readline.c:35-45 | that description determines how many bytes are stored |
| Readline.ReturnedCountsStored | unpv13e/lib/readline.c:35-48 | the return value is the number of bytes stored if and only if the stream has fewer than maxlen - 1 bytes or a newline among the first maxlen - 1; otherwise maxlen - 1 bytes are stored and maxlen is returned |
| Readline.FullBufferReturnsOneMore | unpv13e/lib/readline.c:35-48 | with "ab" and maxlen 2 one byte is stored and 2 is returned |
| Readline.SlowReader.ReadLine | unpv13e/test/readline1.c:5-30 | the byte-at-a-time version stores the line and a NUL, changes nothing else, and consumes exactly the line, for any EINTR placement |
| Readline.BufferedReader.MyRead | unpv13e/lib/readline.c:8-26 | one byte of read-ahead window ++ unread stream, or the end, or an error |
| Readline.BufferedReader.Refill | unpv13e/lib/readline.c:13-20 | the refill loop moves bytes from the stream to the window and loses none |
| Readline.BufferedReader.ReadLine | unpv13e/lib/readline.c:28-49 | the buffered version does the same to window ++ stream as the slow one to the stream |
| Readline.BufferedReader.ReadLineBuf | unpv13e/lib/readline.c:51-57 | returns the read-ahead window |
| Readline.NothingLost | unpv13e/lib/readline.c:28-49 | the lines of any sequence of calls and what they leave make up the stream |
| Readline.SameLines | unpv13e/lib/readline.c:8-57 | for any stream, chunkings, EINTRs and sequence of buffer sizes both versions give identical buffers and return values, and consumed ++ window ++ unread is the stream |
| AddrList.GaClone | unpv13e/libgai/ga_clone.c:13-29 | the clone is fresh, has its own socket address with the same contents, is unflagged and linked in behind the original |
| AddrList.FillIn | unpv13e/libgai/ga_port.c:47-62 | sets the type, and for both Internet families the port and the count |
| AddrList.PortOneIs | unpv13e/libgai/ga_port.c:37-62 | what becomes of one entry, field by field, and when it is counted |
| AddrList.CountedAreServed | unpv13e/libgai/ga_port.c:47-64 | every counted entry ends up with the port and the type |
| AddrList.CloneAt | unpv13e/libgai/ga_clone.c:18-19 | inserting behind any node leaves a list that differs in that one entry |
| AddrList.FillAt | unpv13e/libgai/ga_port.c:47-62 | filling in one node changes no other entry, because addresses are unshared |
| AddrList.WalkOne | unpv13e/libgai/ga_port.c:38-62 | one iteration, which may grow the list it walks, handles one original entry and moves on to the next |
| AddrList.GaPort | unpv13e/libgai/ga_port.c:30-65 | terminates, and turns the list into the image of every original entry in order; returns the number of entries filled in; all nodes and socket addresses stay unshared |
| AddrList.AfterCallsConcat | unpv13e/libgai/ga_port.c:37-63 | addresses do not influence each other, whatever the calls |
| AddrList.NewType | unpv13e/libgai/ga_port.c:38-47 | a call with a new type adds one clone right behind the address and finds one entry, or none for a local address |
| AddrList.GroupAfterCalls | unpv13e/libgai/ga_port.c:8-27 | one address after k calls with distinct types: itself with the first type, then clones, last type first |
| AddrList.OneEntryPerAddressAndType | unpv13e/libgai/ga_port.c:8-27 | n addresses of any families after k calls with distinct types: in original order, each followed by its clones |
| AddrList.OncePerType | unpv13e/libgai/ga_port.c:8-27 | each type occurs once per address, with the address's own data and that call's port, or its old port if it is local |
| AddrList.EachCallFindsAll | unpv13e/libgai/ga_port.c:53-64 | each of these calls returns the number of Internet addresses |
| AddrList.AllInternet | unpv13e/libgai/ga_port.c:49-62 | which is n without local ones |
| AddrList.GaPortEach | unpv13e/libgai/ga_port.c:30-65 | k calls with distinct types on the linked list itself: terminates, the list is the groups of entries in order, unshared, and every call returns the number of Internet addresses |
| AddrList.EntriesPerTypeAreCalls | unpv13e/libgai/ga_port.c:38-47 | with repeated types, an address has as many entries of a type as there were calls with it |
| AddrList.OneEachUnlessRepeated | unpv13e/libgai/ga_port.c:38-47 | exactly one entry per type if and only if no type is passed twice |
| AddrList.TwiceTheSameType | unpv13e/libgai/ga_port.c:38-47 | two calls with one type leave an address with two entries of it |
| AddrList.GaServ | unpv13e/libgai/ga_serv.c:7-57 | leaves the list of its one or two ga_port calls and returns 0, EAI_NONAME or EAI_SERVICE by what they found |
| AddrList.StreamThenDatagram | unpv13e/libgai/ga_port.c:13-16 | without a type hint, for both transports or a port number: IP#1 stream, IP#1 datagram, IP#2 stream, ... with their types and ports |
| AddrList.GivenType | unpv13e/libgai/ga_serv.c:18-45 | with a type hint each address has one entry, with that type and the port of that transport |
| AddrList.OneTransport | unpv13e/libgai/ga_serv.c:34-45 | so it has without one, for a service known for one transport |
| AddrList.UnknownService | unpv13e/libgai/ga_serv.c:34-55 | a service not known for what is asked leaves the list alone and finds nothing |
| WebScheduler.Web.constructor | unpv13e/nonblock/web.c:15-29 | at most 20 files, none started, empty sets |
| WebScheduler.Web.WriteGetCmd | unpv13e/nonblock/write_get_cmd.c:13-17 | the file is reading, its descriptor watched for reading, maxfd raised |
| WebScheduler.Web.StartConnect | unpv13e/nonblock/start_connect.c:12-30 | a connection in progress is watched both ways, an immediate one for reading only |
| WebScheduler.Web.StartNext | unpv13e/nonblock/web.c:35-42 | starts the first file not yet started and keeps all counters and sets exact; "nothing found" is unreachable |
| WebScheduler.Web.Fill | unpv13e/nonblock/web.c:33-43 | fills up to the limit or until no file is left; running files are untouched |
| WebScheduler.Web.Establish | unpv13e/nonblock/web.c:54-65 | an established connection leaves the write set and nothing else does |
| WebScheduler.Web.ReadOnce | unpv13e/nonblock/web.c:67-77 | end of file finishes the file and removes its descriptor only; data shortens what is left |
| WebScheduler.Web.Serve | unpv13e/nonblock/web.c:50-78 | file i takes exactly the step its flag and select's answer call for, other files none |
| WebScheduler.Web.Scan | unpv13e/nonblock/web.c:49-79 | every reported file is served once, on the descriptor it had, and no other |
| WebScheduler.WatchStarted | unpv13e/nonblock/start_connect.c:18-26 | a descriptor no active file has, possibly one a finished file had, keeps the sets exact |
| WebScheduler.WatchConnected | unpv13e/nonblock/web.c:64-65 | so does an established connection |
| WebScheduler.WatchEnded | unpv13e/nonblock/web.c:70-72 | so does a finished file: no other active file loses its descriptor |
| WebScheduler.SomeReady | unpv13e/nonblock/web.c:47-67 | whatever nonempty part of the sets select reports, some file has a step to take |
| WebScheduler.SomeoneToWaitFor | unpv13e/nonblock/web.c:45-47 | select has something to wait for if and only if connections are open |
| WebScheduler.LessWork | unpv13e/nonblock/web.c:49-79 | every pass leaves less to do |
| WebScheduler.AllDone | unpv13e/nonblock/web.c:32 | with nothing left to read, every file is done and every reply was read to its end |
| WebScheduler.Web.Fetch | unpv13e/nonblock/web.c:32-80 | with finite replies the scheduler terminates; if no call fails it fetches each file exactly once and entirely, unless the limit is below 1, when it waits for nothing; nconn never exceeds the limit |
| WebScheduler.LimitZero | unpv13e/nonblock/web.c:32-47 | one file and a limit of 0: the program waits for nothing |
| SelectServer.Server.constructor | unpv13e/tcpcliserv/tcpservselect01.c:26-31 | an empty table; only the listening socket is watched |
| SelectServer.Server.Accept | unpv13e/tcpcliserv/tcpservselect01.c:48-60 | a new client takes the first free slot; allset stays exact, every live slot within maxi and every descriptor within maxfd; "too many clients" exactly when all 1024 slots are live |
| SelectServer.Server.ServeSlot | unpv13e/tcpcliserv/tcpservselect01.c:69-76 | a ready client is echoed, or closed and removed from table and set |
| SelectServer.ReadySlots | unpv13e/tcpcliserv/tcpservselect01.c:66-69 | the ready client descriptors are as many as the slots holding them |
| SelectServer.NobodyBeyond | unpv13e/tcpcliserv/tcpservselect01.c:59-66 | no live slot lies beyond maxi, so the scan's bound leaves no ready client out |
| SelectServer.ServedExactlyTheReady | unpv13e/tcpcliserv/tcpservselect01.c:66-81 | the events of a scan are exactly one echo or close for each ready client |
| SelectServer.OneEventEach | unpv13e/tcpcliserv/tcpservselect01.c:66-81 | and no ready client has two |
| SelectServer.Server.Scan | unpv13e/tcpcliserv/tcpservselect01.c:66-81 | the countdown leaves the scan only when no ready client remains unserved, and ends at zero |
| SelectServer.NewcomerWaits | unpv13e/tcpcliserv/tcpservselect01.c:39-67 | a client accepted in a turn is not served in that turn |
| SelectServer.NoClientReady | unpv13e/tcpcliserv/tcpservselect01.c:62-63 | leaving a turn after the accept skips no ready client |
| SelectServer.Server.Turn | unpv13e/tcpcliserv/tcpservselect01.c:35-82 | one turn serves, in slot order, exactly the clients select reported, and keeps allset and the account of accepted and closed connections exact, live slots within maxi and descriptors within maxfd |
| SelectServer.Server.Run | unpv13e/tcpcliserv/tcpservselect01.c:35-82 | any number of turns keeps all of this; the server ends only because the table is full |
| Checksum.InCksum | unpv13e/libfree/in_cksum.c:3-32 | with a 32-bit accumulator; up to 131074 bytes the result is the complement of the one's complement sum |
| Checksum.FoldedIsCarried | unpv13e/libfree/in_cksum.c:28-30 | two folds add back all carries of a 32-bit sum |
| Checksum.OnesSumIsCarried | unpv13e/libfree/in_cksum.c:16-29 | adding all words first and the carries last is one's complement addition |
| Checksum.ByteWeight | unpv13e/libfree/in_cksum.c:16-25 | each byte counts with the place value of its position and host, an odd last one like a high byte in memory |
| Checksum.ExactUnlessWrapped | unpv13e/libfree/in_cksum.c:16-30 | for every length that fits an int: correct if and only if the accumulator did not wrap |
| Checksum.FirstWrongMessage | unpv13e/libfree/in_cksum.c:16-30 | 131076 bytes of ones give a wrong result on either kind of host |
| Checksum.ReceiverGetsZero | unpv13e/udpcksum/udpwrite.c:49-52 | with the checksum, or 0xffff for 0, in the zeroed field, the sum over the message checks to 0 |
| Checksum.SumsByOrder | unpv13e/libfree/in_cksum.c:16-25 | how the word sums on hosts of different byte order are related |
| Checksum.SameBytesOnEitherHost | unpv13e/libfree/in_cksum.c:16-31 | the two bytes in_cksum leaves in memory are the same on big- and little-endian hosts, odd lengths included, for up to 131074 bytes |
| Checksum.FillHeader | unpv13e/udpcksum/udpwrite.c:37-48 | the header is overwritten and the user data kept |
| Checksum.HeaderFields | unpv13e/udpcksum/udpwrite.c:37-48 | which bytes hold the lengths, the protocol, the addresses, the ports and the checksum |
| Checksum.UdpWrite | unpv13e/udpcksum/udpwrite.c:28-56 | the header in place before the user data; the checksum sent is never zero unless switched off, and the datagram checks to 0 |
| WordMatch.FirstUnused | unpv13e/hw2_server.c:66-74 | the inner loop finds an unmatched equal letter if and only if the secret has one left |
| WordMatch.CountCorrect | unpv13e/hw2_server.c:64-75 | greedy matching counts the case-folded multiset intersection, whatever the order |
| WordMatch.CountPlaced | unpv13e/hw2_server.c:57-60 | counts the positions that agree without case |
| WordMatch.LowerIdentifies | unpv13e/hw2_server.c:59 | which are those with the same character or the two cases of one letter |
| WordMatch.AgreeingIsCount | unpv13e/hw2_server.c:57-60 | the count is the number of such positions |
| WordMatch.NulNeverAgrees | unpv13e/hw2_server.c:50-60 | the NUL that replaces a newline agrees with no letter |
| WordMatch.Match | unpv13e/hw2_server.c:25-77 | -1 exactly for another length; otherwise both counts for the guess without a final newline, which is removed in place |
| WordMatch.PlacedAtMostCorrect | unpv13e/hw2_server.c:46-75 | place_correct <= correct <= length |
| WordMatch.WinExactlyWhenEqual | unpv13e/hw2_server.c:413 | for the secrets the server has, which contain no newline, the win test holds if and only if the words are equal without case; for any other secret the guess must also not end in a newline |
| TftpSender.ChunksAreTheFile | server.c:74-77 | the blocks concatenate to the file, all but the last are 512 bytes and the last is shorter, empty for a multiple of 512 |
| TftpSender.SendBlock | server.c:82-102 | one packet and as many identical repetitions as there are timeouts before a datagram, or up to the tenth timeout of the transfer |
| TftpSender.ReadData | server.c:29-107 | for any script of timeouts: what is sent are the blocks in order, each once and once more per timeout; with fewer than ten timeouts all of them; never more than size/512 + 11 sends |
| TftpSender.PacketAt | server.c:69-82 | every copy of block i, wherever it is sent, has number i + 1 modulo 2^16 and the bytes of the file from 512 i on |
| TftpSender.TranscriptLength | server.c:82-101 | sends are blocks plus timeouts |

## Left out

- Sockets, fork, signal installation, name lookups, option parsing, printing and the error-checking wrappers: only the results the modelled code sees appear.
- Inet4.InetNtop4: the copy to the destination is the returned string; the caller must give room for the terminator, see TerminatorFits.
- Inet4.Pton4Exact: the text is what precedes the terminating NUL; likewise in Inet6Exact.Pton6Exact.
- ThreadPoolProgress.EverythingServed: that the operating system schedules threads at all, and that serving a connection ends, is taken for granted.
- Prefork.BusyChildComesBack: children never die, so the exits for a terminated child or a missing descriptor are not modelled, nor is the SIGINT handler.
- SignalQueue.NoLostSignal: a handler run is one event, during which further datagrams may arrive; recvfrom errors other than EWOULDBLOCK and what the SIGHUP handler prints are not modelled.
- Rtt.ConstantSamples: reals instead of the source's float and double; rounding is not modelled.
- ReliableUdp.Client.SendRecv: the script of deliveries is arbitrary but finite, so a call may end still waiting; an alarm between alarm() and sigsetjmp, where the source has no handler context, is not modelled.
- NonblockingClient.StrCli.Run: at the return on end of file from the socket, bytes may still be waiting for stdout, as in the source; prefixes are stated, not full delivery.
- Readline.SameLines: one descriptor, no read errors other than EINTR, buffer sizes of at least 1.
- Inet6.ParseAnyShortened: groups as the printer writes them; other spellings are covered by Pton6Exact.
- AddrList.GaPort: memory allocation succeeds; ai_protocol, ai_canonname and ai_addrlen are not modelled, and AI_CLONE is the only flag.
- AddrList.GaServ: the digits test and atoi, and the two getservbyname lookups, are inputs.
- WebScheduler.Web.Fetch: home_page, the request text and the bytes of replies are not modelled; an error on a connecting socket is printed and ignored by the source and has no effect here either; after a failing call nothing is stated, because the program exits.
- SelectServer.Server.Run: descriptors at or above FD_SETSIZE and failing reads or writes are not modelled.
- Checksum.UdpWrite: the layout of the overlay header comes from system headers that are not part of this model; the rest of the IP header, filled in after the checksum, is not modelled, so the receiver's test is stated for the pseudo-header form.
- WordMatch.Match: tolower of the C locale; the guess buffer is NUL-terminated and the secret is not empty.
- TftpSender.ReadData: any datagram counts as an acknowledgement, as in the source; the not-found reply appears as one packet without its text; the block counter is unbounded before truncation to 16 bits.
- The TFTP write request (its receiver does not check block numbers) and the word game's slot table.
- threads/web02.c, threads/web03.c and tcpcliserv/tcpservpoll01.c, whose progress or slot handling differs from the modelled versions.
- readn, writen, tv_sub, the sock_* accessors and similar small loops, which would only add easy members.
