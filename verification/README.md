# Verified models from the SVR4.2 sources

Dafny models of the parts of the system that hold real algorithms, each with the properties its design relies
on. `dafny verify dfyconfig.toml` checks everything. Where the C code keeps state, the model keeps the same
state in a class or a buffer and runs the same branches and loops; each such method is tied to a function or
relation on values, and the theorems are about those.

**Regular expressions** (`common/head/regexp.h`; `common/ucbhead/regexp.h` is the same code). `RegexMeaning`
says what a pattern means, without any machine: cut points in the text, one before and one after each operator,
and which of two matches a depth-first search prefers. `RegexSyntax` has patterns as they are written and the
operators they stand for. `RegexCompile` is `compile`, writing its byte code into a buffer; `RegexRoundTrip`
proves that compiling the text of a pattern gives the encoding (`RegexCode`) of its operators. `RegexMatcher` is
`step`, `advance` and `getrnge` on the global bracket slots, `loc1`, `loc2`, `low` and `size`; `RegexSearch` holds
the facts about depth-first search, and `RegexHangs` says which patterns can make it run for ever. `RegexRoom` says
which patterns make the compiler write past its room, and `RegexUse` puts the halves together: from pattern text and
text to the answer. Text that is no pattern is the matter of `RegexErrors`, which has the error for each thing that
can be wrong behind well-written items, and of `RegexBrackets`, which says of any text whatever what the brackets and
references of its code are like if it is accepted.
Characters are taken as bytes 0 to 255, a pattern reads as NUL past its end, a text ends in NUL.

**The YHTP transport protocol** (a TCP). Each endpoint is a control block (`TcpTcb.Tcb`) with its 32-bit fields
and, as ghosts, the positions they stand for: data byte k of a stream is at position k, a FIN takes the position
after the last byte. `TcpReass` is the out-of-order queue, `TcpReceive` the reassembly routine, the YHTP_REASS
macro and the hand-over to the user, `TcpChain` the queue of message blocks, `TcpOutput` is `yhtp_output`,
`TcpInput` the specification of `yhtp_uinput` and `TcpUinput` the routine itself. A method needs segments that are
less than 2^30 away from the fields they are compared with, so that 32 bits tell their order, and a send queue
and high-water mark of at most 2^28 bytes; `yhtp_uinput` also needs `rcv_nxt` to be at most 2^29 beyond `rcv_adv`
when it is called, which every segment sent with an open window sees to (`TcpOutput.CaughtUp`). Given that, a
method does exactly what the specification on unbounded positions says. `TcpRun` lets two endpoints run over a
network that loses, duplicates and reorders, with writes, closes, reads and timer actions at any time, and proves
what holds in every run. `TcpFin` settles where a FIN is counted, `TcpSent` how far a receiver can get by what has
been sent, `TcpStray` is a run in which it gets further than `snd_max`, and `TcpWindow` holds what is sent against
what the peer has advertised. `TcpLink` is two control blocks and the wire between them: each routine called on
either of them is a step of `TcpRun`, so the theorems about all runs are theorems about the 32-bit fields.
`TcpTimers` shows that the retransmit and the persist timer never run together. What these routines are sure to do
is in `TcpSend` (what `yhtp_output` sends, advertises and holds back), `TcpTaken` (what `yhtp_uinput` takes in,
acknowledges and answers) and `TcpProgress`, which has it for every run. `TcpIo` is the lock of `yhtp_io`
with requests posted at any moment outside the protected sections.

**IP fragments and the checksum.** `IpFragment` has the fragment loop with the padding, the length trim on input,
and a gateway, which is the one after the other; `IpReass` the reassembly queues and their timer, over the same
queue discipline as `TcpReass`, and the way of a datagram from end to end; `IpTimer` how long a queue waits; `Cksum` is `yhin_cksum` over chains of
blocks with any lengths and address parities.

**The packer** (`Cpout`), the multi-volume loop of `cpout.c` with its deferral queue.

**Demultiplexing and routes.** `InPcb` has endpoint lookup, bind, connect and disconnect, and `InPcbPorts` whose a
port is after a bind and which error is given when; `RouteKeys` has network numbers and hash keys, `Route` the hashed
route table with its reference counts, and `RouteLookup` what is found in it, in terms of hosts and networks.

Some promises turn out to hold only under a condition; the condition is stated and proved exact:

- the matcher can run for ever on a starred back-reference to a bracket that took nothing. A search does so exactly
  when it comes upon such a place before it comes upon a match; and a pattern can make it do so, on some text,
  exactly when it has a starred reference that can be reached with all before it taking the least they can and
  nothing in its bracket (`RegexHangs.HangsWhen`, `RegexUse.PatternHangs`); `\(a*\)\1*` does, on "b"
  (`RegexUse.WrittenWitness`), and `\(a\)\(\1\)\2*` does on nothing (`RegexHangs.NoHangWitness`);
- `compile` writes the byte at `endbuf` exactly when a turn of its loop that writes two bytes starts one below it;
  it then always fails (`RegexCompile.PastEnd`, `RegexCompile.OverrunFails`, `RegexCompile.OverrunWitness`), so a
  caller whose buffer ends at `endbuf` must know that the pattern does not come to that. For a well-formed pattern
  it can be read off the code: an instruction or an interval of two bytes begins at `endbuf - 1`; a pattern whose
  code fits in the buffer never does it (`RegexRoom.OverrunsWhen`);
- of a FIN segment that is next in order nothing is taken into a shut window, unless the FIN alone is new;
  otherwise its FIN is counted, and where the text was cut, not after the last byte, exactly when the text goes
  past the right edge of the window, whatever is queued behind it (`TcpFin.CutsWhen`, `TcpFin.FinCutEarly`, in
  every run `TcpRun.FinCounted`, and `TcpFin.FinCutWitness`);
- a FIN sent with a window probe is not counted as sent, and its acknowledgment is refused, exactly when no FIN
  had been counted before (`TcpOutput.FinBeyondMax`, `TcpSent.StrayFinRefused`); while every FIN sent counts as
  sent, the peer's `rcv_nxt` stays at or before `snd_max` (`TcpRun.CountedIsSent`), and otherwise it need not
  (`TcpStray.StrayRun`);
- the send window, which has no sign, loses what has been acknowledged exactly unless that is more than it holds,
  as after a probe into a shut window; then it is nearly 2^32, and stays so when the segment has been dealt with
  exactly unless the window is taken from it (`TcpInput.WindowWraps`, `TcpInput.WindowWrapsWitness`);
- data that is no probe ends at or before the right edge that the peer has advertised, in every run in which the
  window does not go round and is never taken from a segment that acknowledges less than has been acknowledged
  (`TcpWindow.DataInWindow`); a window taken from such a segment can end beyond the edge (`TcpWindow.OlderWindow`);
- once the user receives no more, the macro's own path agrees with the general one only on segments without
  data (`TcpReceive.FastPathWhenShut`);
- route allocation for a route that caches a deleted entry loses a reference exactly when it finds another
  (`Route.AllocLeaks`, `Route.LeakWitness`); no caller that is modelled comes to it, for each gives a deleted entry
  back first;
- a bind that has to find a port runs for ever exactly when no port from 1024 to 5000 is free
  (`InPcb.EndsWhenFree`, `InPcb.NoneFree`);
- the packer comes to an end exactly when each file either fits a fresh volume or is found too big
  (`Cpout.EndsWhen`), and where it does not, it can put a file out twice (`Cpout.StaleAgain`); the file on a last
  line without a newline is on no volume whenever the loop ends, which it does exactly when it would without that
  line (`Cpout.LastLost`), whether or not files are queued as the line is read (`Cpout.LostBehindQueue`);
- a port that is given out by a bind is the endpoint's own, except that of two endpoints with it on the same address,
  or one of them on any, one may have asked to share (`InPcbPorts.BindOwn`, `InPcbPorts.AlwaysApart`);
- a position and one 2^31 further on are each before the other (`TcpSeq.TooFar`).

## Model

| member | source | states |
|---|---|---|
| RegexUse.Search | common/head/regexp.h:47-497 | compile and then search, end to end, for a pattern ended by the delimiter or a newline: error 50 exactly when the buffer has no room; otherwise the answer is the leftmost match of the pattern as written, with its preferred cuts, or that there is none; or it hangs, exactly where the search meets a place with no way out before a match |
| RegexUse.Find | common/head/regexp.h:272-303 | `step` on the code of a pattern answers as the meaning of the pattern says, whichever of its three loops it takes, and hangs exactly where the search does |
| RegexUse.CompilePattern | common/head/regexp.h:47-270 | `compile` leaves the code of the pattern's operators in the buffer and sets `circf` and `nodelim` |
| RegexUse.PatternHangs | common/head/regexp.h:442-453 | a pattern can hang the search, on some text, exactly when it has a starred reference that can be reached with nothing in its bracket; otherwise no text does |
| RegexUse.WrittenWitness | common/head/regexp.h:442-453 | one that is well formed and does, on a text of one character |
| RegexRoundTrip.CompileShown | common/head/regexp.h:64-270 | for every well-formed pattern, compiling its text gives the encoding of its operators and an end mark, or error 50 exactly when there is not room for that and one byte |
| RegexRoundTrip.ClassAtShown | common/head/regexp.h:120-188 | a class as written compiles to the opcode and the 16- or 32-byte map that the set calls for, ranges and negation included |
| RegexRoundTrip.IntervalShown | common/head/regexp.h:209-243 | an interval as written compiles to its two bytes |
| RegexCode.ClassTest | common/head/regexp.h:31-32 | the bit test on a map stored in the code answers membership in the class as written |
| RegexSyntax.PatternNumbered | common/head/regexp.h:193-258 | in a well-formed pattern brackets are numbered without clash and back-references look at brackets closed to their left |
| RegexCompile.Compile | common/head/regexp.h:47-270 | the routine on its buffer does what the compile function says: the code, where the pattern ended, the registers, and each error number where the code raises it; it stays in a buffer that ends at `endbuf` unless the pattern overruns |
| RegexErrors.Refused | common/head/regexp.h:87-258 | text with well-written items and something wrong behind them is refused with the error for it: 42 for a bracket left open at the delimiter or newline and for `\)` with none open, 43 for a tenth `\(`, 25 for `\d` with fewer than d brackets closed, 36 for a newline that is escaped or in sed, 49 for a class that NUL or a newline breaks off, and an interval's own error |
| RegexErrors.BoundsShown | common/head/regexp.h:209-243 | whatever is written as an interval, digits and what ends them: error 16, 11, 44, 45 or 46 exactly when its number is missing or followed by something else, 255 or more as an `int` holds it, one of three, not closed, or greater than the second; and its two bytes otherwise |
| RegexErrors.ClassBroken | common/head/regexp.h:135-138 | a class that NUL or a newline comes into before it is closed gives error 49 |
| RegexErrors.EmptyText | common/head/regexp.h:64-71 | an empty text gives error 41 exactly when there is no pattern before and it is not for sed |
| RegexBrackets.AcceptedNests | common/head/regexp.h:87-258 | whatever text is accepted, its code is that of instructions with any repetitions on them, in which brackets, nine at the most, are numbered in the order of opening, nest and are all closed, and each back-reference has more brackets closed to its left than its number |
| RegexCompile.CompileTurn | common/head/regexp.h:80-268 | one turn of the main loop, on buffer and variables |
| RegexCompile.CompileClass | common/head/regexp.h:120-188 | the class case in place: bytes of the map, the switch to the wide map, errors 49 and 50 |
| RegexCompile.CompileInterval | common/head/regexp.h:209-243 | the interval case in place, with its errors 11, 16, 44, 45 and 46 |
| RegexCompile.PastEnd | common/head/regexp.h:80-82 | a turn writes at most one byte past the room there is, and then the compilation fails |
| RegexCompile.OverrunFails | common/head/regexp.h:80-82 | so whenever the byte at `endbuf` is written the result is an error |
| RegexCompile.OverrunWitness | common/head/regexp.h:261-267 | a pattern of one character in a buffer of one byte does write it |
| RegexRoom.OverrunsWhen | common/head/regexp.h:80-82 | compiling a well-formed pattern writes the byte at `endbuf` exactly when, in the code of its operators, an instruction or an interval of two bytes begins at `endbuf - 1`; code that fits in the buffer never has that |
| RegexMatcher.Regexp.Advance | common/head/regexp.h:305-497 | running the code from any operator gives a verdict on the whole search beyond the present cuts: the first event in search order, or that there is none; on a match `loc2` and the bracket slots are those of that match |
| RegexMatcher.Regexp.Star | common/head/regexp.h:486-493 | the scan back from the longest run tries the ways on from the greatest down and stops at `locs` |
| RegexMatcher.Regexp.BackStar | common/head/regexp.h:442-453 | a starred back-reference tries whole copies from the most down |
| RegexMatcher.Regexp.Interval | common/head/regexp.h:364-430 | an interval takes its lower number and then tries up to the upper number, or 20000 more when it is open |
| RegexMatcher.Regexp.Getrnge | common/head/regexp.h:499-505 | `low` and `size` from the two bytes |
| RegexMatcher.Regexp.Step | common/head/regexp.h:272-303 | the leftmost start that matches or hangs, or none, with `loc1` |
| RegexMatcher.Regexp.StepChar | common/head/regexp.h:283-294 | the scan for a first character gives the same answer as the plain loop |
| RegexMatcher.Regexp.StepPlain | common/head/regexp.h:296-302 | the plain loop |
| RegexMatcher.AnswerIsMeaning | common/head/regexp.h:305-497 | it hangs exactly when the first thing the search comes upon has no way out; otherwise the answer is yes exactly when the pattern matches a prefix there; `loc2` ends a match, the one that is greatest at the first cut where it differs from any other; the slots hold that match's brackets |
| RegexMatcher.SlotsGiveBracket | common/head/regexp.h:356-362 | although failed attempts overwrite the slots, a back-reference reads the bounds its bracket has in the attempt in progress |
| RegexHangs.HangsWhen | common/head/regexp.h:442-453 | for any operators: some text hangs the search from its beginning if some starred reference can be reached, all before it taking the least they can, with nothing in its bracket; if none can, no text hangs it from anywhere |
| RegexHangs.StuckCanStick | common/head/regexp.h:442-453 | a search stuck at a reference, on any text, shows that this reference meets the condition |
| RegexHangs.HangsOnShortest | common/head/regexp.h:442-453 | on the shortest text that reaches such a reference the first thing a search comes upon is a stuck place |
| RegexHangs.SomeFirst | common/head/regexp.h:305-497 | where a search has anything to come upon, it has a first thing |
| RegexHangs.NoHangWitness | common/head/regexp.h:442-453 | a starred reference to a bracket that holds nothing but a reference: well numbered, and no text hangs it from anywhere |
| TcpSeq.Compare | work/yhtpip/yhtp_seq.h:31-34 | the modular comparisons order numbers as the positions they stand for, while those are less than 2^31 apart |
| TcpSeq.TooFar | work/yhtpip/yhtp_seq.h:31-34 | at a distance of 2^31 they do not |
| TcpReass.InsertFacts | work/yhtpip/yhtp_input.c:123-191 | queueing a segment keeps the queue in order, disjoint and true to the stream, and covers exactly what it covered and the segment |
| TcpReass.DrainFacts | work/yhtpip/yhtp_input.c:197-228 | presenting hands over the stream from `rcv_nxt` to the first position not received, no more and no less, and leaves the rest |
| TcpTcb.SendUpFacts | work/yhtpip/yhtp_input.c:235-263 | between the queue and the user nothing is lost, made up or reordered, whatever room there is upstream |
| TcpTcb.Tcb.constructor | work/yhtpip/yhtp_seq.h:41-46 | once the handshake has moved them past both SYNs, the fields agree with their positions |
| TcpReceive.QueueSegment | work/yhtpip/yhtp_input.c:123-191 | the loops of `yhtp_reass` on 32-bit fields queue a segment as the specification does |
| TcpReceive.Present | work/yhtpip/yhtp_input.c:197-228 | the presenting loop: `rcv_nxt`, the queue, what goes up, `t_qfirst`, `t_iqsize` and the FIN answer |
| TcpReceive.Reass | work/yhtpip/yhtp_input.c:103-232 | the whole of `yhtp_reass` |
| TcpReceive.ReassMacro | work/yhtpip/yhtp_input.c:68-99 | the macro's path for a segment in order leaves the same state and gives the same FIN answer as `yhtp_reass` would |
| TcpReceive.FastPathWhenShut | work/yhtpip/yhtp_input.c:71-96 | with SS_CANTRCVMORE set the two agree exactly on segments without data |
| TcpReceive.Enqueue | work/yhtpip/yhtp_subr.c:410-430 | `t_iqsize` stays the number of bytes held |
| TcpReceive.Deqdata | work/yhtpip/yhtp_subr.c:472-500 | what waits goes up in order while there is room, and `t_iqsize` stays the number of bytes held |
| TcpChain.Dupblks | work/yhtpip/yhtp_output.c:487-550 | exactly bytes off to off+len of the queue; no copy exactly when `off` is past the end, a panic exactly when the queue ends before off+len |
| TcpChain.Qdrop | work/yhtpip/yhtp_input.c:1485-1511 | exactly the queue without its first k bytes |
| TcpChain.SliceAroundDrop | work/yhtpip/yhtp_input.c:1485-1511 | what is read at `off` before k bytes are dropped is read at off-k after |
| TcpOutput.PacketHonest | work/yhtpip/yhtp_output.c:232-275 | a segment carries the bytes that stand at its sequence number, a FIN only after the last byte written, and its data lies within the window |
| TcpOutput.AfterSound | work/yhtpip/yhtp_output.c:359-405 | the bookkeeping keeps `snd_una <= snd_nxt <= snd_max`, the FIN step-back included, and a pass that asks for another has got further |
| TcpOutput.EdgeGrows | work/yhtpip/yhtp_output.c:319-329 | the edge `ti_ack + ti_win` of a segment is at or beyond everything advertised before, and is remembered |
| TcpOutput.FinBeyondMax | work/yhtpip/yhtp_output.c:363-405 | a segment's FIN lies beyond `snd_max` exactly when the segment is a probe and no FIN has been counted as sent |
| TcpOutput.OutputsFacts | work/yhtpip/yhtp_output.c:69-459 | a whole call keeps the invariant; its segments are honest, within the window, and their right edges go up |
| TcpOutput.Begin | work/yhtpip/yhtp_output.c:96-140 | offset, length, FIN suppression, the window pulled back, on 32-bit fields |
| TcpOutput.Decide | work/yhtpip/yhtp_output.c:142-189 | the decision to send, the unsigned quotient of the window test included |
| TcpOutput.Emit | work/yhtpip/yhtp_output.c:219-455 | the segment sent and every field after it; the data asked of `yhtp_dupblks` is always there |
| TcpOutput.Output | work/yhtpip/yhtp_output.c:69-459 | the resend loop comes to an end and sends the segments that the specification lists, in order |
| TcpSend.SendsFull | work/yhtpip/yhtp_output.c:101-181 | a call that is not forced sends as many full segments from `snd_nxt` on as are written and within both windows |
| TcpSend.SendsAll | work/yhtpip/yhtp_output.c:117-181 | it sends all there is when nothing was outstanding, or TCP_NODELAY is set, and the windows cover it; and a FIN that has not gone out, once nothing is left before it |
| TcpSend.FirstSegment | work/yhtpip/yhtp_output.c:161-181 | with something to send, the first segment has it from `snd_nxt` on, as much as a segment holds, when it is full, or all there is with nothing outstanding, or half the largest window, or sent before; otherwise, and without another reason to send, nothing goes out |
| TcpSend.ProbeSent | work/yhtpip/yhtp_output.c:101-115 | a forced call with `snd_nxt` at `snd_una` sends the first byte not acknowledged, and into a shut window that byte alone |
| TcpSend.AckSent | work/yhtpip/yhtp_output.c:151-155 | an acknowledgment owed at once goes out, all that goes out acknowledges what has been received, and none is owed after it |
| TcpSend.UpdateSent | work/yhtpip/yhtp_output.c:182-189 | a window that is wider than the one advertised by two segments, everything taken, or by 35 percent is made known |
| TcpSend.WindowTold | work/yhtpip/yhtp_output.c:319-329 | every segment advertises all the room there is, unless that is silly, and no less than has been advertised, up to 65535 |
| TcpSend.TimerRuns | work/yhtpip/yhtp_output.c:198-214 | data that waits after a call that sends nothing, and anything outstanding after one that does, has a timer running |
| TcpInput.TrimFits | work/yhtpip/yhtp_input.c:841-920 | what is left of a segment after both trims is in the window and true to the peer's stream |
| TcpInput.ReassembledInStep | work/yhtpip/yhtp_input.c:103-232 | bytes passed up followed by bytes held are always the stream's prefix of length `rcv_nxt` |
| TcpInput.TextFaithful | work/yhtpip/yhtp_input.c:1227-1288 | text and FIN processing keeps that, counting one more for a FIN from when it has been counted |
| TcpInput.AckSound | work/yhtpip/yhtp_input.c:975-1166 | acknowledgment processing, the rewind on the third duplicate included, keeps `snd_una <= snd_nxt <= snd_max` and moves `snd_una` to nothing but the number acknowledged |
| TcpInput.WindowWraps | work/yhtpip/yhtp_input.c:1092-1113 | when more leaves the queue than the send window holds, the window goes round to within 2^28 of 2^32, and it is still that after the segment's window, text and FIN have been dealt with exactly unless the window is taken from the segment |
| TcpInput.WindowWrapsWitness | work/yhtpip/yhtp_input.c:1092-1113 | a byte sent into a shut window and acknowledged on an older segment leaves `snd_wnd` at 2^32 - 1 |
| TcpInput.InputsGood | work/yhtpip/yhtp_input.c:841-1305 | a segment from an honest peer, however old, keeps the whole invariant, and all that is sent in reply is honest |
| TcpUinput.TrimSegment | work/yhtpip/yhtp_input.c:703-714 | the receive window and both trims on 32-bit fields |
| TcpUinput.Duplicate | work/yhtpip/yhtp_input.c:999-1028 | duplicates counted, and the rewind on the third |
| TcpUinput.Take | work/yhtpip/yhtp_input.c:1029-1117 | timers, windows, the send queue and `snd_una` after an acknowledgment of something new, on 32-bit fields |
| TcpUinput.AckInput | work/yhtpip/yhtp_input.c:975-1166 | the acknowledgment switch, with its ways out |
| TcpUinput.WindowInput | work/yhtpip/yhtp_input.c:1168-1183 | when the send window is taken from a segment |
| TcpUinput.TextInput | work/yhtpip/yhtp_input.c:1227-1288 | text, the FIN's own sequence number and the state after it |
| TcpUinput.Uinput | work/yhtpip/yhtp_input.c:841-1305 | the whole routine on one segment: the fields and the segments sent are those of the specification |
| TcpTaken.TakesIn | work/yhtpip/yhtp_input.c:841-1288 | while no FIN has been counted and the acknowledgment is of something sent: exactly the bytes received before and those that the segment brings into the window, in order or not, have been received after; all up to the first that has not are counted; a FIN is counted only where there is one |
| TcpTaken.MovesOn | work/yhtpip/yhtp_input.c:1227-1288 | so a segment at `rcv_nxt` or before moves it on to its own end, or to the right edge |
| TcpTaken.GoesUp | work/yhtpip/yhtp_input.c:235-263 | and with room upstream all that is counted has gone to the user |
| TcpTaken.ReadAll | work/yhtpip/yhtp_subr.c:472-500 | reading with room for all that waits passes all of it up |
| TcpTaken.Taking | work/yhtpip/yhtp_input.c:1113-1117 | what a segment acknowledges is acknowledged, unless its trim rejects it or it was never sent |
| TcpTaken.Answered | work/yhtpip/yhtp_input.c:1227-1305 | a segment rejected, or that acknowledges what was never sent, is answered; when text or a FIN is taken in an acknowledgment goes out or is owed; what goes out acknowledges all received, this segment included |
| TcpTaken.WindowTaken | work/yhtpip/yhtp_input.c:1168-1183 | the send window is that of a newer segment, or of one as new with a newer acknowledgment or a wider window |
| TcpTaken.WindowOpens | work/yhtpip/yhtp_input.c:1083-1091 | an acknowledgment of something new opens the congestion window by a segment up to the threshold, by less but something above it, and to 65535 at the most |
| TcpTaken.Retransmits | work/yhtpip/yhtp_input.c:999-1028 | the third duplicate in a row brings the first byte not acknowledged out again, with a congestion window of one segment |
| TcpTaken.StateMoves | work/yhtpip/yhtp_input.c:1119-1288 | the state changes exactly as the acknowledgment of our FIN, and the counting of the other's, say |
| TcpFin.FinInPlace | work/yhtpip/yhtp_input.c:211-228 | FINs that were not cut are counted after the last byte |
| TcpFin.CutsWhen | work/yhtpip/yhtp_input.c:898-920 | trimming cuts a FIN segment short exactly when it lies across the right edge, with text to keep before it and more beyond |
| TcpFin.FinCutEarly | work/yhtpip/yhtp_input.c:898-920 | a FIN segment in order, with anything queued that ends where it ends or before and within the window: left alone in front of a shut window unless only its FIN is new, and otherwise its FIN counted at its own place exactly when its data ends at or before the right edge, and else at the edge |
| TcpFin.FinCutWitness | work/yhtpip/yhtp_input.c:917-919 | six bytes and a FIN into a window of four: FIN counted after four |
| TcpFin.InputsInPlace | work/yhtpip/yhtp_input.c:841-1305 | a segment that is not cut short, which includes those dropped whole, keeps all FINs in place |
| TcpSent.StrayFinRefused | work/yhtpip/yhtp_input.c:1030-1033 | the acknowledgment of a FIN is refused as one of something never sent exactly when the FIN went with a probe before any was counted |
| TcpSent.StrayFinWitness | work/yhtpip/yhtp_output.c:359-405 | one byte written, closed, the window shut, the persist timer gone off: the byte goes out with FIN, and what acknowledges both is refused |
| TcpSent.InputsBelow | work/yhtpip/yhtp_input.c:841-1305 | no segment gets a receiver, or its queue, beyond what segments have brought |
| TcpSent.InputsHeldBy | work/yhtpip/yhtp_input.c:898-920 | what a segment leaves queued ends within the window it was trimmed to |
| TcpSent.WndEdgeGrows | work/yhtpip/yhtp_input.c:703-714 | the right edge of the window that segments are trimmed to never moves left |
| TcpRun.RunInv | work/yhtpip/yhtp_input.c:841-1305 | every state of every run satisfies the invariant, and nothing delivered, counted, advertised or sent is taken back |
| TcpRun.DeliveredIsPrefix | work/yhtpip/yhtp_input.c:197-263 | in every run the bytes delivered are a prefix of the bytes written, and their number is `rcv_nxt`, less one once a FIN has been counted, which is when YHTPS_HAVERCVDFIN holds |
| TcpRun.SequenceOrder | work/yhtpip/yhtp_input.c:1113-1117 | in every run `snd_una <= snd_nxt <= snd_max`, and nothing counts as acknowledged that the peer has not counted |
| TcpRun.OneByte | work/yhtpip/yhtp_output.c:232-275 | no position ever carries two different bytes, whatever is retransmitted when |
| TcpRun.OneByteOnWire | work/yhtpip/yhtp_output.c:274-275 | nor does a sequence number, unless it has come round by 2^31 |
| TcpRun.RightEdge | work/yhtpip/yhtp_output.c:319-329 | in every run the right edges an endpoint advertises never move left |
| TcpRun.FinOnce | work/yhtpip/yhtp_input.c:1249-1288 | a FIN is counted once: from then on neither `rcv_nxt` nor the bytes change |
| TcpRun.AckedIsReceived | work/yhtpip/yhtp_input.c:1092-1113 | unless a FIN segment was cut short at the right edge, what is acknowledged has been received, a counted FIN means that all bytes are there, and so does an acknowledged one |
| TcpRun.CountedIsSent | work/yhtpip/yhtp_output.c:363-405 | in every run `rcv_nxt` is at most the peer's `snd_max`, or past a FIN that has gone out; so while every FIN sent counts as sent it is at most `snd_max` |
| TcpRun.FinCounted | work/yhtpip/yhtp_input.c:898-920 | in every run, for any FIN segment that is next in order: what `TcpFin.FinCutEarly` says, with the end of all that the peer has written for the place of the FIN |
| TcpProgress.ArrivalTaken | work/yhtpip/yhtp_input.c:841-1305 | in every run: what `TcpTaken` says, and what is counted is what the peer has written |
| TcpProgress.CallSends | work/yhtpip/yhtp_output.c:69-459 | in every run: what `TcpSend` says |
| TcpProgress.BytesMove | work/yhtpip/yhtp_output.c:69-459 | in every run, when one endpoint calls `yhtp_output` with something worth sending from a position that the other has got to, and the first segment arrives, the other has counted all of it that its window has room for |
| TcpWindow.DataInWindow | work/yhtpip/yhtp_output.c:101-130 | in every run that begins with a window the peer has advertised, and in which windows are taken only from segments that acknowledge enough and never go round, each segment of data ends at or before the right edge that the peer has advertised, but for one byte forced out |
| TcpWindow.OlderWindow | work/yhtpip/yhtp_input.c:1168-1183 | a window taken from a segment with an older acknowledgment ends beyond the edge that this segment advertises |
| TcpTimers.OutputsTimer | work/yhtpip/yhtp_output.c:392-405 | if not both of the timers run before `yhtp_output`, not both do after |
| TcpTimers.InputsTimer | work/yhtpip/yhtp_input.c:1073-1081 | nor after a segment has been taken in |
| TcpLink.Link.Deliver | work/yhtpip/yhtp_input.c:841-1305 | a segment off the wire, less than 2^30 away from the fields, taken in by either control block: a step of the run, the answers put on the wire |
| TcpLink.Link.Send | work/yhtpip/yhtp_output.c:69-459 | a call of `yhtp_output` is a step of the run |
| TcpLink.Link.Write | work/yhtpip/yhtp_state.c:508-526 | a message from the user, put on the queue and counted, is a step of the run |
| TcpLink.Link.Close | work/yhtpip/yhtp_state.c:726-751 | so is the user's close |
| TcpLink.Link.Read | work/yhtpip/yhtp_subr.c:472-500 | and the user's reading |
| TcpLink.Link.Tick | work/yhtpip/yhtp_timer.c:171-247 | and a timer that goes off; the persist timer never finds the retransmit timer running, so `yhtp_setpersist` does not panic |
| TcpLink.Link.Delivered | work/yhtpip/yhtp_input.c:197-263 | for the control blocks themselves: the bytes a user has got, with those that wait, are the first that the other has written, and the 32-bit `rcv_nxt` is the number of the next |
| TcpLink.Link.Released | work/yhtpip/yhtp_input.c:1092-1113 | what has left the queue to send from has been received, unless a FIN segment was cut short |
| TcpLink.Link.Ordered | work/yhtpip/yhtp_seq.h:31-34 | by the 32-bit comparisons, `snd_una` is not after `snd_nxt`, nor that after `snd_max`, nor `snd_una` after the peer's `rcv_nxt` |
| TcpStray.StrayRun | work/yhtpip/yhtp_output.c:363-405 | a run in which a FIN went with a probe, and `rcv_nxt` is 2 where `snd_max` is 1 |
| TcpIo.StepInv | work/yhtpip/yhtp_subr.c:526-565 | every step, the calls of `yhtp_output` from the other routines included, keeps: a flag for every request not served, queued segments flagged, the lock held while anything is |
| TcpIo.NothingLost | work/yhtpip/yhtp_subr.c:548-551 | with the lock free, every request posted has been served since and every segment taken |
| TcpIo.InOrder | work/yhtpip/yhtp_input.c:574-587 | every segment is taken at most once, in the order of posting |
| TcpIo.OneHolder | work/yhtpip/yhtp_subr.c:539-565 | only the holder of the lock runs a service routine, and it lets go only with no flag up and nothing queued |
| TcpIo.Requested | work/yhtpip/yhtp_subr.c:536-543 | a request raises its own flag and no other, and a segment goes to the end of the queue |
| TcpIo.CalledInTurn | work/yhtpip/yhtp_subr.c:541-556 | in every run a routine is called from the loop only while a request of its own kind has not been served; timers before output, output before input |
| TcpIo.LetsGo | work/yhtpip/yhtp_subr.c:541-562 | with nothing more posted, and each service routine back within n steps of whatever kind, the holder takes at most 4 n steps; he can take one until he has let go, and then every request has been served and every segment taken |
| TcpIo.CanFinish | work/yhtpip/yhtp_subr.c:541-562 | from every state that satisfies the invariant there is a way for the holder to let go |
| TcpIo.Io.Enter | work/yhtpip/yhtp_subr.c:526-556 | `yhtp_io` up to its first `splx` |
| TcpIo.Io.Next | work/yhtpip/yhtp_subr.c:541-557 | the choice of a routine, or the lock dropped |
| TcpIo.Io.TakeInput | work/yhtpip/yhtp_input.c:574-587 | the protected section of `yhtp_uinput` |
| TcpIo.Io.StartOutput | work/yhtpip/yhtp_output.c:96-99 | the protected section of `yhtp_output` |
| TcpIo.Io.StartTimers | work/yhtpip/yhtp_timer.c:80-82 | the protected section of `yhtp_dotimers` |
| IpFragment.DupRange | work/yhtpip/yhnp_output.c:440-489 | exactly the bytes of the range |
| IpFragment.Pad | work/yhtpip/yhnp_output.c:491-506 | the message with `cnt` bytes appended, or unchanged |
| IpFragment.Output | work/yhtpip/yhnp_output.c:251-328 | sent whole when it fits, refused exactly when it does not and DF is set or the interface has not room for 8 bytes, otherwise the pieces of the data in order; each frame within the MTU and padded to the minimum |
| IpFragment.TrimLength | work/yhtpip/yhnp_input.c:171-192 | the chain cut to what the header says; bad exactly when it is shorter |
| IpFragment.Receive | work/yhtpip/yhnp_input.c:171-192 | padding makes no difference: what is taken in is what the frame carries |
| IpFragment.Forward | work/yhtpip/yhnp_output.c:251-328 | a gateway sends on what a frame brought, whole or in pieces, whatever padding it came with |
| IpFragment.CarriedBrought | work/yhtpip/yhnp_output.c:283-325 | what is sent for fragments are frames that bring them |
| IpReass.PiecesGenuine | work/yhtpip/yhnp_output.c:283-308 | the pieces of a fragment are fragments of the same datagram, on multiples of 8, MF clear on the datagram's last only, and cover what it covered |
| IpReass.SendsGenuine | work/yhtpip/yhnp_output.c:251-308 | what an interface sends of a fragment are fragments of the same datagram that fit its MTU, and cover the same unless it refuses |
| IpReass.ArrivingGenuine | work/yhtpip/yhnp_output.c:251-308 | so are the fragments that arrive over any ways, and they cover the datagram if none was lost or refused |
| IpReass.SecondHop | work/yhtpip/yhnp_output.c:251-258 | over an MTU of 36 and then one of 33 a second fragment of 12 bytes stays whole while the first is cut |
| IpReass.CompleteWhenCovered | work/yhtpip/yhnp_input.c:450-471 | a queue is complete exactly when its fragments cover the datagram, and then joins to the datagram |
| IpReass.QueueTakes | work/yhtpip/yhnp_input.c:397-449 | the queue stays sorted and disjoint and covers exactly all fragments taken in so far |
| IpReass.ArriveKeeps | work/yhtpip/yhnp_input.c:358-495 | over all queues: the datagram is given exactly when this fragment completes the cover, it is the right one, and no other queue is harmed |
| IpReass.AnyOrder | work/yhtpip/yhnp_input.c:358-495 | whatever order and duplicates, mixed with other datagrams: passed up once the fragments cover it, and not before |
| IpReass.NeverWrong | work/yhtpip/yhnp_input.c:358-495 | in every run, the timer going off at any time, nothing is passed up but datagrams that were sent |
| IpReass.RoundTrip | work/yhtpip/yhnp_output.c:251-328 | from end to end, over frames: a datagram fragmented, its fragments fragmented again or sent whole over any interfaces, each on its own way, some doubled, some lost, in any order: nothing but the datagram is passed up, exactly when the fragments that came cover it, and surely if none was lost or refused and all came |
| IpReass.TickKeeps | work/yhtpip/yhnp_input.c:541-563 | the timer drops whole queues and leaves the others as they are |
| IpTimer.Expires | work/yhtpip/yhnp_input.c:541-563 | from the first fragment of a datagram on, whatever comes, if it is not passed up its queue is there until the timer has gone off 59 times and goes the 60th time; further fragments give it no more time |
| IpTimer.TickLook | work/yhtpip/yhnp_input.c:541-563 | a tick takes one from each queue's time, and the queue that had but one |
| IpReass.Reassembly.Reass | work/yhtpip/yhnp_input.c:358-495 | the routine in place: search, trims, the check, and the messages linked up |
| IpReass.Reassembly.Intr | work/yhtpip/yhnp_input.c:160-296 | the dispatch: bad length dropped, whole datagrams passed on, fragments to their queue |
| IpReass.Reassembly.Intrs | work/yhtpip/yhnp_input.c:99-296 | the loop over the frames that wait passes up what the runs of the theorems do |
| IpReass.Reassembly.Slowtimo | work/yhtpip/yhnp_input.c:541-563 | the timer loop in place |
| Cksum.Sum | work/yhtpip/yhiso_cksum.c:22-88 | for every split into blocks and every parity of their addresses, the complement of the one's-complement sum of the bytes, in 32 bits; a panic exactly when the chain is too short |
| Cksum.OnesSumIs | work/yhtpip/yhiso_cksum.c:53-62 | adding wide and folding late is adding with end-around carry |
| Cksum.ByteOrder | work/yhtpip/yhiso_cksum.c:85-86 | the sums in the two byte orders are each other's bytes swapped |
| Cksum.StoredSumsToZero | work/yhtpip/yhnp_output.c:255-256 | stored in a field that was zero, at an even offset, it makes the sum of the whole all ones |
| Cksum.PassesWhen | work/yhtpip/yhnp_input.c:145-151 | the check on input passes exactly for the checksum of the rest, or all ones in place of zero |
| Cpout.EndsWhen | i386at/sysinst/cpout.c:83-155 | the loop ends exactly when every file fits a fresh volume, or is no directory and above the target size with at least CRITSIZE bytes to a volume; a file on a last line without a newline does not count |
| Cpout.BadStays | i386at/sysinst/cpout.c:98-154 | any other file is never put out, never found too big, and keeps the loop going |
| Cpout.TurnProgress | i386at/sysinst/cpout.c:83-155 | otherwise each turn gets something done, or begins a volume when the last is not fresh |
| Cpout.TurnConserves | i386at/sysinst/cpout.c:83-155 | a turn loses no file and makes none up |
| Cpout.Packed | i386at/sysinst/cpout.c:83-155 | in the end every file read that is not too big is on exactly one volume once and nothing else is; no volume holds more than `targetsize - TRAILERLEN`; each directory is out before everything after it on the input. All files on the input count as read, but one on a last line without a newline |
| Cpout.StaleAgain | i386at/sysinst/cpout.c:84-121 | with a file for which no fresh volume has room, the last file goes out twice |
| Cpout.LastLost | i386at/sysinst/cpout.c:83-95 | if the last line has no newline, the loop ends exactly when every other file can be placed or is too big, and whenever it ends the last file is on no volume and not found too big |
| Cpout.LostBehindQueue | i386at/sysinst/cpout.c:83-121 | an input on which that happens with a file in the queue as the last one is read |
| Cpout.Packer.Loop | i386at/sysinst/cpout.c:83-155 | one turn of the loop in place |
| Cpout.Packer.Nextfile | i386at/sysinst/cpout.c:163-198 | the next file, with the end of the input noted as it is read when its line has no newline; or, past the last, the end noted and the last file left in hand |
| Cpout.Packer.Nextfloppy | i386at/sysinst/cpout.c:202-222 | a fresh volume |
| Cpout.Packer.Run | i386at/sysinst/cpout.c:83-155 | the loop to its end, the invariants kept |
| InPcb.Pcbs.Lookup | work/yhtpip/yhiso_pcb.c:423-469 | the first of the compatible endpoints with the fewest wildcards, or none exactly when none is compatible |
| InPcbPorts.SegmentGoesTo | work/yhtpip/yhiso_pcb.c:423-469 | a segment goes to the endpoint connected to its sender, else to one that waits on its address or on any address for its sender, else to one that waits on any address |
| InPcb.ExactIsUnique | work/yhtpip/yhiso_pcb.c:460-465 | while connections are unique an exact match is unique and is the answer |
| InPcb.Pcbs.Bind | work/yhtpip/yhiso_pcb.c:70-135 | bind, with each of its errors, and that it never comes back exactly when it needs a port and none is free |
| InPcbPorts.BindErrors | work/yhtpip/yhiso_pcb.c:78-118 | EINVAL exactly when it is bound already; EADDRNOTAVAIL exactly for a socket's address that is not ours; EACCES exactly for a port below 1024 without privilege; EADDRINUSE exactly for a socket's port that some endpoint has on the same address or with either address any, or, when the socket shares, has on the very same address without a peer |
| InPcbPorts.BindOwn | work/yhtpip/yhiso_pcb.c:106-135 | the port asked for is given when nothing blocks it, and otherwise one from 1024 to 5000; it is the endpoint's own: nobody else has it on the same address or with either address any, unless the endpoint shares, when nobody without a peer has it on the very same address |
| InPcbPorts.BindHangs | work/yhtpip/yhiso_pcb.c:124-132 | it never comes back exactly when it has to find a port and somebody overlaps each from 1024 to 5000 |
| InPcbPorts.AlwaysApart | work/yhtpip/yhiso_pcb.c:106-135 | in every history, of two endpoints with the same port on addresses that overlap one has SO_REUSEADDR set or accepts connections; so while none does, ports are their owners' own |
| InPcb.Pcbs.Ephemeral | work/yhtpip/yhiso_pcb.c:124-132 | the loop for a port ends with one in 1024 to 5000 that nobody compatible has, exactly when there is one |
| InPcb.EndsWhenFree | work/yhtpip/yhiso_pcb.c:124-132 | going round comes to a free port exactly when there is one |
| InPcb.NoneFree | work/yhtpip/yhiso_pcb.c:124-132 | with an endpoint on each of them there is none |
| InPcb.Pcbs.Connect | work/yhtpip/yhiso_pcb.c:257-288 | connect, from where destination and interface are known, the bind that never comes back included |
| InPcbPorts.ConnectIs | work/yhtpip/yhiso_pcb.c:257-288 | EADDRINUSE exactly when somebody has the addresses and ports the connection would have; when it goes well the endpoint has its peer, a port, and its own address or that of the way there |
| InPcb.Pcbs.Disconnect | work/yhtpip/yhiso_pcb.c:291-315 | disconnect and detach |
| InPcbPorts.DisconnectIs | work/yhtpip/yhiso_pcb.c:291-315 | address and port stay and the peer goes; an endpoint without a user goes, and no other |
| InPcb.AlwaysUnique | work/yhtpip/yhiso_pcb.c:257-288 | in every history no two connected endpoints have the same addresses and ports |
| RouteKeys.NetOfIs | work/yhtpip/yhiso.c:98-131 | the network number of an address: by its first number of class A, B, C or none; its natural network of 2^24, 2^16 or 2^8 addresses; subnetted by the mask of the first interface in use on that network, if there is one |
| RouteKeys.FarNetworks | work/yhtpip/yhiso.c:65-71 | of networks that no interface in use is on, two addresses are on the same exactly when they agree in class and in as many leading numbers as it says |
| RouteKeys.NearNetworks | work/yhtpip/yhiso.c:118-129 | addresses of one natural network that an interface in use is on are on the same exactly when they agree under the mask of the first such |
| RouteKeys.ApartNetworks | work/yhtpip/yhiso.c:65-71 | where masks leave addresses on their natural networks, addresses of different natural networks are never on the same |
| RouteKeys.NetKey | work/yhtpip/yhiso.c:51-63 | the loop that strips zero bytes |
| Route.BucketEnough | work/yhtpip/yhroute.c:70-102 | looking in one bucket finds what looking through all entries would |
| Route.HashedIsLinear | work/yhtpip/yhroute.c:48-117 | the hashed search is the linear one that prefers a host route, then a network route, then the default |
| RouteLookup.FoundIs | work/yhtpip/yhroute.c:48-117 | the search finds the newest usable route to the host; without one the newest to its network; without that the newest default; and nothing without any; never one to another network |
| RouteLookup.NetworkRouteFound | work/yhtpip/yhroute.c:76-110 | a usable route to the network of an address is found before the default |
| Route.AllocInv | work/yhtpip/yhroute.c:95-101 | allocation keeps index and counts for a route that caches nothing or something still up |
| Route.AllocLeaks | work/yhtpip/yhroute.c:62-64 | for one that caches a deleted entry it keeps them exactly when it finds nothing; otherwise a reference is lost |
| Route.LeakWitness | work/yhtpip/yhroute.c:62-64 | a table on which it does |
| Route.FreeInv | work/yhtpip/yhroute.c:119-142 | freeing keeps them, and gives trash back |
| Route.UnlinkInv | work/yhtpip/yhroute.c:287-308 | deleting keeps them: freed if nobody holds the entry, trash if somebody does |
| Route.LinkInv | work/yhtpip/yhroute.c:342-354 | adding keeps them |
| Route.CopyInv | work/yhtpip/yhtp_output.c:439-440 | a route copied into a message, with one more reference to what it caches, keeps them too, whether or not that has been deleted |
| Route.Always | work/yhtpip/yhroute.c:245-361 | in every history of allocations, copies, frees, additions and deletions the searches agree, counts are references held, nothing held is freed, and `yhrttrash` is the number of entries held but unlinked |
| RouteLookup.RequestIs | work/yhtpip/yhroute.c:267-287 | a request finds an entry exactly when there is one of its kind to the same host or network by the same gateway |
| RouteLookup.AlwaysSingle | work/yhtpip/yhroute.c:312-354 | in every history no two entries are to the same host, or network, by the same gateway |
| RouteLookup.AddedFound | work/yhtpip/yhroute.c:342-354 | a route added is what is found from then on for its host, or for its network where there is none to the host |
| RouteLookup.DeletedGone | work/yhtpip/yhroute.c:301-308 | an entry deleted is never found again, and stays in memory exactly while somebody holds it |
| Route.RouteTable.Rtalloc | work/yhtpip/yhroute.c:48-117 | the search and the count in place |
| Route.RouteTable.Copy | work/yhtpip/yhtp_subr.c:195-196 | the count that goes with the copy, in place |
| Route.RouteTable.Rtfree | work/yhtpip/yhroute.c:119-142 | the count and the freeing in place |
| Route.RouteTable.Delete | work/yhtpip/yhroute.c:267-308 | the entry found in its bucket and relinked out, or ESRCH |
| Route.RouteTable.AddRoute | work/yhtpip/yhroute.c:310-354 | the new entry at the head of its bucket, or EEXIST or ENETUNREACH |

## Left out

- Regular expressions: intervals after brackets and back-references, stacked repeaters, back-references to a
  bracket still open, and NUL in a pattern, for which `advance` has no clean meaning; GETC and its companions are
  an index into the pattern, ERROR and RETURN are results.
- RegexUse.Search: the pattern must be well formed; what `compile` does with any other text is in
  `RegexCompile.Compile`, with the error numbers, but not what such code means.
- Connection set-up, RST, SYN, urgent data, options, header checks and the drop paths of `yhtp_uinput` before
  its trims: a connection is taken from the moment it is established.
- TcpTcb.Tcb.constructor: begins after the handshake, with `iss + 1` acknowledged and a window advertised; the
  macros set the fields before it.
- TcpRun.AckedIsReceived: stated for runs in which no FIN segment is cut short, for the reason that
  `TcpFin.FinCutEarly` gives.
- TcpLink.Link.Deliver: a segment 2^30 or more away from the fields is not delivered; 32 bits would not tell where it
  belongs.
- TcpUinput.Uinput: does not keep `rcv_nxt` within 2^29 of `rcv_adv`, which it needs, by itself: segments may be
  taken in without one being sent. Round-trip times, `t_rxtshift`, keep-alive and 2MSL timers are not modelled;
  other timers are flags that say whether they run.
- User writes and closes, and what the timers do, are steps of the environment in `TcpRun`, where a timer may set
  the flags, the congestion window and its threshold to anything, and pull `snd_nxt` back to `snd_una`. `TcpLink` has
  the message put on the queue, `yhtp_usrclosed`, the retransmit and persist timers up to their call of
  `yhtp_output`, and the fast timeout; the rest of yhtp_state.c and yhtp_timer.c, the drop after too many
  retransmissions included, is not part of this model.
- TcpRun.OneByteOnWire: numbers 2^31 or more apart are not told from each other by the protocol.
- SS_NOFDREF and a user who shuts down receiving before the FIN; STREAMS plumbing, priority levels, failing
  allocations with their retries; the headers that STREAMS puts before data going up.
- TcpIo.LetsGo: a service routine is taken to come back. A routine that frees the control block leaves the lock
  behind.
- IP options, the choice of a route, broadcasts and ICMP, on which what a gateway forwards depends; datagrams whose
  lengths or offsets pass 32767, where the signed 16-bit fields would wrap. The bit beside DF and MF is taken to be
  zero.
- The big-endian branch of the checksum; lengths above 65535.
- The packer's terminal prompts, its pipes, volumes that are skipped, the cleaning of names and the sizes from
  `stat`, which are taken as given; a failing `stat`.
- Cpout.Packer.Nextfile: a last name without a newline also loses its last character, so that its size is that of
  another file or `stat` fails; names and sizes are taken as given.
- InPcb.Pcbs.Ephemeral: stops after a round without a free port, where the code goes round again for ever. Byte
  order of ports is not modelled.
- InPcb.Pcbs.Connect: the rewriting of INADDR_ANY and INADDR_BROADCAST and the choice of the interface come
  before what is modelled.
- Route: switched SLIP, redirects, the choice of the interface for a gateway, and `yhrtdetach`, which is a loop of
  deletions; the table has 8 buckets, as without GATEWAY.
- `yhin_rtinit`, ARP, APP modules, option setting, `yhnetconf.c`, `mkmerge.c` and headers that only declare:
  nothing to prove, or command-line and file handling.
