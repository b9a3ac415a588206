# Verification model of the card tools

Dafny models of four parts of this repository, with proofs of what each promises.

**The bit-packing code generator.** `Machine.dfy` is an interpreter for the vector instructions the generator emits: 32
registers of sixteen 32-bit lanes over byte memory, words as bit sequences (`Words.dfy`). `Layout.dfy` says what the
packed layout is, one bit stream a lane. `Extraction.dfy`, `UnpackKernel.dfy`, `PackKernel.dfy`, `TransformKernel.dfy`
and `FlsKernel.dfy` give the emitted programs, the loops that emit them, and the proof that running them gives the
layout for every width and memory. `Codec.dfy` puts them together, `Scalar.dfy` and `Bitstream.dfy` are the C loops,
`Unffor.dfy` the FastLanes dispatcher. `Mvex.dfy` and `KernelAudit.dfy` are the byte encoder against the auditor that has
to find each instruction's end again; `KernelBytes.dfy` reads the bytes by the instruction set's opcode table, and
`KernelPrograms.dfy` shows that the bytes of every kernel mean that kernel. `FlsLanes.dfy` says the FastLanes layout value
by value.

**The rpc wire.** `Wire.dfy` defines encoding and decoding once, by recursion on a layout; `Messages.dfy` gives the
messages their layouts; `Rpc.dfy` states the codec's laws. `RpcWriter.dfy` and `RpcReader.dfy` are phi-rpc's encoder and
cursor, `FrameDecoder.dfy` its incremental decoder, `AgentWire.dfy` the card agent's own buffer, cutter and body checker:
all proved against the same definitions, so that the two ends agree.

**The agent's sessions.** `Sessions.dfy` is the grammar of frames received and sent; `Agent.dfy` the agent's loops over
its buffers, each frame logged and, when it is sent, written through the transmit buffer. `Syscalls.dfy` has the system
calls: each is free to do anything it may do, and records what it did where it is done, so that what was read, written,
polled and waited for is never the callers' word. `Environment.dfy` and `Arena.dfy` are the child's environment and the memory it is built in,
`Kthreads.dfy` the sampled kernel-thread table.

**Two kernels.** `Barrett.dfy` is modular exponentiation by Barrett reduction, `Mandel.dfy` the masked Mandelbrot loop
against the scalar one over uninterpreted arithmetic.

Four of the claims one would make turn out to need a condition, and are proved with it:

- The decoder's results do not depend on how a stream is cut into pushes if and only if no length out of range is
  reached, or only in the stream's last four bytes: after a bad length everything buffered is dropped, so what is
  dropped depends on what was pushed. `FrameDecoder.ResyncDependsOnCutting` is a stream that shows it.
- Frame-of-reference and delta coding round-trip if and only if every stored residue is below 2^bits.
- Both `modpow16` variants return 1 for an exponent of 0 and a modulus of 1.
- The auditor's instruction length is exact for every addressing form but one: with mod 00, a SIB byte and no base
  register, the four bytes of displacement that follow are not counted (`Mvex.MiscountedForm`). The encoder emits no SIB
  byte.

Two comments of the source are looser than the code. The Barrett comment allows two corrections; one always suffices,
because the reciprocal is taken of 2^64 - 1. The Mandelbrot kernels are called the same loop; with a count of zero or
less the generated one still runs its first round.

Modelling notes. A value of type `Word` is its 32 bits, least significant first; wrapping addition goes through numbers.
Loops that wait for the outside world are watched for a number of passes given as `fuel` or `tries`; what is proved holds
at every point up to there, and a result of `false` or `None` says the agent ended or was seen to do as much as `fuel`
asks: reads, frames taken, waits and interrupted writes are counted by the calls themselves. In
`Kthreads.dfy` a listing of /proc is asked to name each pid once. In `Mvex.dfy` the disassembler is a function that always
moves on within the buffer. `Mandel.Mandel4Avx2` assumes of its arithmetic that zero times zero is zero and that adding
zero to an iteration count (zero, or a count plus one) leaves it. A text frame's body is written in one piece, where the
source appends it field by field.

## Model

| member | source | states |
|---|---|---|
| Layout.FieldVecCases | host/crates/knc-mvex/src/main.rs:244-253 | the five instruction sequences a value can need are all the same thing: the value's bits of the lane's bit stream |
| FlsKernel.PairIsLoad | host/crates/knc-mvex/src/lib.rs:541-570 | a low-half load followed by the high-half load of the address 64 above is one unaligned 64-byte load, whatever the destination held |
| Extraction.RunExtract | host/crates/knc-mvex/src/main.rs:299-352 | the shift, merge and mask phases of one group leave each value's field in its register: scheduled phase by phase, no word, temporary or mask register is overwritten while still needed |
| UnpackKernel.UnpackRuns | host/crates/knc-mvex/src/main.rs:273-380 | for every width, mode and memory, running the emitted program writes exactly the 1024 decoded values (field, field plus base, or running sum from base) and changes nothing else |
| UnpackKernel.EmitUnpack | host/crates/knc-mvex/src/main.rs:273-380 | the emitting loops append exactly that program |
| PackKernel.PieceTable | host/crates/knc-mvex/src/main.rs:452-470 | the table lists, word by word, every piece of every value that lands there, in order |
| PackKernel.PiecesMakeWord | host/crates/knc-mvex/src/main.rs:416-437 | or-ing a word's pieces, split over two accumulators, gives the word of the layout, whatever rubbish the values hold above the width |
| PackKernel.PackRuns | host/crates/knc-mvex/src/main.rs:439-533 | for every width and memory, the emitted packing program stores the words of the layout bit for bit and changes nothing else, four words in flight and two accumulators a word |
| PackKernel.EmitPack | host/crates/knc-mvex/src/main.rs:439-533 | the emitting loops append exactly that program |
| TransformKernel.EncodeRuns | host/crates/knc-mvex/src/main.rs:390-414 | the encode program stores each value minus its base or its predecessor in the lane, modulo 2^32, and changes nothing else |
| TransformKernel.EmitEncode | host/crates/knc-mvex/src/main.rs:390-414 | the emitting loop appends exactly that program |
| Codec.UnpackOfPack | card/lib/knc/knc_test.c:33-64 | unpacking a packed block returns every value masked to the width |
| Codec.RoundTripIff | card/lib/knc/knc.h:99-122 | decode of pack of encode is the identity on all 1024 values if and only if every stored residue is below 2^bits |
| Codec.CodecInMemory | card/lib/knc/knc.h:99-122 | the same for the three generated programs run one after the other over memory |
| Codec.EmitUnpackTable | host/crates/knc-mvex/src/main.rs:578-594 | each emitted decoding table has a null entry for width 0 and then each width's kernel in its own place |
| Codec.EmitPackTable | host/crates/knc-mvex/src/main.rs:578-594 | so does the packing table |
| Codec.WidthReachesKernel | host/crates/knc-mvex/src/main.rs:542-573 | for every 32-bit width and every table of 33 entries with a null first, the countdown, the unsigned comparison and the indexed jump reach that width's own entry, never the null one or one past the end |
| Codec.WidthGuard | host/crates/knc-mvex/src/main.rs:535-594 | an entry point given a width outside 1 to 32 leaves memory, vector registers and arguments alone; inside, it runs the kernel of exactly that width, which decodes or packs the block |
| Scalar.ScalarPack | card/lib/knc/knc_test.c:33-48 | the test's scalar packing loop, in place on arrays, writes the words of the layout |
| Scalar.ScalarUnpack | card/lib/knc/knc_test.c:50-64 | the scalar unpacking loop reads every value back as its field |
| Scalar.ScalarEncode | card/lib/knc/knc_test.c:69-86 | the scalar encoders give what the generated encoder gives |
| Scalar.ScalarDecode | card/lib/knc/knc_test.c:88-104 | the scalar decoders add the base, or sum along the lane in place |
| Scalar.RebuiltEncoded | card/lib/knc/knc_test.c:69-104 | scalar decoding undoes scalar encoding on any values and any base |
| Bitstream.PackStream | card/examples/bitunpack.c:105-119 | every bit of the packed words is the bit of the value it belongs to |
| Bitstream.StreamRoundTrip | card/examples/bitunpack.c:105-133 | each value read from a packed stream is the one packed, masked to the width |
| Bitstream.UnpackStream | card/examples/bitunpack.c:121-133 | the unpacking loop reads each value off its one or two words |
| Bitstream.StreamThrough | card/examples/bitunpack.c:105-133 | packing then unpacking returns every value masked to the width, for widths 1 to 32 |
| FlsKernel.UnfforRuns | host/crates/knc-mvex/src/main.rs:697-793 | for widths 0 to 32 and any 4-byte aligned input, the emitted FastLanes program writes base plus field for all 1024 values of the 32-lane layout and changes nothing else |
| FlsKernel.EmitUnffor | host/crates/knc-mvex/src/main.rs:697-793 | the emitting loops append exactly that program |
| FlsLanes.LanesDecoded | host/crates/knc-mvex/src/main.rs:652-667 | value by value: output word i is the base plus the bits of value i, in lane i mod 32 at position i / 32 of the streams the packed words 32 w + lane make |
| Unffor.DirectRuns | card/lib/knc-fls/fls_unffor.cpp:92-113 | the kernel run on the caller's 4-byte aligned input writes the layout |
| Unffor.StagedRuns | card/lib/knc-fls/fls_unffor.cpp:115-134 | the kernel run on a staged copy of an input at any byte alignment writes the same layout of the caller's input |
| Unffor.SameOutput | card/lib/knc-fls/fls_unffor.cpp:61-138 | two memories that hold the same packed bytes, at any addresses, decoded to the layout anywhere, hold the same 4096 output bytes |
| Unffor.CallBoth | card/lib/knc-fls/fls_unffor.cpp:61-138 | two dispatcher calls on the same packed bytes and base, each taking its own path, put out the same 4096 bytes: the path cannot be seen in the result |
| Unffor.ScalarLayoutWrites | card/lib/knc-fls/fls_unffor.cpp:54-60 | what is asked of FastLanes' scalar code can be met |
| Unffor.Dispatcher.Unffor | card/lib/knc-fls/fls_unffor.cpp:61-138 | for every alignment of input, base and output the output holds base plus field, nothing else but the call's own frame changes, and the three counters say which path was taken |
| Mvex.FieldsRoundTrip | host/crates/knc-mvex/src/lib.rs:211-235 | every operand field, displacement and immediate can be read back off the encoded bytes |
| Mvex.EncodeInjective | host/crates/knc-mvex/src/conv.rs:50-54 | no two instructions share an encoding |
| Mvex.LengthExactIff | host/crates/phi-isa-audit/src/lib.rs:188-225 | whatever bytes follow, the auditor's length is the instruction's exact length if and only if it carries an immediate just where its opcode takes one |
| Mvex.FormLengthIff | host/crates/phi-isa-audit/src/lib.rs:188-225 | over every ModRM form, SIB byte and displacement size of the architecture the length is exact, whatever follows, if and only if the immediate keeps the rule and the form is not the one with a SIB byte and no base |
| Mvex.MiscountedForm | host/crates/phi-isa-audit/src/lib.rs:206-221 | such a form: eleven bytes taken for seven |
| Mvex.EveryModRm | host/crates/phi-isa-audit/src/lib.rs:206-221 | every ModRM byte is one of those forms |
| Mvex.ScanBytes | host/crates/phi-isa-audit/src/lib.rs:248-307 | the sweeping loop computes the sweep: instructions, vector instructions and the addresses flagged |
| Mvex.SweepInSync | host/crates/phi-isa-audit/src/lib.rs:248-307 | over any mix of vector instructions and instructions the disassembler knows, the sweep counts exactly those and flags exactly the flagged ones, where they start |
| KernelAudit.InsnKnown | host/crates/knc-mvex/src/lib.rs:255-320 | every instruction the generator emits is encodable and keeps the immediate rule |
| KernelBytes.FieldsRead | host/crates/knc-mvex/src/lib.rs:260-585 | a reader written from the opcode table (map, prefix, W, opcode and extension to the operation, reg, vvvv and r/m to the operands) reads every instruction of the kernels as itself, displacements signed over 32 bits and shift counts over a byte |
| KernelBytes.BytesRead | host/crates/knc-mvex/src/lib.rs:211-235 | and reads it off its bytes |
| KernelBytes.ReadBack | host/crates/knc-mvex/src/lib.rs:211-585 | the bytes of any program of these instructions, each ending where its ModRM says, with the relocations of its mask constants, read back as that program |
| KernelPrograms.UnpackBytes | host/crates/knc-mvex/src/main.rs:273-380 | the bytes of every unpack kernel mean that kernel, and running what they mean decodes the block |
| KernelPrograms.PackBytes | host/crates/knc-mvex/src/main.rs:439-533 | the bytes of every packing kernel mean that kernel, and running what they mean packs the block |
| KernelPrograms.EncodeBytes | host/crates/knc-mvex/src/main.rs:390-414 | so for the encode kernels |
| KernelPrograms.FlsBytes | host/crates/knc-mvex/src/main.rs:697-793 | and the FastLanes kernels of every width |
| KernelAudit.EmittedCodeIsClean | host/crates/phi-isa-audit/src/lib.rs:248-307 | every program the generator can emit is counted instruction by instruction with nothing flagged |
| Utf8.ValidIffEncoding | card/agent/text.S:613-616 | the accepted byte strings are exactly the encodings of sequences of Unicode scalar values (section 4 of RFC 3629) |
| Utf8.Utf8Ok | card/agent/text.S:617-676 | the agent's byte checker accepts exactly those |
| Utf8.BoundaryIffValid | host/crates/phi-rpc/src/lib.rs:257-268 | a prefix of valid text is valid exactly when it ends on a character boundary |
| Utf8.ClipLongest | host/crates/phi-rpc/src/lib.rs:257-268 | clipping keeps the longest prefix within the limit that is still valid |
| Utf8.ClipIff | host/crates/phi-rpc/src/lib.rs:257-268 | and nothing else does: a prefix is the clip if and only if it is that longest one |
| Utf8.RustClip | host/crates/phi-rpc/src/lib.rs:259-268 | the stepping-back loop returns that prefix |
| Utf8.AgentClip | card/agent/text.S:200-217 | the agent's loop, which has no test for position 0, returns the same prefix |
| Wire.NumberRoundTrip | host/crates/phi-rpc/src/lib.rs:237-247 | a number below 256^size survives its little-endian bytes |
| Wire.RoundTrip | host/crates/phi-rpc/src/lib.rs:3-26 | for every layout of numbers, strings, lists and pairs, decoding an encoded value gives it back clipped and cut, and consumes exactly its bytes |
| Wire.Extends | host/crates/phi-rpc/src/lib.rs:332-338 | appended bytes change nothing but the rest |
| Wire.ProperPrefixIsShort | host/crates/phi-rpc/src/lib.rs:332-346 | every proper prefix of an encoded value is too short |
| Wire.DecodeIsCanonical | host/crates/phi-rpc/src/lib.rs:340-364 | a decoded value needs no clipping and re-encodes to exactly the bytes it came from |
| Wire.NumberItemsDecode | card/agent/wire.S:359-364 | a list of fixed-size items decodes exactly when its count times the item size is there |
| Messages.ClipMsgVal | host/crates/phi-rpc/src/lib.rs:17-26 | what the wire does to a message is: strings clipped to 65535 bytes, lists cut to 65535 items |
| Messages.MsgBack | host/crates/phi-rpc/src/lib.rs:475-635 | a message is recovered from its fields, but for an empty working directory |
| Rpc.BodyRoundTrip | host/crates/phi-rpc/src/lib.rs:475-635 | decoding an encoded body gives the clipped message, an empty cwd as none; after a structured body any bytes may follow |
| Rpc.PrefixIsMalformed | host/crates/phi-rpc/src/lib.rs:578-635 | a structured body cut short anywhere is malformed |
| Rpc.FrameInjective | host/crates/phi-rpc/src/lib.rs:475-575 | two messages have the same frame only if the receiver cannot tell them apart |
| RpcReader.Reader.Take | host/crates/phi-rpc/src/lib.rs:340-347 | n bytes move from what is left to the result, or nothing is taken |
| RpcReader.Reader.Text | host/crates/phi-rpc/src/lib.rs:360-364 | a string is read exactly as its layout decodes |
| RpcReader.Reader.Devs | host/crates/phi-rpc/src/lib.rs:371-382 | a device list is read exactly as its layout decodes |
| RpcReader.Reader.Stat | host/crates/phi-rpc/src/lib.rs:383-434 | a sample is read field by field exactly as its layout decodes |
| RpcReader.DecodeBodyWithReader | host/crates/phi-rpc/src/lib.rs:578-635 | the cursor decoder returns what the layouts define, for every tag and body, errors included |
| RpcWriter.Writer.PutStr | host/crates/phi-rpc/src/lib.rs:271-275 | the bytes appended are the clipped string's encoding |
| RpcWriter.Writer.PutDevs | host/crates/phi-rpc/src/lib.rs:277-284 | the bytes appended are the device list's encoding, cut to 65535 |
| RpcWriter.Writer.PutStat | host/crates/phi-rpc/src/lib.rs:286-330 | the bytes appended are the sample's encoding |
| RpcWriter.Encode | host/crates/phi-rpc/src/lib.rs:475-575 | the appending encoder builds the frame: length, tag, encoded fields |
| FrameDecoder.DrainEarly | host/crates/phi-rpc/src/lib.rs:659-683 | on a stream in which no length out of range is reached before the last four bytes, taking frames before more bytes come changes no result and leaves the same bytes |
| FrameDecoder.ChunkingIndependent | host/crates/phi-rpc/src/lib.rs:649-683 | however a stream is cut into pushes, results and leftover bytes are the same, if no length out of range is reached before the stream's last four bytes |
| FrameDecoder.ChunkingIffTame | host/crates/phi-rpc/src/lib.rs:659-683 | and only under that condition: any other stream has a cutting that gives something else |
| FrameDecoder.ResyncDependsOnCutting | host/crates/phi-rpc/src/lib.rs:659-674 | a zero length followed by a Ping gives one result when pushed whole and two when cut after the length |
| FrameDecoder.EachFrameAnswersForItself | host/crates/phi-rpc/src/lib.rs:659-683 | a stream of framed bodies, cut anywhere, gives one result a frame in order: a body that does not decode costs exactly itself |
| FrameDecoder.MessagesArrive | host/crates/phi-rpc/src/lib.rs:475-683 | a stream of encoded messages, cut anywhere, arrives as those messages clipped and in order |
| FrameDecoder.Decoder.Push | host/crates/phi-rpc/src/lib.rs:649-652 | bytes are appended; the results so far still account for the whole stream |
| FrameDecoder.Decoder.NextFrame | host/crates/phi-rpc/src/lib.rs:667-683 | one result is taken off the front of those buffered, or the buffer must wait; the results so far still account for the whole stream |
| FrameDecoder.Decoder.DrainAll | host/crates/phi-rpc/src/lib.rs:659-683 | draining returns every result buffered and leaves what must wait |
| AgentWire.Checker.Str | card/agent/wire.S:418-434 | the string check fails exactly when decoding does and leaves the cursor where decoding would |
| AgentWire.Checker.FixedList | card/agent/wire.S:359-364 | so does the multiplied-out check of a list of numbers |
| AgentWire.Checker.Devs | card/agent/wire.S:436-453 | so does the device list check |
| AgentWire.Checker.Stat | card/agent/wire.S:355-395 | so does the check of a whole sample, blocks taken together included |
| AgentWire.Checker.Command | card/agent/wire.S:331-354 | so does the Exec check |
| AgentWire.Validate | card/agent/wire.S:281-395 | for every tag and body the result is 0, 1 or 2 exactly when phi-rpc's decoder gives a message, an unknown tag or malformed |
| AgentWire.Receiver.Fill | card/agent/wire.S:154-182 | compaction and one read: what is buffered is kept, the bytes read follow it, and the read always has READ_CHUNK bytes of room |
| AgentWire.Receiver.NextFrame | card/agent/wire.S:189-254 | the next body that decodes is handed out in place and the invariant with phi-rpc's decoder is kept |
| AgentWire.Receiver.NextBlocking | card/agent/wire.S:259-265 | reads until a frame is whole; fill is only ever called with no whole frame buffered |
| AgentWire.SameAsDecoder | card/agent/wire.S:148-195 | once no whole frame is buffered, the messages handed out are those of phi-rpc's Decoder fed the same reads, errors skipped, and the leftover bytes are the same |
| AgentWire.Transmitter.Send | card/agent/wire.S:80-101 | the bytes given to the device are the frame of the tag and body built in the buffer, appended to all given before, and a decoder cuts them back out |
| Sessions.WholeSession | card/agent/exec.S:54-344 | events that follow an opening without a terminal frame, and then one that ends it, are one session |
| Sessions.ExecAnswer | card/agent/exec.S:297-344 | within one session a command is answered by one Error alone, or by output and stat replies and then one Exit, with one stat reply for each Stat |
| Sessions.PutAnswer | card/agent/xfer.S:110-183 | within one session a put gives stat replies, then Exit(0) after its PutClose, or Error |
| Sessions.GetAnswer | card/agent/xfer.S:186-261 | within one session a get gives file data and stat replies, then GetEnd with the number of bytes sent, or Error |
| Sessions.SessionEnds | card/agent/agent.S:147-199 | what follows an opening is still that session, or begins with the whole of it |
| Sessions.AcceptedIsConversation | card/agent/agent.S:147-199 | in every log the grammar accepts, each session opened is answered as its kind is, but for one still open at the end |
| Sessions.InputIsStdin | card/agent/exec.S:439-473 | the input a command is owed is the Stdin payloads received before the first StdinEof |
| Sessions.DataIsPutData | card/agent/xfer.S:140-154 | the contents a put is owed are its PutData payloads before PutClose |
| Sessions.StrayIsSilent | card/agent/agent.S:160-170 | stream frames received outside a session are never answered |
| Sessions.RepliesAtOnce | card/agent/agent.S:147-199 | outside a session a Ping, a Stat or an unexpected frame is answered, the last by an Error, before anything else happens |
| Agent.InputQueue.Push | card/agent/exec.S:466-496 | a payload is queued unless the input ended, the pipe is gone, or it would not fit even after compaction; nothing queued is disturbed |
| Agent.InputQueue.Flush | card/agent/exec.S:498-538 | what the pipe took plus the queue stays the bytes queued while the pipe is open, and when it closes at the end of input it took all; it stops only with an empty queue, a closed pipe, a pipe that took no more or its tries spent |
| Agent.WriteAll | card/agent/text.S:232-262 | the result is 0 exactly when the descriptor took every byte in order; otherwise it took a proper prefix and a write failed, or was interrupted too often to be watched |
| Agent.ExitCodeMeans | card/agent/exec.S:317-326 | over wait's encoding a normal exit gives its status, a death by signal 128 plus the signal |
| Agent.Agent.Receive | card/agent/wire.S:189-254 | every frame handed out is logged and accepted by the session grammar |
| Agent.Agent.Send | card/agent/wire.S:80-101 | a frame built in the transmit buffer is logged and written, and the frame that ends a session makes the events since it opened one session |
| Agent.Agent.SendRead | card/agent/exec.S:413-439 | bytes just read straight into the transmit buffer go out as one frame that carries exactly what was read and not yet sent |
| Agent.Agent.PumpRead | card/agent/exec.S:410-439 | what one pipe gave goes out under that pipe's tag; end of file or a failed read closes it |
| Agent.Agent.ExFrame | card/agent/exec.S:445-462 | Stdin is queued, StdinEof noted, Stat answered, anything else dropped, and the queue keeps serving the command |
| Agent.Agent.TakeFrame | card/agent/exec.S:236-240 | any payload that still arrives fits the queue, so the drop after compaction is never taken |
| Agent.Agent.ReadUnlessBacklogged | card/agent/exec.S:243-253 | the queue plus everything the reader holds stays under INPUT_BACKLOG plus RXCAP, which is under INCAP |
| Agent.Agent.Pass | card/agent/exec.S:234-295 | a pass offers what is queued to the command's pipe, and what arrives keeps fitting the queue |
| Agent.Agent.ExLoop | card/agent/exec.S:222-295 | over every run of the loop the pipe took a prefix of the Stdin payloads, all of them when closed at the end of input, and the session's last frame is Exit with the way the command was seen to end |
| Agent.Agent.ExDone | card/agent/exec.S:300-344 | the output drains until both pipes are closed or the grace is spent, and exactly one Exit is sent: the exit status, or 128 plus the signal |
| Agent.Agent.RunExec | card/agent/exec.S:54-220 | a command's events are one session, answered by one Error alone exactly when its argv is empty or it could not be started, or by output, stat replies and then Exit with the way it ended; the Stdout payloads are the bytes its first pipe gave and the Stderr payloads those of the second, in order, and its input took a prefix of the Stdin payloads |
| Agent.Agent.RunPut | card/agent/xfer.S:110-183 | a put's events are one session, so answered, by Error exactly when opening, a write or the sync failed; what the file took is always a prefix of the PutData payloads, and all of them, synced, when Exit(0) is sent |
| Agent.Agent.RunGet | card/agent/xfer.S:186-261 | a get's events are one session, so answered; the GetData payloads are the bytes the file gave, in order, GetEnd comes only at its end and gives their number, and an Error only when opening or a read failed |
| Agent.Agent.HostHears | card/agent/wire.S:80-101 | however the bytes given to the device are cut into reads, phi-rpc's decoder gets back the messages logged as sent, clipped and in order |
| Agent.Agent.AgentHears | card/agent/wire.S:148-254 | if the device gave the frames of some messages, however cut into reads, the messages received are those, clipped and in order |
| Agent.Agent.MainLoop | card/agent/agent.S:147-199 | whatever arrives and whatever system calls do, every session opened in the log is answered as its kind is, but for one still open, the host's decoder hears exactly what was sent, and the loop goes on while the agent lives |
| Environment.KeyCompare | card/agent/exec.S:695-720 | the sign of the comparison is the bytewise, shorter-first order |
| Environment.KeyLessTransitive | card/agent/exec.S:695-699 | that order is transitive |
| Environment.KeyLessTotal | card/agent/exec.S:695-699 | and total |
| Environment.MergedRun | card/agent/exec.S:774-818 | merging two sorted runs gives a sorted permutation of both, arrival order kept among equal keys |
| Environment.Merge | card/agent/exec.S:757-820 | the merging loops compute that merge in the other index array |
| Environment.PassDoubles | card/agent/exec.S:754-823 | a pass turns runs of w into runs of 2w |
| Environment.SortIndices | card/agent/exec.S:741-823 | the bottom-up merge sort ends with all indices in stable key order |
| Environment.EndOfRunIsLast | card/agent/exec.S:824-838 | the last of a run of equal keys is the last record given for that key |
| Environment.BuildEnvironment | card/agent/exec.S:736-879 | the entries are exactly the last-value-wins map, once a key, in strictly increasing order; the NUL flag and PATH are those of the entries kept |
| Arena.CommandFits | card/agent/exec.S:601-690 | a decoded command's lists are at most 65535 long and its strings lie in its body |
| Arena.UseArena | card/agent/exec.S:601-690 | for any Exec within the frame limit every block taken from the arena, the environment strings included, fits ARENACAP |
| Kthreads.KthreadTable.Find | card/agent/stat.S:870-892 | bisection returns exactly the table's entry for a pid |
| Kthreads.KthreadTable.Add | card/agent/stat.S:894-913 | a row is appended while there is room, and the unsorted flag is clear only while the pids increase |
| Kthreads.KthreadTable.SortNext | card/agent/stat.S:915-946 | the in-place insertion sort gives the table sorted by pid |
| Kthreads.InsertionSortedIs | card/agent/stat.S:915-946 | which is a sorted permutation |
| Kthreads.KthreadTable.Sample | card/agent/stat.S:948-1122 | one sample: the two counts are the processes counted and the kernel threads among them, the list is the wanted processes that fit, in order, and the frame ends behind exactly their records; the table after it is sorted with one row a pid; no /proc leaves it as it was; a frame under its limit when the list begins still fits MAX_FRAME with the counts behind it |
| Kthreads.CountsMean | card/agent/stat.S:1011-1062 | nprocs is the number of listed processes whose stat was read or did not have to be, nkthreads the number of kernel threads among them, and that is the size of the new table while it has room |
| Kthreads.ListedIs | card/agent/stat.S:1078-1101 | what is listed is the processes wanted, in the order of /proc, each while the list and the frame have room, and the frame grows by exactly their records |
| Kthreads.RowsAre | card/agent/stat.S:894-913 | the new rows are the kernel threads with the ticks held for them, in order, cut where the table is full |
| Kthreads.HasRoomIff | card/agent/stat.S:111-119 | the unsigned room test tells whether an entry fits, as long as the limit has not been passed; beyond it the test always says yes |
| Kthreads.FrameKept | card/agent/stat.S:1078-1101 | no record takes the frame past the limit, so the test is only ever made below it |
| Kthreads.RecordBytes | card/agent/stat.S:1081-1099 | a process record is 28 bytes and its name, as the wire encodes it |
| Kthreads.RowsMean | card/agent/stat.S:1006-1075 | the new table holds a pid exactly when it was listed and is a kernel thread, known or just read, with those ticks |
| Kthreads.TableIsLastRead | card/agent/stat.S:33-40 | over every run of samples the table holds each kernel thread's ticks as last read, and nothing else |
| Kthreads.LastReadWhen | card/agent/stat.S:948-975 | ticks held were read at some sample, and no listed sample since had a number that is 1 modulo 4 |
| Kthreads.ListedIff | card/agent/stat.S:1060-1100 | when the list and the frame have room for every record, exactly the wanted processes are listed: those read that are user processes, or kernel threads that were unknown or whose ticks changed |
| Barrett.Estimate | card/examples/pi-bbp.c:50-57 | the estimated quotient never passes the true one and what is left is below 2m |
| Barrett.MulMod | card/examples/pi-bbp.c:58-66 | no step underflows or leaves 64 bits, the correction loop runs at most once, and the result is the product modulo m |
| Barrett.Round | card/examples/pi-bbp.c:73-78 | a round of square and multiply keeps r times b to the e, modulo m |
| Barrett.ModPow16Barrett | card/examples/pi-bbp.c:68-80 | the Barrett variant returns 16^e mod m, but 1 for 16^0 modulo 1 |
| Barrett.ModPow16 | card/examples/pi-bbp.c:82-93 | the divider variant returns the same, every product below 2^64 |
| Barrett.PowersIff | card/examples/pi-bbp.c:82-93 | both are the true power if and only if not (e is 0 and m is 1) |
| Mandel.MaskedIsNext | host/crates/knc-mvex/src/main.rs:1054-1066 | the masked instructions of one round do to an active lane what the scalar step does |
| Mandel.Mandel8Vpu | host/crates/knc-mvex/src/main.rs:1022-1078 | every lane of the masked loop ends where the scalar escape loop does after the rounds the loop runs, at least one |
| Mandel.Mandel4Avx2 | card/examples/mandel-vpu.c:74-97 | every lane of the blended loop ends where the scalar escape loop does |
| Mandel.KernelsAgreeIff | card/examples/mandel-vpu.c:73-97 | the two agree from one iteration up, and below that only where the first round would change nothing |

## Left out

- Unffor.Dispatcher.Unffor: FastLanes' scalar code is not part of this model; it is a parameter asked to write the layout for widths up to 32, and what it does for greater widths is passed through.
- Unffor.Dispatcher.Unffor: the kernel's read of the rest of the last cache line, up to 60 bytes past the input, is not modelled as a memory access.
- Agent.Agent.ExLoop: a failed write to the device, which ends the agent, is not a step of the model; frames sent are taken as written.
- Agent.Agent.RunExec: fork, exec, pipes and poll are free choices; the text of Error frames is arbitrary.
- Agent.Agent.StatReplyFrame: the sample sent is any that fits a frame; how it is taken is not part of the session model.
- Codec.WidthGuard: what the entry points leave in eax and r9, their scratch registers, is not modelled.
- Kthreads.KthreadTable.Sample: how far the frame is built when the process list begins is given; what comes before it in the sample is not modelled. Of a record only the length is followed, not the bytes.
- Kthreads.TableIsLastRead: asks that each listing has distinct pids and at most 65536 entries, since a full table drops rows.
- Mandel.Mandel8Vpu: floating point is not interpreted, so nothing is said about rounding or the images.
- The lane loops of bitunpack.c are those of the scalar layout model, with the loops of `unpack_lanes` interchanged.
- Performance: nothing is claimed about instruction latency or about dependent neighbours in the emitted order.
- The agent's sampling of /proc and sysfs other than the kernel-thread table, and its number and path formatting.
- `vprefetch`, mask register moves and the other vector instructions no modelled kernel uses, except as encodings.
- Disassembly, feature lists and archive walking in the auditor.
- zlib, checksums, benchmarks, language bindings, memory copy kernels, drivers and the ring device.
