# LabComm, verified

LabComm is a self-describing binary protocol. A compiler turns sample
declarations into C encoders and decoders; at run time an encoder first announces
the signature of a sample and then sends values, and a decoder matches signatures
byte for byte and calls handlers. This project is a Dafny model of the 2014
version of LabComm and proves what it is there for: what is encoded is what is
handled.

`dafny verify dfyconfig.toml` checks everything.

## Layout

| files | what they model |
|---|---|
| `Options`, `Wire`, `Types`, `Memory` | packed32, strings, words; types and C values; access paths and allocated blocks |
| `Codegen`, `LoopNests`, `ArrayWalk`, `Blocks`, `Decoder`, `Encoder`, `Sizeof`, `Dealloc`, `SampleCodec` | the code that the compiler emits, as a statement language with an interpreter, and the agreement of its four outputs |
| `Intentions`, `Signatures`, `SignatureMatch`, `SignatureLengths`, `SignatureList`, `PythonDecls`, `SigParser`, `TypeSignatures` | flat signatures as the compiler and the Python library print them, as Python and the small-target parser read them, what a match of two of them means, and the signature trees of the C library |
| `Session`, `SessionRuns`, `LateReferences` | the C run time: packets, tables, whole sessions with registrations on the way |
| `BufferedWriter`, `BufferedReader`, `GeneratedIO`, `Endpoints`, `EndpointRuns`, `SignatureArray` | the same in place: buffers, generated code that reads and writes through them, encoder and decoder objects, and a whole session between them |
| `Deferred`, `Sections`, `Scheduler`, `SchedulerRuns`, `SchedulerWriter`, `SchedulerClock`, `SchedulerSleep`, `SchedulerLocks` | the pthread scheduler: linked queues, critical sections, all interleavings, actions and the writer mutex, the end of the second loop, when a thread sleeps too long |
| `Renaming`, `RenamingLists`, `RenamingRuns` | the reference-counted registry, its linked lists, and the encoders that share it |
| `Throttle`, `ThrottleLosses`, `Introspection`, `DecoderRegistry` | fragmentation and losses, the introspection handshake, the Java registry |

## Conventions

- packed32 has its most significant chunk first, as the C code writes it
  (lib/c/2014/labcomm2014_private.h:487-505); the prose at
  doc/tech_report.tex:824-826 says the opposite.
- Primitive values are memory images of a little-endian host; floats are bit
  patterns. `int` lengths of 2^31 or more are negative in C, and the readers then
  read nothing (`Wire.TakeInt`).
- A use of a typedef carries the declaration it resolves to. Void has the same
  signature, encoding and value as the empty struct.
- Generated code is stuck in the interpreter when C would go wrong: a stale
  pointer, a double free, an index out of bounds, a loop limit that changes.
- In a session the sender's samples are numbered from 0x40 up, lengths fit an int, and
  samples with equal signatures have their literal indices 0 at the same places
  (`SessionRuns.Compatible`).
- A thread of the scheduler has a stack of frames, so that a deferred action is
  arbitrary user code that may call the scheduler again.
- read() and write() take any number of bytes and may fail at any time. A reader is
  `healthy` when it fails at the end of the bytes only, a writer when it never does.

## What the code does not keep

Each of these is proved, with the exact condition where there is one.

- `SchedulerSleep.SleepsOnQueuedIff`: a thread starts to wait although an immediate
  action is queued that no other thread is about to run, if and only if it sleeps
  inside an action while another one is queued, or its run_deferred left the second
  loop and something was enqueued since the time was sampled. `LostWakeup` and
  `NestedSleep` are runs that end this way.
- `SchedulerWriter.ActionUnderWriterLockIff`: writer_lock or writer_unlock starts an
  action while its thread holds the writer mutex if and only if the thread held it when
  it called writer_lock, or an odd number of the actions of that call have taken or
  released it for good, and not both. `SchedulerLocks.LockedTwice` is such a run.
- `Throttle.SendsAllIff`: the loop of thr_send ends if and only if the announced total
  is below 255, and has then sent the whole message if and only if at most 254
  fragments are needed. `NotSent` has a message on which it never ends, and one of
  which it sends a single byte.
- `ThrottleLosses.OnlySentIff`: whatever is lost, each delivery is put together from all
  fragments of one message and no others, if and only if at most one message needs more
  than one fragment. Then only messages that were sent are delivered (`DeliversSent`);
  otherwise the beginning of one can come with the rest of another (`DeliversSplice`).
- `Renaming.LeftoverIff`: a failing rename function leaves a base entry behind
  if and only if the signature was not in the registry.
- `SignatureMatch.MatchMeansSameWire`: types with equal signatures have the same
  values and encodings if and only if their literal indices 0, which a signature does
  not show, are at the same places, apart from elements that such an index rules out.
- `SignatureList.ToByteArray`: the compiler prints an intention if and only if its
  key and its value are shorter than 128 bytes, so a longer docstring makes the
  compiler throw. `Flat` is the signature where it is printed.
- `PythonDecls.PythonAgreesIff` and `SignatureLengths.PythonRoundTripIff`: Python
  prints the flat signature, and reads back what it prints, if and only if no field
  and no element is void.
- `SigParser.ParserAgrees`: the small-target parser takes a literal index 0 for a
  variable one.
- `SigParser.AcceptDecl`: the signature that the small-target parser records
  begins with the length in front of it.
- `LateReferences.LateReference`: after a reference was registered on a decoder in the
  middle of a session, a sample arrives as if all had been registered in time if and
  only if it has no reference to the sample that the sender numbers like the new local
  reference, nor to one that was announced before and matches only now.
  `LostReference` is a session in which a known reference arrives as NULL.
- `Introspection.ConfluentIff`: the outcome of the handshake is the one that the set of
  events tells if and only if the signature was started, or not all its announcements
  were overwritten before it was first asked for.

## Model

| member | source | states |
|---|---|---|
| Wire.PackRoundTrip | lib/c/2014/labcomm2014_private.h:286-308 | Reading a packed32 that was written gives the number back and leaves exactly what follows, for every 32-bit number. |
| Wire.PackSize | lib/c/2014/labcomm2014_private.h:527-537 | The size function predicts the number of bytes a packed32 takes. |
| Wire.StringRoundTrip | lib/python/labcomm2014/LabComm.py:1058-1060 | A length-prefixed string is read back exactly. |
| Wire.ReadIntRoundTrip | lib/c/2014/labcomm2014_private.h:310-335 | The C string reader, whose length is an int, reads back every string shorter than 2^31. |
| Wire.WordRoundTrip | lib/c/2014/labcomm2014_private.h:242-256 | Four bytes, most significant first, carry a 32-bit number. |
| LoopNests.StartIsHorner | compiler/2014/C_CodeGen.jrag:402-419 | The emitted Horner expression is the row-major position, for any number of dimensions. |
| LoopNests.NestVisitsAll | compiler/2014/C_CodeGen.jrag:498-517 | The emitted loop nest takes its body through the offsets 0 to product-1, each once and in order, for any number of dimensions. |
| ArrayWalk.WalkElements | compiler/2014/C_CodeGen.jrag:90-101 | Whatever code is emitted for an element runs once at a path that denotes each element, in memory order. |
| Decoder.DecoderCorrect | compiler/2014/C_CodeGen.jrag:463-548 | For every type and value the emitted decoder, on fresh memory, stores the sent value with its references translated, consumes exactly its encoding and allocates exactly the blocks of the value. |
| Encoder.EncoderCorrect | compiler/2014/C_CodeGen.jrag:996-1071 | For every type and value the emitted encoder appends exactly the documented encoding and changes nothing else. |
| Dealloc.DeallocCorrect | compiler/2014/C_CodeGen.jrag:550-612 | The emitted deallocation frees exactly the blocks of the value, each once; freeing an array before its elements would get stuck. |
| Sizeof.SizeofCorrect | compiler/2014/C_CodeGen.jrag:1553-1632 | For every dynamic type the emitted sizeof adds up to the length of the encoding. |
| Sizeof.FixedSizeCorrect | compiler/2014/C_CodeGen.jrag:1484-1531 | For every other type the compile-time constant is the length of every encoding. |
| Blocks.StaticOwnsNothing | compiler/2014/C_CodeGen.jrag:103-121 | A type that C_isDynamic rejects owns no allocated memory. |
| Blocks.BlocksUnder | compiler/2014/C_CodeGen.jrag:540-548 | All blocks of a value lie at or below its own place. |
| SampleCodec.EncodeWrites | compiler/2014/C_CodeGen.jrag:958-974 | The generated encode function writes the documented encoding. |
| SampleCodec.SizeofPredicts | compiler/2014/C_CodeGen.jrag:1536-1551 | The generated sizeof function returns the number of bytes the generated encode function writes, for every type and value. |
| SampleCodec.DecodeHandlesAndFrees | compiler/2014/C_CodeGen.jrag:433-461 | The generated decode function calls the handler once with the sent value, leaves exactly the bytes that follow and no block allocated. |
| SampleCodec.SampleRoundTrip | compiler/2014/C_CodeGen.jrag:433-548 | Decoding what the generated encoder wrote, with each side using its own reference table, hands over the same value. |
| Intentions.SortedSorts | compiler/2014/Signature.jrag:102-115 | Sorting keeps the intentions and puts unique keys in ascending order. |
| Intentions.IntentionsRoundTrip | lib/python/labcomm2014/LabComm.py:1066-1074 | Decoded intentions are the dictionary of the encoded pairs, and what follows is left. |
| Signatures.SignatureRoundTrip | lib/python/labcomm2014/LabComm.py:931-938 | Parsing the flat signature of any type yields its canonical type, typedefs expanded and intentions sorted, and consumes exactly the signature. |
| Signatures.FlatInjective | compiler/2014/FlatSignature.jrag:42-91 | Types with equal flat signatures have the same canonical type. |
| SignatureMatch.MatchMeansSameWire | lib/c/2014/labcomm2014_decoder.c:74-88 | If the decoder's byte comparison succeeds, both types have the same values and the same encoding of each if and only if their literal indices 0 are at the same places, arrays without elements apart. |
| SignatureMatch.ZeroIndexClash | compiler/2014/FlatSignature.jrag:85-91 | Index 0 and a variable index have equal signatures but different encodings. |
| SignatureList.PutPacked | compiler/2014/Utilities.jadd:17-37 | Writes exactly the packed32 if and only if the expected length is right and the array has room; throws otherwise. |
| SignatureList.ToByteArray | compiler/2014/Signature.jrag:210-232 | Key and value are put together as two strings if and only if both are shorter than 128 bytes; otherwise the array is too short and Java throws. |
| SignatureList.IntentionBytes | compiler/2014/Signature.jrag:253-274 | The count and all pairs, if and only if every key and value is shorter than 128 bytes. |
| SignatureList.ByteList.AddType | compiler/2014/FlatSignature.jrag:42-91 | The tree walk appends exactly the flat signature to the list if and only if every intention inside is short; otherwise it ends in an exception. |
| PythonDecls.PythonAgreesIff | lib/python/labcomm2014/LabComm.py:642-647 | What Python prints is the flat signature if and only if nothing inside is void, and is shorter otherwise. |
| SignatureLengths.DeclConsumes | lib/python/labcomm2014/LabComm.py:931-938 | A parsed declaration takes at least as many bytes as the flat signature of the result, overlong numbers and repeated keys included. |
| SignatureLengths.PythonRoundTripIff | lib/python/labcomm2014/LabComm.py:517-522 | What Python prints it reads back as the canonical type, with exact consumption, if and only if nothing inside is void. |
| PythonDecls.VoidElementBreaks | lib/python/labcomm2014/LabComm.py:850-854 | An array of void as Python prints it cannot be read back. |
| TypeSignatures.EncodedSize | lib/c/2014/labcomm2014_encoder.c:301-321 | The size fold over a signature tree is the length of what the write fold writes. |
| TypeSignatures.Dump | lib/c/2014/labcomm2014_type_signature.c:46-70 | The bounded dump holds the flattening, or the prefix of it that fits, and reports a full buffer or a null entry. |
| TypeSignatures.Compare | lib/c/2014/labcomm2014_type_signature.c:75-91 | Two signatures compare equal if and only if both flattenings are shorter than 512 bytes and equal, and neither tree has a null entry at its top level. |
| SigParser.ParserAgrees | compiler/2014/C_CodeGen.jrag:103-121 | The parser's varsize flag is C_isDynamic except that a literal index 0 sets it, too; without it the size it computes is C_fixedSizeof. |
| SigParser.Parser.AcceptType | lib/c/2014/experimental/labcomm2014_sig_parser.c:606-676 | Parsing any type, however deep, needs two free stack slots, consumes exactly the signature, pushes size (mod 2^32) and type code, and leaves the rest of the stack alone. |
| SigParser.Parser.AcceptArrayDecl | lib/c/2014/experimental/labcomm2014_sig_parser.c:679-724 | The same for arrays, with the product of the indices cut to 32 bits. |
| SigParser.Parser.AcceptStructDecl | lib/c/2014/experimental/labcomm2014_sig_parser.c:727-755 | The same for structs, with the sum of the field sizes. |
| SigParser.Parser.AcceptIntentions | lib/c/2014/experimental/labcomm2014_sig_parser.c:541-590 | Pushes the length and the position of the value of the last empty key. |
| SigParser.AcceptDecl | lib/c/2014/experimental/labcomm2014_sig_parser.c:365-459 | A SAMPLE_DEF or SAMPLE_REF body is refused for an index below LABCOMM_USER, a long name or a long signature, passed over as a reference, outside the tables, or consumed exactly and recorded; the recorded bytes include the signature's length. |
| Session.DefLengthExact | lib/c/2014/labcomm2014_encoder.c:117-133 | The length field of a definition is the length of the body that follows. |
| SessionRuns.ReadDefRoundTrip | lib/c/2014/labcomm2014_decoder.c:174-207 | A definition's body is read back as its index, name and signature. |
| SessionRuns.FirstMatchFinds | lib/c/2014/labcomm2014_decoder.c:66-89 | The scan of a signature array finds the lowest match and misses none. |
| SessionRuns.LocalIsUnique | lib/c/2014/labcomm2014_decoder.c:57-98 | Without duplicates a sender's sample is translated to the one local entry with its name and canonical type, whatever the numbering. |
| SessionRuns.WithoutZeros | lib/c/2014/labcomm2014_decoder.c:74-88 | Samples without literal indices 0 meet what sessions assume of matching signatures. |
| SessionRuns.ReceiveSample | lib/c/2014/labcomm2014_decoder.c:293-351 | A data packet of a registered sample calls the local handler once with the sent value, its references translated by the table, and consumes the packet exactly. |
| SessionRuns.ReceiveData | lib/c/2014/labcomm2014_decoder.c:293-351 | While the two ends are linked, the translation is the one that registrations on both sides tell. |
| SessionRuns.OneCall | lib/c/2014/labcomm2014_encoder.c:97-218 | Each encoder call that writes a packet: its reception keeps the two ends linked and has the expected effect, or stops the receiver as expected. |
| SessionRuns.InTime | lib/c/2014/labcomm2014_decoder.c:444-469 | Registering samples, references and raw handlers in time keeps the two ends linked in the middle of a session. |
| SessionRuns.SessionDelivers | lib/c/2014/labcomm2014_decoder.c:358-422 | For every sequence of register, re-register, reference, typedef, bind and encode calls and of registrations in time on the decoder, decoding the whole stream calls the handlers in the same order with the same values; it stops where an unknown sample is announced, or where anything is announced to a decoder with nothing registered, whose result C does not initialise. |
| LateReferences.LateReference | lib/c/2014/labcomm2014_decoder.c:444-469 | After a late registration of a reference a value is delivered right if and only if none of its references is to the sample whose remote index was cleared, or to one announced before that matches only now. |
| LateReferences.LostReference | lib/c/2014/labcomm2014_decoder.c:444-469 | A session from the version packet on in which a reference that the receiver knows is delivered as NULL. |
| BufferedWriter.Split | lib/c/2014/labcomm2014_private.h:487-495 | Five bytes are enough for the chunks of a packed32. |
| BufferedWriter.FdWriter.Flush | lib/c/2014/labcomm2014_fd_writer.c:98-124 | For any pattern of partial writes a flush without error has sent the whole buffer. It fails for an empty buffer, and otherwise only if write() does. |
| BufferedWriter.FdWriter.WritePacked32 | lib/c/2014/labcomm2014_private.h:487-505 | Appends exactly the packed32 to the stream, wherever the buffer fills up, and fails only if write() does. |
| BufferedWriter.FdWriter.WriteString | lib/c/2014/labcomm2014_private.h:507-524 | Appends exactly the length-prefixed string, and fails only if write() does. |
| BufferedWriter.FdWriter.WriteImage | lib/c/2014/labcomm2014_private.h:445-458 | Appends the memory image most significant byte first, and fails only if write() does. |
| BufferedReader.FdReader.Fill | lib/c/2014/labcomm2014_fd_reader.c:77-100 | Refilling changes nothing in the stream that is still to be read. |
| BufferedReader.FdReader.ReadPacked32 | lib/c/2014/labcomm2014_private.h:286-308 | The result depends on the byte stream alone, overlong and wrapping encodings included; it fails only at the end of the stream. |
| BufferedReader.FdReader.ReadString | lib/c/2014/labcomm2014_private.h:310-335 | The same for strings. |
| BufferedReader.FdReader.ReadImage | lib/c/2014/labcomm2014_private.h:242-256 | The same for primitive values. |
| GeneratedIO.PerformReads | compiler/2014/C_CodeGen.jrag:463-548 | Emitted decoder code, run statement by statement on the buffered reader, does what it does on the byte stream, for every buffer size and all short reads. |
| GeneratedIO.PerformWrites | compiler/2014/C_CodeGen.jrag:996-1071 | Emitted encoder code, run on the buffered writer, adds exactly the bytes it produces, wherever the buffer fills up, and fails only if write() does. |
| SignatureArray.Sparse.Ref | lib/c/2014/labcomm2014.c:202-237 | Growing the block in either direction keeps the map it stands for, and new slots are zero. |
| SignatureArray.Sparse.Visited | lib/c/2014/labcomm2014_private.h:590-592 | The iteration visits every entry that is not zero, in order and once. |
| SignatureArray.Replay | lib/c/2014/labcomm2014_private.h:578-588 | After any sequence of references and assignments each index holds what was last assigned to it. |
| Endpoints.PacketEncoder.constructor | lib/c/2014/labcomm2014_encoder.c:440-491 | A new encoder has sent exactly the version packet, unless write() failed. |
| Endpoints.PacketEncoder.SampleRegister | lib/c/2014/labcomm2014_encoder.c:97-138 | Sends the packet of the session model unless the sample is registered already; it fails only if write() does, so no flush finds an empty buffer. |
| Endpoints.PacketEncoder.RefRegister | lib/c/2014/labcomm2014_encoder.c:178-218 | The same for references. |
| Endpoints.PacketEncoder.TypeRegister | lib/c/2014/labcomm2014_encoder.c:279-369 | The same for typedefs, with the length computed before the tree is written. |
| Endpoints.PacketEncoder.TypeBind | lib/c/2014/labcomm2014_encoder.c:383-414 | Sends the binding packet of the session model. |
| Endpoints.PacketEncoder.Encode | lib/c/2014/labcomm2014_encoder.c:140-169 | Runs the generated sizeof and encoder and sends index, exact length and encoding, or nothing if the sample is not registered. |
| Endpoints.PacketDecoder.One | lib/c/2014/labcomm2014_decoder.c:358-416 | On any bytes, well formed or not, the decoder with its generated decoders does what the session model says, through a buffer of any size; tags and indices are signed. |
| Endpoints.PacketDecoder.OnSampleDef | lib/c/2014/labcomm2014_decoder.c:57-98 | A definition is matched by name and signature and its remote index entered. |
| Endpoints.PacketDecoder.OnSampleRef | lib/c/2014/labcomm2014_decoder.c:100-131 | The same for references; an unknown one is passed over. |
| Endpoints.PacketDecoder.SampleRegister | lib/c/2014/labcomm2014_decoder.c:625-658 | The sample is entered, and every session in which that comes in time goes on as expected. |
| Endpoints.PacketDecoder.RefRegister | lib/c/2014/labcomm2014_decoder.c:444-469 | The reference is entered and the remote index of the same number forgotten; every session in which that comes in time goes on as expected. |
| EndpointRuns.OneShrinks | lib/c/2014/labcomm2014_decoder.c:358-416 | Every packet takes at least one byte, whatever it holds, so decoder_run ends. |
| EndpointRuns.Receive | lib/c/2014/labcomm2014_decoder.c:418-422 | decoder_run, with registrations on the way, reports what the session model says; a beginning of it if reading fails early. |
| EndpointRuns.Converse | lib/c/2014/labcomm2014_encoder.c:97-218 | The two objects together: for all calls, registrations in time, buffer sizes, partial writes and short reads, what is handled is what was encoded, in order; nothing fails unless write() does, and a beginning is handled if read() fails early. |
| Deferred.CompareIsChronological | lib/c/2014/labcomm2014_pthread_scheduler.c:78-101 | The comparison is the order of the nanosecond counts, with time 0 after all others. |
| Deferred.CompareTrans | lib/c/2014/labcomm2014_pthread_scheduler.c:78-101 | The comparison is transitive, strictly if one side is strict. |
| Deferred.AddUsecExact | lib/c/2014/labcomm2014_pthread_scheduler.c:68-76 | Adding microseconds is exact, stays normalised and never gives the end mark. |
| Deferred.InsertKeepsOrder | lib/c/2014/labcomm2014_pthread_scheduler.c:320-331 | Timed insertion keeps the queue sorted, loses nothing, and puts an action behind all that are due no later. |
| Deferred.Queue.FindPlace | lib/c/2014/labcomm2014_pthread_scheduler.c:323-326 | The scan over the linked queue ends at the sentinel at the latest, in front of the first later element. |
| Deferred.Queue.InsertBefore | lib/c/2014/labcomm2014_pthread_scheduler.c:328-331 | Four pointer assignments keep a well-formed circular doubly linked list and insert the element at one position. |
| Deferred.Queue.InsertByTime | lib/c/2014/labcomm2014_pthread_scheduler.c:320-331 | The linked queue afterwards is the stable sorted insertion of the element. |
| Deferred.Queue.Remove | lib/c/2014/labcomm2014_pthread_scheduler.c:143-149 | Unlinking the first element keeps the list well formed and the others in place. |
| Sections.Queues.Enqueue | lib/c/2014/labcomm2014_pthread_scheduler.c:300-337 | An immediate action goes last; a delayed one goes to its sorted place; the other queue is untouched. |
| Sections.Queues.TakeImmediate | lib/c/2014/labcomm2014_pthread_scheduler.c:161-163 | The first immediate action is taken, if there is one. |
| Sections.Queues.TakeDue | lib/c/2014/labcomm2014_pthread_scheduler.c:164-172 | The first delayed action is taken if and only if it is due; the sentinel never is. |
| Sections.Queues.EnqueueTurn | lib/c/2014/labcomm2014_pthread_scheduler.c:317-333 | On linked queues that stand for a state of the interleaved model, the critical section of scheduler_enqueue is the step of that model. |
| Sections.Queues.LoopTurn | lib/c/2014/labcomm2014_pthread_scheduler.c:161-172 | So is one turn of either loop of run_deferred, and it starts the action that the step starts. |
| Scheduler.StepKeepsInv | lib/c/2014/labcomm2014_pthread_scheduler.c:143-213 | Every step of every thread keeps the scheduler's invariant, whatever the actions do. |
| SchedulerRuns.EveryRun | lib/c/2014/labcomm2014_pthread_scheduler.c:143-337 | After every interleaving each action is queued, running or done exactly once, at most one runs, the data mutex has one holder, immediate actions start in order, and delayed ones are sorted. |
| SchedulerRuns.StartsInOrder | lib/c/2014/labcomm2014_pthread_scheduler.c:156-172 | An action is started when none runs; it is the longest waiting immediate one, or the first delayed one and due. |
| SchedulerRuns.LoopsEnd | lib/c/2014/labcomm2014_pthread_scheduler.c:161-174 | On leaving the loops the first delayed action is later than the sampled time, and the immediate queue holds exactly what was enqueued since. |
| SchedulerWriter.ActionUnderWriterLockIff | lib/c/2014/labcomm2014_pthread_scheduler.c:188-213 | In every run, writer_lock or writer_unlock starts an action while its thread holds the writer mutex if and only if the thread held it at a call of writer_lock, or an odd number of the call's actions changed that, and not both. |
| SchedulerWriter.NoActionUnderWriterLock | lib/c/2014/labcomm2014_pthread_scheduler.c:188-213 | Hence, if actions give back what they take, exactly if a thread that holds the mutex calls writer_lock, and never in writer_unlock. |
| SchedulerClock.StartsOld | lib/c/2014/labcomm2014_pthread_scheduler.c:164-174 | While the clock does not go back, the second loop starts only actions that were queued before it sampled the time. |
| SchedulerClock.OldDecreases | lib/c/2014/labcomm2014_pthread_scheduler.c:164-174 | Between two samplings the number of those never grows, and each start makes it smaller: the second loop ends, whatever its actions enqueue. |
| SchedulerSleep.SleepsOnQueuedIff | lib/c/2014/labcomm2014_pthread_scheduler.c:156-176 | In every run, a thread starts to wait while an immediate action is queued and no other thread runs actions if and only if it sleeps inside an action, or something was enqueued since run_deferred sampled the time. |
| SchedulerSleep.LostWakeup | lib/c/2014/labcomm2014_pthread_scheduler.c:245-287 | A run after which the only thread waits without time limit although a delayed action has enqueued an immediate one. |
| SchedulerSleep.NestedSleep | lib/c/2014/labcomm2014_pthread_scheduler.c:245-287 | A run after which the only thread waits inside an action although another immediate one is queued. |
| SchedulerLocks.LockedTwice | lib/c/2014/labcomm2014_pthread_scheduler.c:188-200 | A run in which a second writer_lock starts an action while its thread holds the writer mutex. |
| Renaming.NewRenameKeeps | lib/c/2014/labcomm2014_renaming_registry.c:78-189 | Renaming keeps the invariant: no chains, names unique within a base, a base for every rename. |
| Renaming.NewRenameGives | lib/c/2014/labcomm2014_renaming_registry.c:117-189 | The caller gets a rename of the signature's base with the new name, one use is counted and no other rename is touched. |
| Renaming.SameObject | lib/c/2014/labcomm2014_renaming_registry.c:131-142 | Different renames that reach the same name from the same base get the same object. |
| Renaming.FreeRenameGives | lib/c/2014/labcomm2014_renaming_registry.c:191-226 | Releasing uncounts one use, keeps the invariant and touches no other rename. |
| Renaming.ReleasedIsEmpty | lib/c/2014/labcomm2014_renaming_registry.c:202-222 | Without uses the registry is empty if and only if no base is left over. |
| Renaming.LeftoverIff | lib/c/2014/labcomm2014_renaming_registry.c:131-139 | A leftover base comes about exactly when the rename function fails on a signature that was not registered. |
| RenamingLists.Registry.FindName | lib/c/2014/labcomm2014_renaming_registry.c:140-142 | The loop over the linked list ends at the element with the name, or at the pointer where a new one belongs. |
| RenamingLists.Registry.RenameNew | lib/c/2014/labcomm2014_renaming_registry.c:117-189 | With linked lists and entries on the heap: the registry afterwards stands for what the function on registries says, and the result is the object of that rename. |
| RenamingLists.Registry.RenameFree | lib/c/2014/labcomm2014_renaming_registry.c:191-226 | Unlinking keeps the other elements of the list in place, and frees the rename and, with its last rename, the base. |
| RenamingRuns.RenamingEncoder.SetRenamed | lib/c/2014/labcomm2014_renaming_encoder.c:55-89 | A first call counts one use for the table, a second one none. |
| RenamingRuns.RenamingEncoder.Free | lib/c/2014/labcomm2014_renaming_encoder.c:204-221 | Freeing an encoder gives back exactly its own uses. |
| RenamingRuns.EveryRun | lib/c/2014/labcomm2014_renaming_encoder.c:38-89 | For every interleaving of threads use counts equal the uses held, everything held and its base are alive, and when nothing is held the registry is empty unless a rename failed on an unknown signature. |
| Throttle.CutIsComplete | lib/c/2014/experimental/ThrottleDrv/throttle_drv.c:198-230 | The fragments are numbered through, have 1 to frag_size bytes and together are the message. |
| Throttle.Send | lib/c/2014/experimental/ThrottleDrv/throttle_drv.c:161-238 | The loop, watched for any number of turns on any message, has sent and done what the model of its turns says. |
| Throttle.SendsAllIff | lib/c/2014/experimental/ThrottleDrv/throttle_drv.c:198-230 | The loop ends if and only if the announced total is below 255, and ends with exactly the fragments of the message sent if and only if at most 254 are needed. |
| Throttle.NotSent | lib/c/2014/experimental/ThrottleDrv/throttle_drv.c:198-230 | On 255 fragments the loop has not ended after any number of turns; of 65537 it sends one. |
| Throttle.RoundTrip | lib/c/2014/experimental/ThrottleDrv/throttle_drv.c:266-308 | Over a lossless link the receiver rebuilds the message. |
| Throttle.AfterLoss | lib/c/2014/experimental/ThrottleDrv/throttle_drv.c:267-308 | From any state, of the messages that arrive intact exactly the first is dropped if the receiver was inside a message, and none otherwise. |
| ThrottleLosses.OnlySentIff | lib/c/2014/experimental/ThrottleDrv/throttle_drv.c:266-308 | Under all losses each delivery is put together from all fragments of one message and no others, if and only if at most one message needs more than one fragment. |
| ThrottleLosses.OnlyWholes | lib/c/2014/experimental/ThrottleDrv/throttle_drv.c:266-308 | In that case not even reordered or repeated fragments make the receiver put together anything else. |
| ThrottleLosses.DeliversSent | lib/c/2014/experimental/ThrottleDrv/throttle_drv.c:266-308 | Then, whatever is lost of the stream, every message that thr_receive delivers is one that was sent. |
| ThrottleLosses.DeliversSplice | lib/c/2014/experimental/ThrottleDrv/throttle_drv.c:288-305 | For any two longer messages there are losses after which thr_receive delivers the beginning of one with the rest of the other. |
| ThrottleLosses.ThenIntact | lib/c/2014/experimental/ThrottleDrv/throttle_drv.c:285-304 | After any losses, of the messages that then arrive intact at most the first is dropped. |
| ThrottleLosses.Splice | lib/c/2014/experimental/ThrottleDrv/throttle_drv.c:288-305 | For any two longer messages there are losses after which the beginning of one and the rest of the other are delivered as a message. |
| Throttle.Receive | lib/c/2014/experimental/ThrottleDrv/throttle_drv.c:240-340 | thr_receive returns with the first complete message and has used no later frame. |
| Introspection.Verdict | examples/twoway/introspecting.c:51-123 | After any events at all a known local signature is registered if it was started, else unregistered if and only if a matching announcement stood when it was first asked for, or has come since. |
| Introspection.ConfluentIff | examples/twoway/introspecting.c:51-123 | This is what the set of events tells if and only if it was started or not all its announcements were overwritten before. |
| Introspection.NeverRegresses | examples/twoway/introspecting.c:51-123 | No event takes a status back. |
| Introspection.Confluent | examples/twoway/introspecting.c:51-123 | After any interleaving a known local signature is registered if it was started, else unregistered if a matching announcement was seen, else unhandled. |
| Introspection.OrderDoesNotMatter | examples/twoway/introspecting.c:51-123 | Two runs with the same events end with the same statuses. |
| Introspection.OverwritingLoses | examples/twoway/introspecting.c:87-105 | Overwriting an announcement makes the order matter. |
| Introspection.Introspecting.HandlesSignature | examples/twoway/introspecting.c:87-123 | An announcement is entered and every unhandled local signature that matches becomes unregistered, no other changes. |
| Introspection.Introspecting.WriterStart | examples/twoway/introspecting.c:224-241 | Starting a registration makes the local signature registered. |
| DecoderRegistry.AnyOrder | lib/java/se/lth/control/labcomm2014/DecoderRegistry.java:102-162 | Whatever the order of handler registrations and definitions, nothing throws and get returns an entry with that index, name, signature and the latest handler, for exactly the indices that were defined or belong to a registered raw class. |
| DecoderRegistry.Registry.Register | lib/java/se/lth/control/labcomm2014/DecoderRegistry.java:102-137 | With entry objects that the two maps share, and the fixed entries of TypeDef and TypeBinding: the objects afterwards stand for what the function on registries says, exception included. |
| DecoderRegistry.Registry.Define | lib/java/se/lth/control/labcomm2014/DecoderRegistry.java:139-158 | The same for definitions: an index is set on an object that the other map sees as well. |
| DecoderRegistry.ReplayAndGet | lib/java/se/lth/control/labcomm2014/DecoderRegistry.java:102-162 | Any sequence of registrations and definitions on a new registry of shared objects, and then get: it returns the object with that index, name, signature and the latest handler, and null for the other indices. |

## Left out

- Integer overflow of array products and linear indices in the generated code: products of dimensions are taken to be below 2^31.
- Failing reads inside a generated decoder: the interpreter stops there, while the C code goes on with zeros and drops the handler call.
- A string whose length is 2^31 or more: read_string asks for a negative size and gives NULL, here the string is empty.
- Deallocation of void: the source declares none for VoidType, and the type check keeps void out of fields and elements; here it is an empty statement.
- A TYPE_DEF packet without a name, whose raw handler gets a NULL name in C: here the decoder stops.
- Parsing of TYPE_DEF bodies by the small-target parser, whose nested type numbers are not flat signatures; its unreachable skip functions.
- Memory behind a message, which the endless loop of thr_send reads, and failing transmissions.
- Sample definitions nested inside a declaration, which the Python parser would accept.
- Signals and spurious wakeups of condition variables as such: a waiting thread may go on at any time.
- Which thread gets a mutex, fairness and liveness.
- DecoderRegistry.AnyOrder: assumes that classes, samples and user indices correspond one to one and that the raw classes are registered once, because otherwise the code picks among several entries.
- Sockets, raw Ethernet, clocks, ioctl, allocation failure, error printing, big-endian hosts.
- Java and C# code generation and run times, the Java typedef parser, value encoding in Python, renaming and merging of decoders, decimation, MATLAB tools, example programs.
