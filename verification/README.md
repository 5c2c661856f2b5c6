# Verified model of the screen-sharing encoder and collaboration server

A Dafny model of the stateful parts of EncoderWithWebSocket, with proofs of what they keep over
whole runs. `dafny verify dfyconfig.toml` checks everything.

| file | models |
|---|---|
| `Fifo.dfy`, `EncoderCQ.dfy` | the circular queue: the bounded FIFO it stands for, the queue as shipped, and a class over an array |
| `Reframer.dfy`, `AvClock.dfy` | cutting audio buffers into frames, the pts, rescaling it to video ticks, silence and resynchronisation |
| `AudioPipeline.dfy`, `AudioOnly.dfy`, `AudioEncoder.dfy` | queue, padding, framing and clock together, the loop without video, and the class that updates their state in place |
| `DirtyBox.dfy`, `DeltaStream.dfy`, `JpegCompressor.dfy` | the change scan, the patch stream with a client, every interleaving with full-frame requests, and the loop as a class |
| `ClientTable.dfy`, `RoleTable.dfy`, `Collabo.dfy`, `CollaboInvariants.dfy`, `CollaboEffects.dfy`, `CollaboServer.dfy` | the server: client list, database roles, one step a handler, invariants over runs, who may cause what, and the handlers as a class |
| `MemberList.dfy` | the connected-members message and the alert, and how they read back |
| `ImageService.dfy` | server and image loop together, seen from one socket |
| `Base64.dfy`, `MeetingNumber.dfy` | the codec and the meeting number cut from a decoded code |
| `Bytes.dfy`, `Arithmetic.dfy` | shared types and arithmetic facts |

Code that updates state is a class whose methods are proved against step functions on values; the
properties are then proved about those functions, over every run. Handlers and queue operations are
atomic, except that the image loop's flag test, its two effects and its send are separate steps.

## What the code does not do

Some expectations turned out false of the code as written. Each is kept as the code has it, with the
exact condition under which the expectation holds.

- The queue's full test misses the state `front == 0, rear == maxsize`. An enqueue there is acknowledged
  and everything is lost (`ShippedStepDeparture`, `ShippedRefinesIff`, `FillingLosesEverything`). `size()` is
  one too small when wrapped, and `clear()` does not release the element at position 0.
- The queue has no cell for position 0: the source writes and reads index -1 there. A run stays inside the
  allocated cells iff at most maxsize enqueues succeed between two clears (`StaysInCellsIff`).
- A change of a one-pixel frame is never sent (`NothingReportedIff`, `OnePixelExample`).
- A socket that opens while some entry has not been admitted is refused by the unique index. Its close then
  erases the end iterator; an opened socket can close iff nobody was waiting when it came (`RefusedCannotClose`).
- If that entry was the only one, START is sent again to a running encoder. In image mode a second image loop
  starts (`StepKeepsLoopsIff`, `RunLoopsIff`, `SecondStartExample`). In either mode, once packets have come, the
  header is captured again from the middle of the stream, and every INIT from then on carries those packets
  instead of the first two (`StepKeepsHeaderIff`, `RunHeadersIff`, `LateStartExample`, `LateStartInit`).
- AUTHORITY on the chief, CHIEF across meetings, and a role above 2 for a socket whose flags are already set make
  memory and database disagree (`StepAgreesIff`, `RunAgreesIff`).
- A chief's CHIEF may name the waiting entry by its empty mcode. That socket's mouse and keyboard messages pass from
  then on although it was never admitted (`ChiefToWaitingExample`). Messages pass exactly from admitted sockets with
  role 0 or 1 after every event of a run iff each CHIEF from a chief names an admitted socket, and either names the
  sender or comes from a sender that still has authority and goes to its own meeting or to somebody with authority,
  and no SETTING gives a socket with authority a role above 2 (`StepKeepsInputIff`, `InputAllowedIff`). While memory
  and database agree the first condition alone decides (`ConsiderateInputIff`).
- A socket that sends SETTING again under another mcode is sent INIT again in the middle of its stream; everybody has
  one INIT a stream iff nobody does that with the header complete (`StepKeepsSingleIff`, `RunSinglesIff`).
- In image mode silence is framed at once, past the queue: it overtakes captured audio still waiting there
  (`StepKeepsOrderIff`, `SoloInOrderIff`).
- `sendImageInit` reaches only those admitted when an image loop starts or the screen is resized: whoever is admitted
  in between is sent a full frame but no size until the next resize (`ToldIffResized`).
- Video requests follow every tick only while an audio frame is no longer than a video tick
  (`EveryTickRequestedIff`).
- Padding to the video clock is negative, and clears a negative number of bytes, unless video is not behind, or
  is behind by less than a byte and the element is empty (`PaddedSizeIsExact`).

## Reading the model

- Byte counts ignore channels, as the source's do. The audio time base is 1/samplerate.
  `av_rescale_q` is nearest, halves away from zero; real arithmetic is exact.
- The silent flag is written by another thread. Its value is a parameter, given per frame and per dequeue.
- The array of the class `EncoderCQ` has one cell more than the source allocates, so that position 0 has a cell
  (`PositionZeroIsLiveIffWrapped`). `EnqueueIntended` is not in the source: it is enqueue with the full test taken
  modulo the number of positions.
- `Dequeue` may be called only when its wait would end: not empty, not waiting, or stopped.
- The JPEG codec is lossless and never fails. On an encoding error the source still advances `prevBuf`, so the
  refinement needs this.
- `terminate()` takes effect at once, so SETTING finds no second entry with its mcode. A socket that the table
  refused neither sends nor closes: the source dereferences or erases the end iterator there.
- `packets` is the stream of the running encoder; a START that finds it running does not begin another one. A
  table entry's `video` is what the socket has been sent of that stream.
- A stopped image loop is gone by the next START.

## Model

| member | source | states |
|---|---|---|
| Fifo.FirstInFirstOut | EncoderCQ.cpp:55-90 | for every sequence of operations, held and accepted elements leave exactly once and in order, delivered or released by clear, or are still held; at most capacity are held |
| Fifo.OutputsAreDelivered | EncoderCQ.cpp:71-90 | the departures marked delivered are exactly what consumers were handed |
| Fifo.OutputsAreInputsInOrder | EncoderCQ.cpp:55-90 | without a clear, outputs followed by held elements are the initial elements followed by the accepted inputs |
| Fifo.StopStartKeepsItems | EncoderCQ.cpp:92-101 | a stop/start pair, with any enqueues and dequeues tried in between, loses and reorders nothing |
| Fifo.ShippedStepDeparture | EncoderCQ.cpp:61-66 | the full test as written and the intended one disagree iff front is 0 and rear is maxsize; accepting there empties the queue, everywhere else the step is the FIFO's |
| Fifo.ShippedRefinesIff | EncoderCQ.cpp:27-101 | a run of the shipped queue answers like the bounded FIFO iff it never enqueues in that state |
| Fifo.FillingLosesEverything | EncoderCQ.cpp:61-66 | filling a queue whose front is 0 reaches that state, and the next enqueue leaves nothing |
| Fifo.DequeuesDeliver | EncoderCQ.cpp:71-90 | a running queue answers as many dequeues as it holds elements with success, hands them out oldest first and keeps the rest |
| Fifo.EnqueuesAccepted | EncoderCQ.cpp:55-69 | a running queue accepts elements up to its capacity, in order, from any front position |
| Fifo.RoundTrip | EncoderCQ.cpp:55-90 | what was accepted comes out again behind what was there before |
| Fifo.AnswersTell | EncoderCQ.cpp:55-90 | which of success, full, stopped and no element is answered, exactly; any answer but success changes nothing |
| Fifo.StaysInCellsIff | EncoderCQ.cpp:64-87 | a run from the empty queue never touches position 0, index -1 of the array, iff at most maxsize enqueues succeed between two clears |
| CircularQueue.PositionZeroIsLiveIffWrapped | EncoderCQ.cpp:64-66 | an element lies at an index outside the allocated cells iff the queue is wrapped |
| CircularQueue.EncoderCQ.constructor | EncoderCQ.cpp:12-19 | a new queue is empty and running |
| CircularQueue.EncoderCQ.Enqueue | EncoderCQ.cpp:55-69 | performs the shipped step on the array; while it runs and has room the element goes in at the end; a refusal changes nothing |
| CircularQueue.EncoderCQ.Dequeue | EncoderCQ.cpp:71-90 | while it runs and holds an element, hands out the oldest and keeps the rest; else answers stopped or empty and changes nothing |
| CircularQueue.EncoderCQ.Clear | EncoderCQ.cpp:27-46 | empties the queue; releases every element when not wrapped, and every one but that at position 0 when wrapped, in the stated order |
| CircularQueue.EncoderCQ.Size | EncoderCQ.cpp:48-53 | is the number of elements when not wrapped and one less when wrapped |
| CircularQueue.EncoderCQ.Start | EncoderCQ.cpp:92-95 | lifts the stop and keeps the elements |
| CircularQueue.EncoderCQ.Stop | EncoderCQ.cpp:97-101 | stops and keeps the elements |
| Reframer.FeedConserves | Encoder.cpp:691-710 | frames then carry are the old frames, the old carry and the buffer, byte for byte; the carry is shorter than a frame |
| Reframer.FeedCounts | Encoder.cpp:695-718 | a call emits (carry + size) div F frames, carries (carry + size) mod F, and the n-th frame since initialize has pts n * nb_samples and F bytes |
| Reframer.FeedCutsInOrder | Encoder.cpp:695-718 | the k-th new frame is bytes kF to (k+1)F of carry and buffer |
| Reframer.FeedTwice | Encoder.cpp:691-739 | feeding two buffers is feeding their concatenation |
| Reframer.ChunkingIsIrrelevant | Encoder.cpp:691-739 | any two splittings of a byte stream give the same frames, pts and carry |
| AvClock.CopiesAgree | Encoder.cpp:609-685 | the framing inside the loop yields the same frames, pts and carry as encodeAudioImpl |
| AvClock.FrameKeepsSync | Encoder.cpp:636-659 | after each frame, silent or sounding, videoSyncPts is the rescaled pts of that very frame |
| AvClock.FeedKeepsSync | Encoder.cpp:612-684 | between buffers the clock is that of the frames sent so far, and the requests are those of the frames that moved it while sounding |
| AvClock.RescaleIsNearest | Encoder.cpp:638 | a rescaled pts is within half a tick of the exact value, and the later tick in the middle between two |
| AvClock.SyncMoves | Encoder.cpp:638-651 | one frame never moves the tick back, and by at most one if a frame is no longer than a tick |
| AvClock.StretchRequests | Encoder.cpp:637-649 | over any sounding stretch requests never exceed the growth of the tick, and equal it when nb_samples * framerate <= samplerate |
| AvClock.EveryTickRequestedIff | Encoder.cpp:637-649 | every tick of every all-sounding stretch is requested iff nb_samples * framerate <= samplerate |
| AvClock.NoDrift | Encoder.cpp:636-659 | an all-sounding run has requested as many frames as ticks, within half a tick of the audio clock |
| AvClock.SilentDrift | Encoder.cpp:410-415 | n silent buffers fall short of the video time by less than n bytes, and by nothing iff the framerate divides |
| AvClock.PaddedSizeIsExact | Encoder.cpp:559-564 | the padded size, truncated towards zero, is the element plus the lead of the video clock in whole bytes; it is no smaller than the element iff video is not behind, or behind by less than a byte with an empty element |
| AvClock.ResyncMeetsVideo | Encoder.cpp:557-572 | after padding, bytes framed, carried and fed are the video time in bytes rounded down plus carry and element; exact when framerate divides samplerate |
| AudioPipeline.AudioIsConservedIff | Encoder.cpp:496-572 | after every event of every run the accepted buffers are those framed, carried and queued, with the padding where it was inserted, iff no enqueue met the queue's blind spot |
| AudioPipeline.RunInStep | Encoder.cpp:636-659 | over every run framing, pts and video requests are in step |
| AudioPipeline.AudioBytesEndToEnd | Encoder.cpp:496-510 | frames, then carry, then queued bytes are the accepted buffers with their padding |
| AudioPipeline.FlagFollows | Encoder.cpp:546-571 | over any stretch of a run in which the silent flag keeps its value, the copy of the loop takes it with the first element that is not of its kind |
| AudioPipeline.FirstOldIsPadded | Encoder.cpp:548-572 | on every run, exactly that element is padded, by the lead of the video clock in whole bytes; every other element is framed as it is |
| AudioPipeline.FirstOldMeetsVideo | Encoder.cpp:548-572 | with it the bytes framed and carried are the video time in bytes, rounded down, plus the carry and the element, and the copy equals the flag |
| AudioPipeline.OfferIsQueued | Encoder.cpp:410-416 | with room in a running queue a captured buffer goes in unchanged, and a silent tick puts in as many zeros as 1/fps of a second has bytes |
| AudioPipeline.SilenceDriftsOverRun | Encoder.cpp:410-416 | over every run the same holds of the silence queued by its accepted silent ticks |
| AudioPipeline.RestartIsInitial | Encoder.cpp:687 | stop, the clear of the stopped loop and the next start, with anything tried in between, give the next stream an empty queue at front 0 |
| AudioOnly.SoloIsConservedIff | Encoder.cpp:515-543 | in the loop without video, after every event of every run, the accepted buffers are those framed and those queued, in order, iff no enqueue met the queue's blind spot |
| AudioOnly.SoloFramesInStep | Encoder.cpp:515-543 | over every run of it frames then carry are the bytes of everything framed, silence included, in as many full frames as they make, with the right pts |
| AudioOnly.TakesFrame | Encoder.cpp:531-541 | n iterations while not silent frame the n oldest queued buffers, one each and in order |
| AudioOnly.ArrivalsAreKept | Encoder.cpp:496-528 | an arriving buffer is queued while there is room, and silence is framed whatever the queue holds |
| AudioOnly.SoloInOrderIff | Encoder.cpp:518-541 | a run of it frames everything in the order it came in iff no silence comes while captured buffers are queued and no enqueue meets the blind spot |
| AudioOnly.StepKeepsOrderIff | Encoder.cpp:518-541 | the same of one event |
| AudioOnly.SoloSilenceDrifts | Encoder.cpp:520-528 | the silence framed by n such threads falls short of the time it stands for by less than n bytes, and by nothing iff the framerate divides |
| AudioEncoding.AudioEncoder.Initialize | Encoder.cpp:14-39 | resets pts, carry and clock if stopped; otherwise answers already initialized and changes nothing |
| AudioEncoding.AudioEncoder.Stop | Encoder.cpp:257-276 | stops encoder and audio queue once; the elements stay until the loop leaves |
| AudioEncoding.AudioEncoder.LeaveLoop | Encoder.cpp:687 | the stopped loop empties the queue |
| AudioEncoding.AudioEncoder.EncodeAudio | Encoder.cpp:496-510 | queues a buffer unless stopped, and says whether it was accepted |
| AudioEncoding.AudioEncoder.QueueSilence | Encoder.cpp:410-416 | queues audioBytes * rate / fps zero bytes |
| AudioEncoding.AudioEncoder.EncodeAudioImpl | Encoder.cpp:691-739 | the loop over the frame buffer computes the framing of the buffer |
| AudioEncoding.AudioEncoder.AudioOnlyIteration | Encoder.cpp:517-542 | one iteration without video frames fresh silence while silent, else the element it dequeues, unchanged |
| AudioEncoding.AudioEncoder.FrameWithClock | Encoder.cpp:609-685 | the loop inside encodeAudioLoop computes framing and clock of the buffer |
| AudioEncoding.AudioEncoder.PadToVideo | Encoder.cpp:559-567 | appends the padding that brings audio up to video, and nothing to an empty element less than a byte late |
| AudioEncoding.AudioEncoder.EncodeAudioIteration | Encoder.cpp:548-685 | one iteration dequeues, pads if the silent flag is seen changed, frames and requests video |
| DirtyBox.CompareAt | JpegCompressor.cpp:69-70 | both 4-byte reads stay inside the w*h*3 bytes at every scanned pixel, and tell whether the windows differ |
| DirtyBox.Scan | JpegCompressor.cpp:51-87 | the nested loops report no change iff no window differs, else the smallest box around those that do |
| DirtyBox.HotIff | JpegCompressor.cpp:69-70 | a window differs iff the pixel changed or the first byte of its raster successor did |
| DirtyBox.ScanIsDetermined | JpegCompressor.cpp:58-87 | at most one result fits two frames |
| DirtyBox.SmallestBox | JpegCompressor.cpp:71-87 | every box around the differing windows contains the reported one |
| DirtyBox.BoxInFrame | JpegCompressor.cpp:71-87 | a reported box is non-empty and inside the frame |
| DirtyBox.BoxIsSound | JpegCompressor.cpp:58-87 | a reported box contains every changed pixel but possibly the bottom-right one |
| DirtyBox.NothingReportedIff | JpegCompressor.cpp:58-84 | nothing is sent iff the frames agree on all but their last two bytes, or are a single pixel |
| DirtyBox.OnePixelExample | JpegCompressor.cpp:60-68 | a one-pixel frame turning from black to white is not reported |
| DeltaStream.DeltaRefinesFullFrames | JpegCompressor.cpp:32-148 | in every interleaving a client that had a full patch since its join or the last resize shows the last captured frame at every pixel but the bottom-right one, which is that of the last frame whose patch reached it |
| DeltaStream.WireTells | JpegCompressor.cpp:34-43 | in every interleaving the sizes announced are exactly the captured ones that differ from the one before, and patches are numbered consecutively, one for each iteration that found something to send |
| DeltaStream.ClientKnowsSize | JpegCompressor.cpp:35-38 | on every run a client told a size since it joined knows that of the last captured frame, every patch lies inside it, and a resize is announced to every joined client at once |
| DeltaStream.ToldIffResized | JpegCompressor.cpp:23-38 | a client that joined while the loop runs has been told a size iff the size has changed since |
| DeltaStream.PatchesFit | JpegCompressor.cpp:107-145 | a patch is non-empty, lies in the captured frame and carries its pixels and the current number |
| DeltaStream.FullPatchesAreAskedFor | JpegCompressor.cpp:39-53 | on every run there are no more sends without a previous frame than starts, resizes and requests |
| DeltaStream.FullRequestNeverLost | JpegCompressor.cpp:44-53 | in every interleaving of sendFull with the loop's test, clear and send, one of the next two sends is a full patch |
| DeltaStream.JoinedClientCatchesUp | JpegCompressor.cpp:107-157 | a client that joined and asked for a full frame shows the last captured frame from the second send on, through all later resizes |
| ImageService.AdmittedSocketCatchesUp | Collabo.cpp:459-460 | on every run of server and image loop, whenever no second loop runs, an admitted socket in image mode shows the last captured frame but its bottom-right pixel, from the second send after its admission or the start of the loop on |
| ImageLoop.JpegCompressor.constructor | JpegCompressor.cpp:11-31 | the loop starts without a previous frame and announces its size |
| ImageLoop.JpegCompressor.SendFull | JpegCompressor.cpp:155-157 | raises the flag and nothing else |
| ImageLoop.JpegCompressor.Prepare | JpegCompressor.cpp:34-50 | resize and flag test performed as the steps of the state machine, with their messages on the wire |
| ImageLoop.JpegCompressor.Iterate | JpegCompressor.cpp:32-148 | one iteration is the state machine's capture, test, effects and send, and puts exactly their messages on the wire |
| ClientTable.InsertMembers | Collabo.cpp:52-62 | an insertion adds the entry iff its mcode is new |
| ClientTable.InsertKeepsTable | Collabo.cpp:52-62 | the list stays ordered and unique by mcode, and each socket is there once |
| ClientTable.LessIsLexicographic | Collabo.cpp:52-62 | the order of the list is decided by the first differing byte, with the shorter mcode first if there is none |
| RoleTable.UpdateSeenBy | MySQLConnector.cpp:176-187 | a role update is seen by that member in that meeting and by nobody else |
| RoleTable.RoleByNumber | MySQLConnector.cpp:37-64 | the look-up with an encoded code finds exactly the row of that member in the meeting numbered before "from" |
| RoleTable.ChangeChiefKeepsOneChief | MySQLConnector.cpp:231-260 | handing the role on leaves at most one chief row in every meeting |
| CollaboInvariants.SettingMembers | Collabo.cpp:386-403 | SETTING replaces the socket's entry and whoever held the mcode by the admitted client, and touches nobody else |
| CollaboInvariants.StepKeepsTable | Collabo.cpp:281-499 | every handler keeps the table ordered and unique, and its unset entry untouched but for rights a CHIEF may have given it |
| CollaboInvariants.StepKeepsRunning | Collabo.cpp:281-291 | after every handler the encoder runs iff the client list is non-empty, also when START comes while it runs |
| CollaboInvariants.StepKeepsLoopsIff | Collabo.cpp:467-499 | a handler keeps exactly one image loop in image mode with a client connected, and none otherwise, iff it is no open beside a sole unset entry |
| CollaboInvariants.SecondStartExample | Collabo.cpp:285-290 | two opens before any admission leave one entry and two image loops |
| CollaboInvariants.StepKeepsJoin | Collabo.cpp:229-251 | every handler keeps this: an admitted client has been sent nothing while the header is incomplete, then INIT with the two packets captured since the last START and every packet since it joined, with nothing but that INIT repeated in between; the header fits its buffer |
| CollaboInvariants.StepKeepsSingleIff | Collabo.cpp:457-458 | a handler leaves everybody with at most one INIT of the stream iff it is no SETTING from an admitted socket of a known member with the header complete |
| CollaboInvariants.StepKeepsHeaderIff | Collabo.cpp:529-533 | a handler keeps the header the first two packets of the stream iff it is no open beside a sole unset entry with the stream under way |
| CollaboInvariants.LateStartExample | Collabo.cpp:285-290 | open, two packets, a refused open, two packets: the header is the third and fourth packet of the running stream |
| CollaboInvariants.LateStartInit | Collabo.cpp:457-458 | the member then admitted is sent INIT with that header |
| CollaboInvariants.JoinPointStays | Collabo.cpp:240-248 | no handler or packet, a further SETTING included, changes the packet a client joined the stream at |
| CollaboInvariants.RunJoinPointStays | Collabo.cpp:229-251 | between any two points of one stream a socket that stays connected has been sent exactly the packets from the same one on |
| CollaboInvariants.JoinsWithHeader | Collabo.cpp:240-246 | a client admitted before the header is complete joins right behind its two packets |
| CollaboInvariants.GreetedLog | Collabo.cpp:457-458 | a client admitted after the header is complete has been sent exactly INIT and joins at the next packet; one admitted before is sent INIT again and nothing else |
| CollaboInvariants.AuthorityAgreesIff | Collabo.cpp:327-342 | AUTHORITY from the chief keeps memory and database in agreement iff the named member is not chief |
| CollaboInvariants.ChiefAgreesIff | Collabo.cpp:357-368 | CHIEF, to oneself too, keeps them in agreement iff the named socket is not admitted, is in the same meeting or is chief already |
| CollaboInvariants.SettingAgreesIff | MySQLConnector.cpp:64-76 | SETTING keeps them in agreement iff the member is unknown, its role is at most 2, or the socket has neither flag set |
| CollaboInvariants.StepAgreesIff | Collabo.cpp:327-403 | each admitted client is chief iff its role is 0 and has authority iff its role is 0 or 1; a handler keeps that iff it is no AUTHORITY on a chief, no such CHIEF, and no SETTING that gives a flagged socket a role above 2 |
| CollaboInvariants.StepKeepsOneChiefRow | MySQLConnector.cpp:202-260 | no handler creates a second chief row in a meeting |
| CollaboInvariants.AtMostOneChief | Collabo.cpp:357-368 | with one chief row a meeting has at most one connected chief |
| CollaboInvariants.RunAtMostOneChief | Collabo.cpp:357-368 | in a considerate run from one chief row per meeting, no meeting ever has two connected chiefs |
| CollaboInvariants.RunInvariants | Collabo.cpp:281-499 | after every event of every run, also after a CHIEF to the unset entry: table, encoder state and join protocol as captured |
| CollaboInvariants.RunHeadersIff | Collabo.cpp:229-251 | after every event of a run the header is the first two packets of its stream iff no such open occurs in it |
| CollaboInvariants.RunJoinsFirstTwo | Collabo.cpp:229-251 | until such an open, everybody admitted has been sent INIT with the first two packets of the stream and every packet since joining, and nothing else if no SETTING repeated an INIT |
| CollaboInvariants.RunSinglesIff | Collabo.cpp:457-458 | after every event of a run nobody has had two INITs of its stream iff no SETTING in it repeats one |
| CollaboInvariants.RunLoopsIff | test_collabo.h:278-298 | after every event of a run there is exactly one image loop in image mode with a client, none otherwise, iff no open beside a sole unset entry occurs in image mode |
| CollaboInvariants.RunAgrees | Collabo.cpp:327-403 | in a run of considerate handlers memory and database agree and chief rows stay unique |
| CollaboInvariants.RunAgreesIff | Collabo.cpp:327-403 | after every event of a run memory and database agree iff every AUTHORITY, CHIEF and SETTING in it is considerate |
| CollaboInvariants.RunMemberList | Collabo.cpp:423-454 | at every point of every run the member list reads back as exactly the admitted clients, with an unused tail of 0 or 14 bytes |
| CollaboInvariants.RefusedCannotClose | Collabo.cpp:494-495 | an opened socket is in the table, so that its close finds it, iff every entry had been admitted |
| CollaboInvariants.InputAllowedIff | Collabo.cpp:307-326 | after every event of a run mouse and keyboard messages pass exactly from admitted sockets with role 0 or 1, iff every CHIEF from a chief in it names an admitted socket, which is itself, or comes with authority and goes to its own meeting or to somebody with authority, and no SETTING gives a socket with authority a role above 2 |
| CollaboInvariants.StepKeepsInputIff | Collabo.cpp:357-368 | one handler keeps that iff it is no other CHIEF and no such SETTING |
| CollaboInvariants.ConsiderateInputIff | Collabo.cpp:357-368 | in a considerate run that holds iff no chief's CHIEF names a socket that is not admitted |
| CollaboInvariants.ChiefToWaitingExample | Collabo.cpp:357-368 | a chief's CHIEF with an empty destination while a socket waits gives that socket authority and chief, and leaves the sender with role 1 |
| CollaboInvariants.SameRightsWheneverAdmitted | MySQLConnector.cpp:65-76 | a member admitted at two points of a run for the same meeting has the same rights at both, whatever lies between, as long as no chief touches its row |
| CollaboInvariants.ReconnectRestoresRights | MySQLConnector.cpp:65-76 | a member who closes and comes back while nobody waits is admitted with the same rights |
| CollaboEffects.ModeChangesIff | Collabo.cpp:467-486 | a handler changes the mode iff it is a MODE that names the other one from an admitted chief, which starts a new stream for everybody connected; any other MODE changes nothing |
| CollaboEffects.ModeNeedsRole0 | Collabo.cpp:467-486 | in a considerate run only a member whose row has role 0 changes the mode |
| CollaboEffects.UnknownLeaves | Collabo.cpp:463-464 | SETTING without a row removes exactly that socket, and stops encoder and image loop if it was the last |
| CollaboEffects.LastSettingTells | Collabo.cpp:386-403 | on every run a socket that stays connected is admitted under the mcode, code, custom and name of its last SETTING, with the role its row had then |
| CollaboEffects.WaitingHasSentNone | Collabo.cpp:386-464 | on every run whoever waits has sent no SETTING since it connected |
| CollaboEffects.RightsFollow | Collabo.cpp:327-368 | apart from its own SETTING, the flags of an entry change exactly when an AUTHORITY or CHIEF from a chief names it, or when it hands its role on |
| CollaboEffects.AuthorityTwice | Collabo.cpp:327-342 | AUTHORITY for a member who is not chief, sent twice, restores memory and database |
| CollaboEffects.WaitingClearIff | Collabo.cpp:357-368 | a handler leaves whoever waits without rights iff it is no CHIEF from a chief to whoever waits |
| CollaboEffects.RunRoles | MySQLConnector.cpp:178-181 | no run stores a role other than 0, 1 and 2 |
| CollaboEffects.FullRequestsIff | Collabo.cpp:459-460 | a full frame is requested exactly by the SETTING of a known member in image mode |
| CollaboEffects.RunStream | Collabo.cpp:229-251 | on every run the packets that logs are measured by are those the encoder has put out since the first socket opened or the mode changed |
| CollaboServing.CollaboServer.constructor | Collabo.cpp:118-130 | the server starts empty, stopped and in image mode |
| CollaboServing.CollaboServer.ReadPacket | Collabo.cpp:229-251 | copies a packet into the header buffer or sends it to every admitted client |
| CollaboServing.CollaboServer.StartStreaming | Collabo.cpp:529-597 | starts the header capture over, an image loop in image mode, and the encoder with a new stream unless it runs |
| CollaboServing.CollaboServer.StopStreaming | Collabo.cpp:599-610 | stops the encoder, and in image mode the image loop |
| CollaboServing.CollaboServer.OnOpen | Collabo.cpp:281-291 | inserts the socket unless an entry still waits, and starts streaming whenever one entry is in the list |
| CollaboServing.CollaboServer.OnSetting | Collabo.cpp:386-466 | a known member's entry replaces that of the socket and of the former holder of its mcode, with the rights of its role, is sent INIT if the header is complete, and in image mode a full frame is requested; the alert reads back as it and the list as everybody admitted; anybody else is dropped |
| CollaboServing.CollaboServer.OnAuthority | Collabo.cpp:327-342 | from a chief, flips the named member's authority in memory and sets its role to 1 or 2; from anybody else, nothing |
| CollaboServing.CollaboServer.OnChief | Collabo.cpp:357-368 | from a chief, moves the chief flag to the named socket, admitted or not, which also gains authority, and role 0 to the row of that mcode in the sender's meeting; the sender is left with role 1 |
| CollaboServing.CollaboServer.OnMode | Collabo.cpp:467-486 | from an admitted chief, stops the stream in the old mode and starts it in the new one if they differ |
| CollaboServing.CollaboServer.OnClose | Collabo.cpp:490-499 | removes exactly that socket and stops streaming when it was the last |
| MemberList.Build | Collabo.cpp:423-454 | the loops write the records of the admitted clients, nothing outside the allocation, and leave 14 bytes for each entry not admitted |
| MemberList.MemberListRoundTrip | Collabo.cpp:423-454 | the written part reads back as exactly the admitted clients in mcode order, and the unused tail is 0 or 14 bytes |
| MemberList.AlertRoundTrip | Collabo.cpp:405-420 | the alert reads back as the client just admitted |
| Base64.EncodeTriple | Base64.cpp:11-16 | three bytes become the four sextets of RFC 4648, section 4, and the rest is encoded on its own |
| Base64.EncodeShortGroup | Base64.cpp:11-16 | one or two bytes at the end become two or three sextets filled with zero bits |
| Base64.EncodeByGroups | Base64.cpp:11-16 | the characters of an encoding are those of its first group followed by the encoding of the rest |
| Base64.EncodeEnds | Base64.cpp:11-16 | the characters of a last group of one or two bytes, with its two or one "=" |
| Base64.AlphabetIsStandard | Base64.cpp:11-16 | the character of a sextet is that of RFC 4648, section 4 |
| Base64.EncodedLength | Base64.cpp:15 | four characters for every three bytes begun, with the padding of RFC 4648, section 4 |
| Base64.DecodeEncode | Base64.cpp:3-16 | decoding an encoding gives the bytes up to their trailing NULs, at all three residues |
| Base64.RoundTripIff | Base64.cpp:3-16 | decode undoes encode iff the bytes do not end in NUL |
| Base64.DecodeUnpadded | Base64.cpp:3-9 | an encoding without its "=" decodes to the same bytes |
| Base64.DecodeSomeIff | Base64.cpp:3-9 | decode fails iff a character is neither of the alphabet nor "=", or the length is 4k + 1 |
| MeetingNumber.MeetingRecoveredIff | MySQLConnector.cpp:47-50 | the cut of an encoded code recovers what precedes "from" iff that has at most nine characters, no NUL and no "from" |
| MeetingNumber.MeetingFoundIff | MySQLConnector.cpp:47-50 | an encoded code can be cut iff a "from" starts among its first ten characters with no NUL before it |

## Left out

- FFmpeg, TurboJPEG, uWebSockets, boost containers, MySQL and JSON are foreign code: only their effect is kept (frame sent, patch delivered, message in a log, role updated).
- Codec and initialization errors and `loopStop`, which end the run.
- Memory effects between the queue's threads: index published before the cell is written, `notify_one` outside the consumer's lock, one wait without a re-check.
- Resynchronisation with a negative padding: the source passes a negative length to `memset`.
- 32-bit overflow of pts and sizes, rounding of `syncDiff`, timestamps, sleeps, logging and bandwidth counters.
- The restart of the encoder on a resize of the video (`Encoder.cpp:381-386`, `Encoder.cpp:403-408`), which does not reset the header capture, and frames queued for the video loop.
- The bytes of the AUTHORITY and CHIEF notifications: a flag, lengths and mcodes, laid out like the alert.
- AUTHORITY from a chief for a socket that is not admitted, and CHIEF from a chief that is not: the source cuts the empty code of that socket through a null pointer. A destination that is not connected, messages from and the close of a socket the table refused, and a SETTING that repeats the sender's own mcode, which terminates the sender and then modifies its erased entry: the source does not handle them.
- What two image loops running at once draw between them: each keeps a previous frame of its own. `RunLoopsIff` says when that happens.
- The thread that frames silence in image mode runs at one point of time, at any point; the source's unlocked access from several such threads is left out.
- `AgentManager`, `WebSocketServer`, `main`, the QEMU start-up files, screen capture and input injection.
- CircularQueue.EncoderCQ.Enqueue: position 0 gets a cell of its own, where the source writes index -1; `StaysInCellsIff` says when that happens.
- CircularQueue.EncoderCQ.Dequeue: the same for reading position 0.
- AudioEncoding.AudioEncoder.EncodeAudio: says whether the buffer was accepted; the source returns a value only when stopped.
- Base64.Decode: a length of 4k + 1 is an error here, because the source's bit iterator runs past the end of the string.
