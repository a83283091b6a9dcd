# Models of the simulator's codec, control runtime, bake service and asset editor

This project models the parts of the simulator whose behaviour is more than one function deep, and proves what they keep:

- **Topic codec and framing** (`Bytes`, `TopicCodec`, `CodecRoundTrip`, `CodecRange`, `CodecLocality`, `TopicEnvelope`,
  `CodecRuntime`; `WireFormat`, `WireTypes`, `WireLayout`). A registry of message schemas drives an encoder and a decoder of bytes.
  Schemas may nest and may even be recursive, as long as every recursion passes a variable-length array; strings are UTF-8 byte
  strings and floats are bit patterns. The loops over cursors and chunks are methods of a class that holds the registry, proved
  equal to the recursive functions about which the round trips are proved. The wire modules say the same format once more in
  literal bytes: what each type name means, what each type byte stands for, and which part follows which.
- **Actuator control** (`ControlCommands`, `ControlStep`, `ControlHistory`, `ControlSafety`, `ControlTracking`,
  `ControlAuthority`, `ControlRuntime`). Authority selection, watchdog, stale policy, delay queue and limits as one step function,
  with theorems over all runs of submissions and fixed steps: what never happens, what a command reaches and when, and whose
  command it is. Speeds, angles and time steps are reals, timestamps are integers.
- **Bake job service** (`BakeModel`, `BakeInvariant`, `BakeRuns`, `BakeInputs`, `BakeResults`, `BakeLimits`, `BakeLifecycle`,
  `BakeRuntime`). Every critical section, and every station of a worker thread between two of them, is one atomic action;
  theorems hold for every interleaving. The digest is an arbitrary function, JSON and directory renames are exact.
- **Asset editor** (`AssetChanges`, `AssetUndo`, `AssetHistory`, `AssetEdits`, `AssetRuntime`; `Hierarchy`, `AssetMatrices`,
  `AssetTransforms`; `Surfaces`, `SphereMesh`, `SphereVertices`, `CylinderMesh`; `Counting`, `VoxelMesh`, `VoxelCentroid`,
  `VoxelSize`; `UseClosure`). Edits, change sets and undo, the part hierarchy and its matrices, generated primitives, voxel
  clustering and the closure of asset uses.
- **Small algorithms** (`Utf8Order`, `Downsample`, `TruthHistory`, `Poses`), with `Reals` for the arithmetic that several parts
  share.

Where the source updates fields in place there is a class (`Codec`, `Runtime`, `BakeService`, `AssetDocument`, `Recorder`), and
each of its methods is proved to take the old state to exactly the state that the specification function names; the theorems
are about those functions.

Where code and documentation, or code and expectation, part ways, the model follows the code:

- A string that starts with U+FEFF comes back without it (`LeadingBomIsLost`); a negative number given as a `char` is encoded
  and then refused on decoding (`NegativeCharIsRefused`). `RoundTripIffInRange` says for all values which ones come back.
- The tables of types, fields and topics are plain objects. A field or a topic named `__proto__` is encoded or sent and then lost
  (`PrototypeFieldIsLost`, `SeenNames`); a type with the name of an inherited function, such as `constructor`, is refused
  (`InheritedTypeIsRefused`). The alias of a single byte and the type byte of raw bytes share the name `std_msgs/Byte` and never
  an encoding (`ByteAliasIsNotItsEnvelope`). A type name that starts with U+FEFF arrives without the mark (`MarkedNameIsStripped`).
- Silence ends in a stop if and only if the selected command has a capture time or a positive deadline (`SilenceStopsIff`): one
  without either is refreshed by every step that uses it. Before the first heartbeat it is the other way round: a command without
  a capture time is stale at once and is never taken up (`FirstCommandIff`, `UnstampedNeverStarts`). An accepted stamped command
  of anyone makes the vehicle count as commanded, so that it is stale until the producer in charge sends one (`AcceptedCommands`).
- A measured steering angle far beyond the stop is not brought back within one step; `SteeringStepIff` says exactly when it is.
- The queue bound of the bake service covers queued and running jobs only; `ActiveOutgrowsIff` names the one call that takes
  open, queued and running jobs over it. A cancelled job can still complete, exactly in the states of `CancelledCompletesIff`.
- A part whose parent is a string of blanks gets an empty parent at first and none at the next normalization, and undo and redo
  normalize. So they are exact, with unique ids, if and only if nothing changed or the definition they should give back is in
  normal form (`UndoRedoIff`, `HistoryReversesIff`); `BlankParentIsNotRedone` is the input on which they are not, and
  `HistoryIsReversible` says what to ask of commands. A record is lost when an id occurs twice (`DuplicateIsLost`); `UndoRestoresIff`
  covers these definitions, too.
- The triangles of a generated cylinder's caps wind against its wall (`CapsWindAgainstTheWall`).
- Downsampling to two or three points can cut off the last sample; `DownsampleMinMax` says exactly when. A last sample at time
  zero is treated as if it had no time.
- The inverse of a quaternion is computed only above a least norm. Rotations, and with them the laws of poses, fail exactly where a
  product or an inverse falls to that norm and there is something to rotate (`RotateTwiceIff`, `ComposeAssociativeIff`,
  `InvertCancelsIff`, `RelativeComesBackIff`).

## Model

| member | source | states |
|---|---|---|
| Bytes.FromLEofLE | app/client/TopicCodec.js:289-311 | storing an integer of any sign and size and reading the bytes as unsigned gives it modulo the width |
| CodecRoundTrip.RoundTripAt | app/client/TopicCodec.js:188-231 | for every registry, type and value that encodes, decoding the encoding at any place of any buffer returns the value's canonical form and stops right behind it; nested messages, fixed and variable arrays and byte arrays included |
| CodecRoundTrip.PrimRoundTrip | app/client/TopicCodec.js:119-186 | the same for each primitive, with the wrap-around of integers, the refusal of negative chars and the loss of a byte order mark |
| CodecRange.RoundTripIffInRange | app/client/TopicCodec.js:352-392 | with any bytes before and after, decode of encode is the value itself, consumed exactly, if and only if the value is in range for its type: numbers within their width, no leading byte order mark, exactly the fields of the schema, no type with the name of an inherited function and no field under the name of the prototype but one that takes whatever it finds there |
| CodecRange.EncodingsUnambiguous | app/client/TopicCodec.js:352-392 | the encodings of a type form a prefix code: two in-range values whose encodings begin the same stream are equal |
| CodecRange.LeadingBomIsLost | app/client/TopicCodec.js:123-129 | a concrete string that does not survive the round trip |
| CodecRange.NegativeCharIsRefused | app/client/TopicCodec.js:262-276 | every negative char that the encoder accepts is refused by the decoder |
| CodecRange.PrototypeFieldIsLost | app/client/TopicCodec.js:197-226 | no value with a field named `__proto__` comes back, whatever else it holds |
| CodecRange.PrototypeFieldEncodes | app/client/TopicCodec.js:360-389 | and such values do encode: a concrete schema and value |
| CodecRange.InheritedTypeIsRefused | app/client/TopicCodec.js:188-196 | a type with the name of an inherited function is refused by encoder and decoder for every value and every buffer |
| CodecLocality.DecodeLocal | app/client/TopicCodec.js:188-231 | a successful decode depends on nothing but the bytes it consumes: the same bytes elsewhere give the same value and the same length |
| WireFormat.SmallIntegersAreRead | app/client/TopicCodec.js:134-152 | the bytes of int8, uint8, byte, int16 and uint16, as sums of literal weights, and how many are consumed |
| WireFormat.IntegersAreRead | app/client/TopicCodec.js:153-164 | any four bytes a, b, c, d decode as uint32 to a + 256 b + 65536 c + 16777216 d, and likewise int32, uint64 and int64 with their signs; fewer bytes are refused |
| WireFormat.WordsAreRead | app/client/TopicCodec.js:131-142 | bool, char and the two floats from given bytes |
| WireFormat.CompoundsAreRead | app/client/TopicCodec.js:123-182 | time, duration and string from given bytes, with the length of the text in the first four |
| WireFormat.IntegersAreWritten | app/client/TopicCodec.js:257-313 | every integer, of any size and sign, is written as its low one, two, four or eight bytes, least first; nothing stands for zero |
| WireFormat.BoolIsWritten | app/client/TopicCodec.js:255-256 | exactly nothing, false, zero and the empty string are written as 0 |
| WireFormat.CharIsWritten | app/client/TopicCodec.js:262-277 | a character below 128 is written as itself, a number from -128 to 127 as its byte, and all else is refused |
| WireFormat.FloatsAreWritten | app/client/TopicCodec.js:314-323 | floats are written as their four or eight bytes |
| WireFormat.StringIsWritten | app/client/TopicCodec.js:248-254 | a string is written as its length in four bytes and its text |
| WireFormat.TimesAreWritten | app/client/TopicCodec.js:324-345 | times and durations are written as two numbers of four bytes, a negative number of seconds as time zero |
| WireFormat.IntegersComeBackIff | app/client/TopicCodec.js:257-313 | with any bytes around them, integers of each of the nine names come back if and only if they are within the literal bounds of the name |
| WireTypes.CaseDoesNotMatter | app/client/TopicCodec.js:45-53 | the name of a primitive type means the same in any letter case |
| WireTypes.OthersAreRegistered | app/client/TopicCodec.js:352-358 | any name but the primitives and aliases is looked up as it is, and unknown if it is not registered |
| WireTypes.AliasesAreTheirTypes | app/client/TopicCodec.js:29-41 | each of the eleven aliases encodes and decodes, every value and buffer, as its primitive |
| WireTypes.FieldTypeInPackage | app/client/TopicCodec.js:66-76 | in a message of a package, a field type with a slash stays, a primitive is lowered, and any other is in that package |
| WireTypes.StandardIsSent | app/client/TopicCodec.js:414-450 | each standard type is sent as its literal type byte, the length in four bytes, and the value as its primitive |
| WireTypes.BytesAndColorsAreSent | app/client/TopicCodec.js:440-460 | raw bytes and colours are sent under 9 and 11, and what is no colour is refused |
| WireTypes.OthersAreSentByName | app/client/TopicCodec.js:397-412 | any other type is sent under 255, with the length of its name in two bytes, the name and the value |
| WireTypes.StandardIsOpened | app/client/TopicCodec.js:513-557 | an envelope with a standard type byte, anywhere in a buffer, is read as that type |
| WireTypes.OtherBytesAreOpened | app/client/TopicCodec.js:511-557 | raw bytes, colours, and the refusal of every type byte that stands for nothing |
| WireTypes.ByteAliasIsNotItsEnvelope | app/client/TopicCodec.js:440-442 | under the byte of raw bytes nothing is ever sent as under the alias of a single byte |
| WireLayout.MessageIsItsFields | app/client/TopicCodec.js:360-391 | a message is its fields in the order of the definition: single values, fixed arrays without a length, others behind their number in four bytes, byte arrays cut to bytes, and the first error of any of them |
| WireLayout.FramesAreJoined | app/client/Client.js:145-154 | an update is, topic by topic, the length of the name, the name and the envelope; a name over 255 bytes is refused |
| WireLayout.PacketIs | app/client/Client.js:156-171 | a published value is the opcode 2, the length of the name, the name and the envelope |
| TopicEnvelope.EnvelopeRoundTrip | app/client/TopicCodec.js:394-412 | decoding a typed envelope at any place of a buffer returns the type and the canonical value and consumes it exactly, for dynamic and standard types and every type name; it fails only where name and value have no canonical form |
| TopicEnvelope.MarkedNameIsStripped | app/client/TopicCodec.js:497-509 | of a type name that starts with a byte order mark a receiver sees the rest: an error if that is no type, and the value whole if it is a type of the same fields |
| TopicEnvelope.EnvelopeAt | app/client/TopicCodec.js:489-512 | the decoder finds type byte, length and payload of an envelope and passes exactly the payload on |
| TopicEnvelope.DecodeValueLocal | app/client/TopicCodec.js:489-512 | a receiver reads the same message from the same bytes, wherever they stand |
| TopicEnvelope.FramesParse | app/client/Client.js:214-223 | parsing a run of frames, from any accumulated map, adds the topics sent, in order, but for one under the name of the prototype |
| TopicEnvelope.BigUpdateRoundTrip | app/client/Client.js:209-225 | a little-endian count followed by that many frames parses to what was sent, whatever follows |
| TopicEnvelope.SeenNames | app/client/Client.js:213-223 | a name is in the result if and only if it was there before, or a frame carries it and it is not `__proto__` |
| TopicEnvelope.LastFrameWins | app/client/Client.js:220-222 | of the frames with one name, other than `__proto__`, the last determines type and value |
| TopicEnvelope.OtherNamesKept | app/client/Client.js:220-222 | a name that no frame carries keeps what it had |
| TopicEnvelope.PublishedIsSeen | app/client/Client.js:156-171 | behind its opcode, a published value is read back as the one topic that was sent |
| CodecRuntime.ConcatBuffers | app/client/TopicCodec.js:233-243 | copying the chunks one behind the other into a buffer of their total length gives their concatenation |
| CodecRuntime.Codec.RegisterMessageSchema | app/client/TopicCodec.js:66-76 | registers the normalized fields under the normalized name and changes no other entry |
| CodecRuntime.Codec.DecodeTypedValue | app/client/TopicCodec.js:188-231 | the cursor loop over the fields computes the decoding of the schema, errors included |
| CodecRuntime.Codec.DecodeOneField | app/client/TopicCodec.js:199-227 | the branches for length prefix, byte array, array and single value, as the specification of one field |
| CodecRuntime.Codec.DecodeElements | app/client/TopicCodec.js:214-220 | the element loop decodes that many elements from the cursor on |
| CodecRuntime.Codec.EncodeTypedValue | app/client/TopicCodec.js:352-392 | pushing chunks field by field and joining them gives the encoding of the schema, errors included |
| CodecRuntime.Codec.EncodeOneField | app/client/TopicCodec.js:361-388 | the chunks of one field, joined, are its encoding: length check, length prefix, byte array or elements |
| CodecRuntime.Codec.EncodeElements | app/client/TopicCodec.js:382-384 | the element loop encodes every element in order |
| CodecRuntime.Codec.ParseBigUpdate | app/client/Client.js:209-225 | the loop over offset and map is the parse of the frames, errors included |
| CodecRuntime.BuildTopicDataFromEncodedName | app/client/Client.js:145-154 | the filled buffer is the frame: name length, name, payload; too long a name is refused |
| CodecRuntime.BuildEncodedPublishPacket | app/client/Client.js:156-171 | the filled buffer is the opcode and the frame, and the value stands at the returned offset |
| ControlHistory.LimiterKeepsEnvelope | app/autonomy/ControlRuntime.js:377-417 | from inside the envelope the limiter stays inside it, in every mode; velocity and acceleration steps respect the speed rates, acceleration steps the jerk |
| ControlCommands.SlewEndsWithinIff | app/simulation/vehicles/steeringLimits.js:13-37 | slewing ends within the stop if and only if it starts no further beyond it than one step can turn |
| ControlHistory.EnvelopeAlways | app/autonomy/ControlRuntime.js:204-215 | in every state that any run reaches, applied speed and acceleration are inside the envelope |
| ControlHistory.MergedIsSane | app/autonomy/ControlRuntime.js:27-40 | limits that are non-negative wherever they are given merge to the envelope that the theorems ask for, whatever overrides whatever |
| ControlHistory.EventKeepsEnvelope | app/autonomy/ControlRuntime.js:325-349 | each step of a commanded vehicle is rate limited in the mode it ends in, across holds, fallbacks and delayed commands; no other event moves the actuators |
| ControlHistory.SteeringStepIff | app/autonomy/ControlRuntime.js:419-430 | after a step of a commanded vehicle the applied angle is within the stop if and only if the angle it started from, measured or applied, is no further beyond it than the step can turn |
| ControlHistory.SteeringAlways | app/autonomy/ControlRuntime.js:419-430 | the applied steering angle stays within the stop over every run in which no measured angle is further beyond it than its step can turn |
| ControlHistory.QueueIsHistory | app/autonomy/ControlRuntime.js:325-336 | over every run with steps in time order the delay queue is exactly the part of the history of desired commands that is not yet due, in order |
| ControlHistory.QueueFromNew | app/autonomy/ControlRuntime.js:325-336 | the same for a new vehicle, without assumptions on a history |
| ControlHistory.DelayLineIsLookup | app/autonomy/ControlRuntime.js:325-339 | the command that reaches the limiter is the newest desired command that became due since the last step, else the applied one: nothing early, twice or out of order |
| ControlHistory.ReadySplits | app/autonomy/ControlRuntime.js:331-334 | appending an entry and releasing later continues where the earlier release stopped |
| ControlTracking.VelocityFollows | app/autonomy/ControlRuntime.js:404-416 | a velocity step ends at the commanded speed, cut to the limit, if and only if that is within the step's reach, and otherwise at the end of the reach on that side; the acceleration is the change over the time |
| ControlTracking.AccelerationFollows | app/autonomy/ControlRuntime.js:388-398 | an acceleration step applies, of all accelerations that the limits and the jerk allow, the nearest to the request, and the speed advances by it times the time, cut to the limit |
| ControlTracking.SteeringFollows | app/autonomy/ControlRuntime.js:419-430 | the steering ends at its goal, cut to the stop, if and only if that is in reach, and otherwise turns towards it as far as it can; without time or rate it rests |
| ControlTracking.FlagsIff | app/autonomy/ControlRuntime.js:377-430 | the saturated flag is raised if and only if a limit cuts the command off, and the rate-limited flag if and only if what is left of it is out of reach |
| ControlTracking.SpeedIsReachedIff | app/autonomy/ControlRuntime.js:325-349 | over every run in which the limiter gets one velocity, the speed is reached if and only if the summed reach of the steps covers the gap, and else is where that reach ends |
| ControlTracking.LeftAloneReachesIff | app/autonomy/ControlRuntime.js:246-349 | so a vehicle that is left alone with a velocity command is at that speed exactly once the steps have had the time for it, as long as the command has not expired |
| ControlAuthority.ForeignNeverDrives | app/autonomy/ControlRuntime.js:217-349 | without the submissions of anyone but the bypass and the producer in charge, every run leaves the same applied command, queue, flags and selection |
| ControlAuthority.LatestIsSelected | app/autonomy/ControlRuntime.js:233-245 | after every run, the next step selects the latest command of the bypass since the last step, else the latest of the producer in charge, else the one selected before |
| ControlAuthority.SelectionStays | app/autonomy/ControlRuntime.js:316-323 | a step keeps its selection if and only if that is not stale |
| ControlAuthority.AcceptedCommands | app/autonomy/ControlRuntime.js:246-252 | once a stamped command was accepted, whoever sent it, the vehicle counts as commanded in every later state |
| ControlAuthority.UnattendedStandsStill | app/autonomy/ControlRuntime.js:254-275 | before that, and without the bypass and the producer in charge, no run moves the vehicle or queues anything |
| ControlAuthority.AcceptedIsNewer | app/autonomy/ControlRuntime.js:160-174 | over every run an accepted stamped command is newer than the selected one, even if this came without a stamp |
| ControlAuthority.StaleAsksFor | app/autonomy/ControlRuntime.js:284-315 | what replaces a stale command: the applied one held, the configured fallback, or a stop; a fresh one is passed on |
| ControlAuthority.StepReports | app/autonomy/ControlRuntime.js:284-360 | which flags and status a step reports, and what it notes of requests and references |
| ControlAuthority.SubmissionReports | app/autonomy/ControlRuntime.js:125-160 | a rejected stamped command changes nothing but the status; a submission of the producer in charge is noted as requested |
| ControlAuthority.AcceptedIff | app/autonomy/ControlCommandAdapter.js:50-130 | a stamped command is accepted if and only if it has a stamp, a known mode, a new number, finite values and a deadline that is not past |
| ControlAuthority.AcceptedAsks | app/autonomy/ControlCommandAdapter.js:90-150 | and then asks for exactly what the payload says, a stop for nothing |
| ControlAuthority.MergedIs | app/autonomy/ControlRuntime.js:27-40 | each limit is the override, else the vehicle's own, else the literal default |
| ControlAuthority.SteeringStopIs | app/simulation/vehicles/steeringLimits.js:2-6 | the steering stop in literal numbers |
| ControlSafety.StaleMeansStopped | app/autonomy/ControlRuntime.js:284-315 | bounded-time stop: after any run, once every step is stale, from one response delay after the first stale step on the applied command is a stop at speed zero, whatever the delay queue held and whatever is submitted |
| ControlSafety.ModeArrives | app/autonomy/ControlRuntime.js:325-349 | over every run: once every step asks for a mode, from one response delay after the first of these steps on the applied command has that mode, whatever the delay queue held |
| ControlSafety.SilenceMeansStopped | app/autonomy/ControlRuntime.js:246-253 | after any run, a vehicle whose command is past its watchdog time or its deadline stops by itself, one response delay after the first such step |
| ControlSafety.SilenceTimesOutIff | app/autonomy/ControlRuntime.js:246-253 | silent steps within the watchdog time of each other end timed out if and only if the last is past the capture time by more than the watchdog or past a positive deadline |
| ControlSafety.SilenceStopsIff | app/autonomy/ControlRuntime.js:284-323 | after any run that leaves a driving command selected, silence that goes on long enough ends in a stop if and only if the command has a capture time or a positive deadline |
| ControlSafety.FirstCommandIff | app/autonomy/ControlRuntime.js:248-253 | before any heartbeat a command is taken up if and only if it has a capture time that is recent enough and no past deadline |
| ControlSafety.UnstampedNeverStarts | app/autonomy/ControlRuntime.js:248-253 | over every run, a vehicle that is only given commands without a capture time takes up none of them, and every commanded step is stale |
| ControlSafety.AcceptedIncrease | app/autonomy/ControlRuntime.js:160-174 | the sequence numbers of accepted stamped commands increase strictly over every run |
| ControlRuntime.Runtime.constructor | app/autonomy/ControlRuntime.js:92-119 | every vehicle starts as a new one |
| ControlRuntime.Runtime.Reset | app/autonomy/ControlRuntime.js:73-78 | every vehicle is a new one again |
| ControlRuntime.Runtime.SetVehicleLimits | app/autonomy/ControlRuntime.js:80-82 | the limits of one vehicle become the merge of those given with the overrides and the defaults, and those of the others stay |
| ControlRuntime.Runtime.SubmitCommand | app/autonomy/ControlRuntime.js:125-134 | the vehicle takes the submission step of the model and no other vehicle changes |
| ControlRuntime.Runtime.IngestStampedCommand | app/autonomy/ControlRuntime.js:137-175 | the vehicle takes the ingestion step of the model, and the rejection code is the model's |
| ControlRuntime.Runtime.Release | app/autonomy/ControlRuntime.js:331-335 | the loop pops exactly the ready head of the queue and returns the last command popped |
| ControlRuntime.Runtime.StepVehicle | app/autonomy/ControlRuntime.js:217-375 | the vehicle takes the fixed step of the model and no other vehicle changes |
| ControlRuntime.Runtime.Step | app/autonomy/ControlRuntime.js:204-215 | every known vehicle takes its fixed step exactly once and all submissions are consumed |
| BakeRuns.Scheduling | baking/v1_service.py:246-262 | in every reachable state the in-flight count is the number of live workers and at most the pool; while jobs wait all workers are taken; queued and running jobs are within the queue bound; stored bytes equal what jobs hold and are within the storage bound |
| BakeRuns.OneWorkerPerJob | baking/v1_service.py:246-271 | in every reachable state the queue holds each job once, only queued and uncancelled ones, none that a worker is at, and no job is in the hands of two workers |
| BakeRuns.NoJobIsForgotten | baking/v1_service.py:178-199 | in every reachable state a queued job waits or was handed over, and a running job has its worker |
| BakeInvariant.PumpKeeps | baking/v1_service.py:246-254 | handing out jobs keeps the invariant, leaves jobs and bytes alone, and ends with all workers taken or no job waiting |
| BakeRuns.UploadKeeps | baking/v1_service.py:144-176 | an upload, also one that replaces an earlier input, keeps the byte count exact and within bounds |
| BakeRuns.CancelKeeps | baking/v1_service.py:228-238 | cancelling keeps the invariant, with the job gone from the queue |
| BakeRuns.StationKeeps | baking/v1_service.py:264-400 | every station of a worker thread keeps the invariant |
| BakeRuns.ExitKeeps | baking/v1_service.py:256-262 | a worker that leaves wakes the queue |
| BakeInputs.UploadAcceptedIff | baking/v1_service.py:144-169 | an upload is accepted if and only if size, digest, job, state, cancel flag and storage allow it, and otherwise refused for the first of these |
| BakeInputs.UploadIsStored | baking/v1_service.py:170-176 | an accepted upload is held under its key with its digest, and no other key, job, field or count of the service changes but the stored bytes |
| BakeInputs.RefusedUploadIsNot | baking/v1_service.py:151-169 | a refused one changes nothing, but that a job found cancelled is marked so |
| BakeInputs.HeldIsLastUpload | baking/v1_service.py:144-176 | over every run, a job holds under each key exactly what the last accepted upload for both brought, and it hashes to its digest |
| BakeLifecycle.CreatesIff | baking/v1_service.py:111-142 | a new request becomes a job if and only if the cache answers it, or is silent and there is room; it is then open, or completed with what the cache gave |
| BakeLifecycle.SameRequestSameJob | baking/v1_service.py:111-118 | the same request again gets the same job, and nothing changes |
| BakeLifecycle.SubmitQueuesIff | baking/v1_service.py:178-199 | a submission queues the job if and only if it is the same request, open or failed, not cancelled, and there is room; then it waits behind all others or has a worker at once |
| BakeLifecycle.PumpTakesInOrder | baking/v1_service.py:246-254 | the pump hands over the first jobs of the queue, in order, as many as workers are free |
| BakeLifecycle.NobodyIsOvertaken | baking/v1_service.py:246-262 | over every run, while a job waits, each job behind it stays behind it or is cancelled |
| BakeLifecycle.CancelMarks | baking/v1_service.py:228-238 | a cancellation marks the job and takes it from the queue, whose other jobs keep their order; only a finished job keeps its state |
| BakeLifecycle.LeftAloneCompletes | baking/v1_service.py:264-390 | a job that is handed to a worker and left alone ends completed with what the model answered as its result, unless it shares results and the cache gives nothing back |
| BakeLifecycle.ErrorFails | baking/v1_service.py:391-400 | an error of the worker ends in a failed job with its code |
| BakeLifecycle.FailsIff | baking/v1_service.py:391-400 | an error is taken up if and only if the model works or the cache is being written |
| BakeLifecycle.CancelledInTimeStops | baking/v1_service.py:264-271 | a job cancelled before its worker starts or while the model works ends cancelled, without a result |
| BakeLifecycle.BakeKeepsTheAnswer | baking/v1_service.py:298-344 | the result lists every sample and channel of the answer in order, by name, size and digest, and, digests not colliding, gives every payload back |
| BakeResults.BakeGood | baking/v1_service.py:324-335 | whatever the model answers, every buffer hashes to its key and the keys are exactly the digests listed |
| BakeResults.ResultsNeverChange | baking/v1_service.py:386-390 | a result is written at most once and never changes, over every run, and so is every cache entry |
| BakeResults.CancelledStaysOut | baking/v1_service.py:228-238 | once cancelled, a job is never queued, running or open again, and no worker that starts later is given it |
| BakeResults.ResultsAreSound | baking/v1_service.py:405-434 | in every reachable state, over whatever cache the service was started on: results are good, entries that were there are unchanged and new ones good, and the result of a job that asked for reuse is what the cache gives back |
| BakeResults.ResultsSurviveRestart | baking/v1_service.py:111-142 | a service started later over the same cache answers the same request at once with the same result |
| BakeResults.PublisherIsAlone | baking/v1_service.py:436-460 | a worker that publishes finds nothing readable under its hash and is the only one on its job |
| BakeLimits.ReadsBackIffSizesAgree | baking/v1_service.py:405-434 | what is read back is what was published exactly if no two outputs share a digest at different sizes, and otherwise nothing |
| BakeLimits.ActiveOutgrowsIff | baking/v1_service.py:105-109 | from within the bound, one action takes open, queued and running jobs over it if and only if it resubmits a failed job while others fill the bound |
| BakeLimits.ActiveOutgrows | baking/v1_service.py:178-199 | a concrete run that does it |
| BakeLimits.CancelledCompletesIff | baking/v1_service.py:382-390 | a cancelled job can still get a result in some run if and only if a worker is past its last look at the cancel flag and its publication will succeed |
| BakeLimits.CancelledCompletes | baking/v1_service.py:382-390 | a concrete run in which a cancelled job completes |
| BakeRuntime.BakeSample | baking/v1_service.py:322-335 | the channel loop lists every output in order and holds the payloads under their digests |
| BakeRuntime.BakeAll | baking/v1_service.py:298-344 | the loop over samples gives the result that the model bakes |
| BakeRuntime.ReadStored | baking/v1_service.py:405-434 | the buffer loop gives exactly the listed buffers, or nothing at the first that is missing or wrong |
| BakeRuntime.BakeService.CountJobs | baking/v1_service.py:105-109 | the loop counts the jobs in the given states |
| BakeRuntime.BakeService.CreateJob | baking/v1_service.py:111-142 | new state and reply are the model's |
| BakeRuntime.BakeService.UploadInput | baking/v1_service.py:144-176 | new state and reply are the model's |
| BakeRuntime.BakeService.Submit | baking/v1_service.py:178-199 | new state and reply are the model's |
| BakeRuntime.BakeService.Cancel | baking/v1_service.py:228-238 | new state and reply are the model's |
| BakeRuntime.BakeService.Pump | baking/v1_service.py:246-254 | the loop over the queue reaches the state of the model's pump |
| BakeRuntime.BakeService.Start | baking/v1_service.py:264-271 | the first lock of a worker takes the model's step |
| BakeRuntime.BakeService.Publish | baking/v1_service.py:384-385 | publishing and re-reading the cache takes the model's step |
| BakeRuntime.BakeService.FinishOk | baking/v1_service.py:386-390 | the lock after success takes the model's step |
| BakeRuntime.BakeService.FinishError | baking/v1_service.py:391-400 | the lock after an error takes the model's step |
| BakeRuntime.BakeService.Exit | baking/v1_service.py:256-262 | the last lock takes the model's step |
| AssetUndo.UndoRestoresIff | app/editor-assets/AssetDocument.js:14-38 | for all definitions that normalization can leave, repeated ids included: undo of the change from a to b gives a, and redo gives b, if and only if in every domain either the records under the ids agree and the goal is what one more normalization makes of the other side, or the goal has unique ids and is in normal form |
| AssetUndo.UndoRedoIff | app/editor-assets/AssetDocument.js:32-38 | with unique ids, undo is exact if and only if nothing changed or the definition before is in normal form, and redo likewise with the definition after |
| AssetUndo.UndoUpTo | app/editor-assets/AssetDocument.js:32-38 | from whatever normalizes to what the definition after does, undo gives the definition before, normalized once more, and redo the other way round |
| AssetUndo.SortedDetermined | app/editor-assets/AssetDefinition.js:186-192 | two sorted domain lists with unique ids and the same records are the same list |
| AssetUndo.SortSorts | app/editor-assets/AssetDefinition.js:189-192 | the stable sort gives a sorted permutation, under the part order and the id order |
| AssetUndo.DiffSays | app/editor-assets/AssetDocument.js:16-27 | a diff notes exactly the ids whose records differ, with both records, and is empty exactly if none does |
| AssetHistory.ThrowRollsBack | app/editor-assets/AssetDocument.js:97-108 | for any definition and operations, a transaction that throws leaves the definition as it was, with the flag down again; it throws exactly if an operation does that nothing catches |
| AssetHistory.TransactionUndoes | app/editor-assets/AssetDocument.js:97-108 | the change set of any transaction leads back exactly if nothing changed or the definition before was in normal form, and on again likewise; there is one version more exactly for a change |
| AssetHistory.HistoryReversesIff | app/editor-assets/AssetDocument.js:97-108 | for every history of transactions, undoing to any point gives exactly the definition of that time if and only if nothing changed since or that definition is in normal form, and redoing gives exactly the last if and only if nothing changed or that one is |
| AssetHistory.HistoryIsReversible | app/editor-assets/AssetDocument.js:97-108 | for every history of commands that hand over only records that settle at one normalization, undoing to any point gives exactly the definition of that time and redoing exactly the last |
| AssetHistory.PlainIffNotBlank | app/editor-assets/AssetDefinition.js:73-76 | a record that is otherwise tidy after one normalization settles if and only if it is not a part with a parent of blanks |
| AssetHistory.BlankParentIsNotRedone | app/editor-assets/AssetDefinition.js:73-76 | a concrete command, putting a part with a parent of blanks into an empty asset, whose redo gives another definition |
| AssetHistory.NormalizeRipens | app/editor-assets/AssetDefinition.js:176-194 | normalization leaves a sorted definition that one more pass puts into normal form without changing its order |
| AssetHistory.OpsOfApply | app/editor-assets/AssetDocument.js:32-38 | putting in a change set runs as a transaction that does not throw and ends in the snapshot that the change set describes |
| AssetHistory.DuplicateIsLost | app/editor-assets/AssetDocument.js:17-18 | a concrete pair of definitions in normal form, one with a repeated id, that undo does not restore |
| AssetEdits.NormalizedIs | app/editor-assets/AssetDefinition.js:176-194 | a normalized definition has the five domains, each a permutation of the records handed over, normalized, with parts ascending by parent, order and id and all others by id |
| AssetEdits.ParentIs | app/editor-assets/AssetDefinition.js:73-76 | a part's parent is none exactly if it was none or empty, and else the text without the blanks around it |
| AssetEdits.ReplacedIs | app/editor-assets/AssetDocument.js:67-77 | a valid definition replaces the document's, and in normal form is exactly what the document then has; an invalid one changes nothing |
| AssetEdits.RestoredIs | app/editor-assets/AssetDocument.js:60-65 | the same for a restored snapshot |
| AssetEdits.CaptureRestoresIff | app/editor-assets/AssetDocument.js:60-65 | taking a snapshot, running any operations and restoring gives the definition of the snapshot if and only if that is in normal form |
| AssetEdits.UpdatedIs | app/editor-assets/AssetDocument.js:79-88 | after updates by id each id of the domain has the last record set for it, is gone if the last update deleted it, and else is as before; all else stays |
| AssetEdits.UpdateIsNormalized | app/editor-assets/AssetDocument.js:79-88 | for updates of any kind: the domain holds, normalized and in order, one record for each key that they leave something under |
| AssetEdits.ListedIs | app/editor-assets/AssetDocument.js:86-87 | a list that replaces a domain is normalized and sorted, and all else stays |
| AssetEdits.ScalarIsSet | app/editor-assets/AssetDocument.js:90-95 | setting the scalar sets it, normalized, and all domains stay |
| AssetEdits.UnknownThrows | app/editor-assets/AssetDocument.js:80-92 | operations on an unknown domain or scalar throw and change nothing |
| AssetRuntime.DiffAssetSnapshots | app/editor-assets/AssetDocument.js:14-30 | the loops over domains and ids compute the change set |
| AssetRuntime.UpdateRecords | app/editor-assets/AssetDocument.js:83-84 | the loop sets and deletes records by id in turn |
| AssetRuntime.AssetDocument.ReplaceDomainUpdates | app/editor-assets/AssetDocument.js:79-88 | the document takes the step of the specification, version included; an unknown domain throws and changes nothing |
| AssetRuntime.AssetDocument.SetScalar | app/editor-assets/AssetDocument.js:90-95 | the same for a scalar |
| AssetRuntime.AssetDocument.ReplaceDefinition | app/editor-assets/AssetDocument.js:67-77 | afterwards the definition is the normalized candidate if this is valid, and else what it was, with the version counted up exactly if it is valid and notified |
| AssetRuntime.AssetDocument.RestoreSnapshot | app/editor-assets/AssetDocument.js:60-65 | afterwards the definition is the normalized snapshot |
| AssetRuntime.AssetDocument.Transaction | app/editor-assets/AssetDocument.js:97-108 | running the callback, with nested transactions and errors that it catches itself, and rolling back on any other error is the specification of a transaction |
| AssetRuntime.AssetDocument.ApplyAssetChangeSet | app/editor-assets/AssetDocument.js:32-38 | the definition afterwards is that of one side of the change set, and nothing throws |
| Hierarchy.HasCycle | app/editor-assets/AssetDefinition.js:274-275 | the walk from a part with its visited set reports a cycle if and only if the chain of ancestors never ends |
| Hierarchy.HasNoCycle | app/editor-assets/AssetDefinition.js:260-276 | with unique ids no part is reported if and only if the parent relation is well founded |
| Hierarchy.RootsCoverOnce | app/editor-assets/AssetDocument.js:136-146 | no gesture root stands above another, and every selected part has exactly one root at or above it |
| Hierarchy.CollectGestureClosure | app/editor-assets/AssetDocument.js:136-146 | the collected roots are exactly the selected ids without a selected ancestor, and the issues exactly the ids that are no parts |
| AssetMatrices.MultiplyAssetMatrices | app/editor-assets/AssetCompiler.js:21-27 | the array summed up in place is the matrix product |
| AssetMatrices.PlaceTwice | app/editor-assets/AssetCompiler.js:42-48 | the product moves a point as its factors do, the right one first |
| AssetMatrices.Visit | app/editor-assets/AssetCompiler.js:60-66 | the memoised visit ends and notes only global matrices |
| AssetMatrices.PartMatrices | app/editor-assets/AssetCompiler.js:57-71 | every part gets the normalization times the product of the local matrices along its chain of ancestors |
| AssetMatrices.MatrixIsChain | app/editor-assets/AssetCompiler.js:57-71 | that matrix moves every point through the part's own matrix, those of its ancestors in turn, and the normalization |
| AssetMatrices.OrderDoesNotMatter | app/editor-assets/AssetCompiler.js:57-71 | the matrices do not depend on the order of the parts |
| AssetTransforms.TransformPlaces | app/editor-assets/AssetCompiler.js:29-40 | the matrix of a transform with a unit quaternion scales a point, rotates it as the quaternion does, and moves it |
| AssetTransforms.NormalizationPlaces | app/editor-assets/AssetCompiler.js:50-55 | the normalization takes the pivot to the origin, scales and turns |
| SphereMesh.SphereIsClosed | app/editor-assets/VoxelMeshSimplifier.js:102-112 | for every number of segments and rings all indices are in range and distinct within a triangle, every directed edge is used exactly once, and so is its reverse |
| SphereMesh.SphereEuler | app/editor-assets/VoxelMeshSimplifier.js:90-114 | vertices less edges plus triangles make two |
| SphereMesh.SphereIsConnected | app/editor-assets/VoxelMeshSimplifier.js:102-112 | every vertex but the first is joined to one with a smaller number |
| SphereMesh.OnTheSphere | app/editor-assets/VoxelMeshSimplifier.js:93-101 | every vertex lies on the sphere, for any functions whose squares add to one |
| SphereMesh.Rim | app/editor-assets/VoxelMeshSimplifier.js:102-112 | the triangles of the caps, in literal indices |
| SphereMesh.Strip | app/editor-assets/VoxelMeshSimplifier.js:103-109 | the triangles between two rings, in literal indices |
| SphereVertices.RingsDescend | app/editor-assets/VoxelMeshSimplifier.js:93-101 | one vertex is higher than another if and only if it is on an earlier ring, the top first and the bottom last |
| SphereVertices.VerticesAreApart | app/editor-assets/VoxelMeshSimplifier.js:93-101 | no two vertices are at the same place |
| SphereMesh.MeshSphere | app/editor-assets/VoxelMeshSimplifier.js:90-114 | the nested loops put every vertex at its number and emit exactly the triangles of the closed surface |
| Surfaces.CountUndirected | app/editor-assets/VoxelMeshSimplifier.js:102-112 | a surface that uses each directed edge once and its reverse too has three edges to every two triangles |
| CylinderMesh.TwoTrianglesPerEdge | app/editor-assets/VoxelMeshSimplifier.js:125-130 | for every number of segments each undirected edge lies in exactly two triangles |
| CylinderMesh.CapsWindAgainstTheWall | app/editor-assets/VoxelMeshSimplifier.js:125-130 | the two triangles at an edge pass it in the same direction if and only if the edge is on a rim |
| CylinderMesh.NotOriented | app/editor-assets/VoxelMeshSimplifier.js:125-130 | so no cylinder uses each directed edge only once |
| CylinderMesh.CylinderInRange | app/editor-assets/VoxelMeshSimplifier.js:125-130 | all indices are in range and distinct within a triangle |
| CylinderMesh.SegmentFaces | app/editor-assets/VoxelMeshSimplifier.js:125-130 | the four triangles of a segment, in literal indices |
| CylinderMesh.CylinderFaces | app/editor-assets/VoxelMeshSimplifier.js:125-130 | the loop emits exactly these triangles |
| VoxelMesh.ClusterIffCell | app/editor-assets/VoxelMeshSimplifier.js:56-66 | two vertices share a cluster if and only if they share a cell |
| VoxelCentroid.ClusterIffUnseparated | app/editor-assets/VoxelMeshSimplifier.js:54-66 | two vertices share a cluster if and only if no plane at a multiple of the voxel size separates them on any axis |
| VoxelCentroid.CentreIsKept | app/editor-assets/VoxelMeshSimplifier.js:64-68 | the means of the clusters, weighted by the vertices that they stand for, have the sum of all vertices: the centre of mass is kept |
| VoxelCentroid.NumberedAsMet | app/editor-assets/VoxelMeshSimplifier.js:54-66 | clusters are numbered in the order in which the vertices meet them |
| VoxelCentroid.KeptInOrder | app/editor-assets/VoxelMeshSimplifier.js:69-78 | the kept triangles are, in order and as they are, those proper ones that are the first with their corners, and no others |
| VoxelMesh.MeanIsNear | app/editor-assets/VoxelMeshSimplifier.js:64-68 | every source vertex is nearer than the voxel size, on each axis, to the mean of its cluster |
| VoxelMesh.KeptRepresents | app/editor-assets/VoxelMeshSimplifier.js:69-78 | the kept triangles are proper and mapped from the source, no two have the same corners, and every mapped triangle with three different corners is represented |
| VoxelMesh.SimplifiedIsSound | app/editor-assets/VoxelMeshSimplifier.js:45-80 | all of this for the simplified mesh, with indices in range and no vertex that stands for nothing |
| VoxelMesh.ClusterVertices | app/editor-assets/VoxelMeshSimplifier.js:54-66 | the loop with its key map gives every vertex its cluster and every cluster its sum and count |
| VoxelMesh.KeepTriangles | app/editor-assets/VoxelMeshSimplifier.js:69-78 | the loop with its set of identities keeps exactly these triangles |
| VoxelMesh.SameIdentity | app/editor-assets/VoxelMeshSimplifier.js:74-75 | two proper triangles have the same sorted identity if and only if they have the same corners |
| VoxelMesh.SimplifyVoxelMesh | app/editor-assets/VoxelMeshSimplifier.js:45-80 | refuses exactly a non-positive size or an index out of range, and otherwise gives the simplified mesh |
| VoxelSize.ChooseVoxelSize | app/editor-assets/VoxelMeshSimplifier.js:23-43 | refuses exactly a mesh without extent; otherwise the size is between a sixty-fourth and an eighth of the longest axis, gives two cells to every shorter axis that counts unless it is the finest, and is the coarsest such size |
| VoxelSize.FewVertices | app/editor-assets/VoxelMeshSimplifier.js:12-22 | with at most sixty-four cells on the longest axis the result has at most 65^3 vertices |
| VoxelSize.ChosenLeavesFew | app/editor-assets/VoxelMeshSimplifier.js:12-43 | the chosen size is such a size |
| UseClosure.Visit | app/editor-assets/AssetVisualLayerCompiler.js:33-39 | a visit ends on every finite graph, adds only reachable uses, closes what it adds, and fails only where a reachable use is missing |
| UseClosure.ReachableUses | app/editor-assets/AssetVisualLayerCompiler.js:31-42 | the result is exactly the set of uses reachable from the roots, and it fails if and only if one of them is missing |
| Utf8Order.CompareUtf8Bytes | app/math/compareUtf8.js:8-14 | the loop decides by the first difference, else by the length |
| Utf8Order.BytesOrderIsCodePointOrder | app/math/compareUtf8.js:16-18 | comparison of the UTF-8 encodings is lexicographic comparison of the scalar values (section 1 of RFC 3629) |
| Utf8Order.EncodesIts | app/math/compareUtf8.js:1-18 | the octets of a scalar value are as few as it needs, and it can be read off them (section 3 of RFC 3629) |
| Utf8Order.StrictTotalOrder | app/math/compareUtf8.js:16-18 | it is a strict total order on strings of scalar values |
| Utf8Order.CompareUtf8 | app/math/compareUtf8.js:16-18 | the result has the sign of the lexicographic comparison of scalar values |
| Utf8Order.Utf16DisagreesIff | app/math/compareUtf8.js:1-4 | for single characters the order of UTF-16 code units differs exactly between one of two code units and one above the surrogates |
| Downsample.DownsampleMinMax | app/analysis/downsample.js:1-40 | at most the limit of samples, drawn from the input and in time order. For sorted times and a limit of four on, these are the first sample, the last, and, for each of max(1, floor((limit - 2) / 2)) equal intervals of time, the first of least and the first of greatest value among the inner samples in it, each once and no other; without spread in time, every stride-th sample and the last. For smaller limits the last sample is kept if and only if there is room for it |
| Downsample.ByBuckets | app/analysis/downsample.js:14-39 | the same for the bucket loops with their extremes and the final cut, for any spread in time |
| Downsample.ScanBucket | app/analysis/downsample.js:25-30 | the inner loop finds the first least and the first greatest finite value of its bucket, takes no sample behind its end, and stops only there |
| Downsample.AddBucket | app/analysis/downsample.js:31-35 | adding the extremes of a bucket in the order of their times keeps the choice in time order, with a sample at or below and one at or above every finite inner value so far |
| Downsample.PicksNext | app/analysis/downsample.js:19-36 | one bucket more adds exactly the extremes of its interval |
| Downsample.Finished | app/analysis/downsample.js:38-39 | appending the last sample and cutting to the limit keeps the extremes, and drops the last sample exactly if there is no room |
| Downsample.ByStride | app/analysis/downsample.js:7-12 | without spread in time: the multiples of the least stride with which the limit suffices, as many as fit, and the last sample |
| TruthHistory.WindowIsSound | app/autonomy/CandidateOutputRuntime.js:242-251 | for every run the history increases strictly in time, spans at most ten seconds, keeps the newest sample, and holds exactly the samples of those ten seconds that were newer than all before them |
| TruthHistory.Recorder.RecordTruth | app/autonomy/CandidateOutputRuntime.js:242-251 | recording keeps the history equal to the window of all samples so far |
| TruthHistory.Recorder.TruthFor | app/autonomy/CandidateOutputRuntime.js:255-261 | the newest sample for an estimate without a time, else the answer for its time |
| TruthHistory.TruthAtCaptureTime | app/autonomy/AutonomyVisualizationModel.js:499-528 | nothing exactly outside the history; else that very time, the sample of that time if there is one, and otherwise a position on the line between the two neighbours that bracket the time, with the orientation that the spherical interpolation gives for the same share |
| TruthHistory.LerpIsBetween | app/autonomy/AutonomyVisualizationModel.js:513-519 | each coordinate lies between those of the neighbours, in proportion to the time |
| Poses.Associative | app/autonomy/CoordinateFrames.js:119-126 | the quaternion product is associative |
| Poses.LongIs | app/autonomy/CoordinateFrames.js:128-133 | the least norm in literal digits |
| Poses.RotateTwiceIff | app/autonomy/CoordinateFrames.js:134-139 | rotating by a product is rotating twice if and only if the product's norm is above the least one, or there is nothing to rotate |
| Poses.RotateBackIff | app/autonomy/CoordinateFrames.js:122-139 | rotating by a quaternion and its inverse, either way, gives a vector back if and only if both their norms are above the least one, or the vector is zero |
| Poses.ComposeAssociativeIff | app/autonomy/CoordinateFrames.js:251-268 | composition of poses is associative if and only if the norm of the product of the first two rotations is above the least one, or the last pose is at the origin |
| Poses.ComposeAssociative | app/autonomy/CoordinateFrames.js:251-268 | so it is for unit quaternions, whose product is one again |
| Poses.InvertCancelsIff | app/autonomy/CoordinateFrames.js:206-216 | an inverse cancels its pose from the left if and only if the rotation's norm is above the least one, and from the right if and only if that of its inverse is, too, or the pose is at the origin |
| Poses.RelativeComesBackIff | app/autonomy/CoordinateFrames.js:219-221 | composing the parent with a pose expressed in it gives the pose back, and the other way round, if and only if the parent's rotation and its inverse are above the least norm, or in one of the named cases with nothing to rotate |
| Poses.ComposeActsIff | app/autonomy/CoordinateFrames.js:251-268 | a composed pose takes a point where the child and then the parent take it, if and only if the product's norm is above the least one or the point is the origin |
| Poses.InvertActsIff | app/autonomy/CoordinateFrames.js:206-216 | the inverse pose undoes the pose on a point if and only if both norms allow it or the point is the position |
| Poses.QuarterTurns | app/autonomy/CoordinateFrames.js:119-139 | a quarter turn about each axis takes the next axis to the one after: rotations are right-handed |

## Left out

- Conversions of wrong-kind script values on encoding: a value that the script would coerce to the field's type is an error of its own in the model, not the coerced bytes.
- What lies behind the tables of the codec: assigning an object under `__proto__` also replaces the prototype of the decoded value, and what a schema or a value inherits is coerced like any other; the model has the own properties only, and an error of its own where an inherited one is read.
- Float arithmetic inside the codec: 32- and 64-bit floats are bit patterns; fractional durations are only decoded, as a pair of integers.
- Invalid UTF-8 and lone surrogates, which the platform replaces before the code sees them.
- Parsing of message definition text (app/client/TopicCodec.js:56-64, 94-111): only the registration of parsed fields is modelled.
- Views that share memory: a decoded byte array is a copy in the model, an alias of the packet in the source.
- Rounding of floats in control, clustering, downsampling, meshes and poses: all of it is over the reals.
- Telemetry and transition events of the control runtime, the shadow reference kept for them, and `sampleAchieved`: they do not reach the applied command.
- Sine, cosine and the constant behind the steering stop: parameters of the model.
- `close()` of the bake service, and two requests whose 16-character hash prefixes collide: job ids are full hashes.
- Validation and grouping of uploaded inputs outside the lock, the order of samples and channels in the output set, wall-clock limits and the model itself: a worker's answer is arbitrary, and so is its failure.
- Field-by-field normalization and validation of asset records: a record is its id, parent, order and remaining text. The normalization of the parent is modelled as it is; that of the rest is an arbitrary function of which `Settles` asks that it settle by the second pass, with id and order as the first left them. A material or a semantic for which the source's normalization throws is not part of the model.
- Collation of names: any total order. Ids that compare equal without being equal are not part of the model.
- Subscribers of an asset document: only the version that they see is modelled. The callback of a transaction is a list of operations of the document, nested transactions and thrown errors included.
- Spherical interpolation of orientations (app/autonomy/AutonomyVisualizationModel.js:520): an arbitrary function.
- Non-finite times and coordinates, which the source skips or refuses one by one.
- Box, mesh and convex primitives (app/editor-assets/VoxelMeshSimplifier.js:83-89), material and metric validation, geodesy, networking and pages: tables, formulas and calls without state of their own.
- The wheelbase among the limits of a vehicle, which the control runtime hands on and does not use in its steps.
- BakeRuntime.BakeService.Submit: asks that queued ids be jobs, which is part of the proved invariant, and replies with the state at the end of its lock, where the source reads it just after; Pump and Exit ask the same of the queue.
- BakeResults.ResultsAreSound: leaves out a read error after the rename into the cache (baking/v1_service.py:459-466). It fails the job and leaves a readable entry, after which a resubmission can complete with a result that differs from that entry.
- Unlocked reads of status, results and buffers, and other processes that write to the same cache.
- CodecRange.RoundTripIffInRange: asks that no schema names a field twice, because of two fields with one name only the last comes back; that in-range values come back needs no such condition.
- Strings and arrays of 2^32 or more units, whose length prefix would wrap and which the platform cannot hold.
- Poses.RotateTwiceIff: asks that both factors be above the least norm, and Poses.ComposeAssociativeIff the same of the first two rotations: below it the source takes the identity for the inverse of one factor, and the two sides are unrelated.
- ControlSafety.SilenceStopsIff: is about steps that follow each other within the watchdog time, because after a longer pause a command without a capture time is stale, too; `StaleMeansStopped` covers every case.
- ControlHistory.EnvelopeAlways: the limits are non-negative and stay the same during a run; the theorems on the delay line and the stop also ask that steps come in time order.
- Hierarchy.CollectGestureClosure: asks for a well-founded hierarchy, on which alone the source's walk ends.
- SphereMesh.SphereIsClosed: says nothing about which side is outside, which depends on the circle functions.
- AssetEdits.UpdatedIs: is about a definition in normal form and updates that set tidy records under their own ids; `UpdateIsNormalized` says for all definitions and updates what the domain then holds.
- ControlTracking.LeftAloneReachesIff: is about a vehicle without a response delay; with one, `DelayLineIsLookup` says which command reaches the limiter, and `SpeedIsReachedIff` what it makes of it.
- Downsample.DownsampleMinMax: for times that are not sorted, only the number and the range of the chosen samples are stated, because the source's buckets then stop early.
- The blanks that trimming removes are those of the ECMAScript standard, listed in the model.
