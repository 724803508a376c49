# Verification of the LaserControl serial stack

This project models the serial command stack of LaserControl, from the system
calls on a serial descriptor up to whole runs of the `serial_manager` program,
and proves what the layers promise together: that a command is delivered at most
once, that a reply is read back exactly, that caches agree with what went over
the wire, that the motor is only commanded when it has just said it is stopped,
that threads sharing a power meter see whole transactions, and that the laser is
taken down on every normal way out.

`dafny verify dfyconfig.toml` checks everything. Nothing here executes the C++
program.

## How it is modelled

| file | part of the system |
|---|---|
| `Outcome`, `Text`, `Decimal` | results and exceptions, string helpers, decimal text |
| `Timer`, `Kernel`, `SerialImpl` | timer arithmetic, system calls, the Unix port |
| `Lines`, `Serial` | the stopping rules of line reading, the port facade and its log |
| `Device`, `Transcript`, `Frames` | framing, reset and retry, the conversation without noise, the frames the device sees |
| `AttenuatorWire`, `AttenuatorStatus`, `Motor`, `Attenuator`, `Transmission` | the attenuator |
| `Laser` | the laser |
| `MeterTables`, `MeterReplies`, `PowerMeter`, `Transactions`, `Interleaving` | the power meter, alone and shared by threads |
| `MapText`, `Words`, `Manager` | table printing, command splitting, the manager program |

* **The kernel is a script.** Every system call takes the next answer of a finite
  script: how many bytes moved, failure, interruption, time taken. The bytes the
  device will send are a given stream. Answers are clipped to what a kernel can
  do. A theorem about a method holds for every script and every stream, hence for
  every partial read or write, timeout, interruption and failure. What must happen
  when nothing goes wrong is stated too: against a kernel that always answers at once
  and positively (`Prompt`), or one that hands over a byte per read (`Served`).
* **Exceptions are results.** `Throw` is a C++ exception. `Cut` means the observed
  run ends inside the call because the script does, so safety statements hold at
  every moment of a run, also if the process is killed there.
* **The log.** The port facade records each write (message and how much of it the
  kernel took), each read of lines and how long it took, and each reset.
  `Serial.Valid` ties the log to the raw bytes. A message is *offered* when it is the
  next thing written, and *whole* when the kernel took all of it in one write call; the
  *conversation* (`Digest`) is the whole messages and the lines the driver got. A call
  that sends something offers its message, unless the observed run ends first or the
  port cannot be opened.
* **The motor** behind the attenuator is a fold over the conversation. It is
  *honest* if it reports "stopped" only at rest and with its counter. Statements
  that need this say so.
* A wait with a timeout reports the timeout only after waiting that long.
* A run of the manager is told as deeds: an operation asked of the laser, how it
  ended, and what it left in the conversation.
* `strtol(..., 0)`, voltage formatting (texts without the terminator), port discovery
  and the ignore flags are parameters. Waiting (`sleep_for`) has no effect in the model.

## What turned out to depend on a condition

* `readlines` splits cleanly exactly when the terminator does not overlap itself.
* `readline` stays inside its buffer exactly when the buffer holds one byte and the
  terminator.
* A position reply cut short by a timeout is never read correctly, because two
  bytes are dropped from the end whatever they are.
* `set_zero` shifts the physical target by twice the counter value on success, and
  by once the counter on failure exactly when its own query was answered "stopped";
  homing keeps the target exactly when offset and bias cancel.
* The frames the device sees are the messages sent exactly when no write was cut in
  the middle (`Frames.FramesAreMessagesIff`; `Frames.GarbledMove` is an input where
  a retried move by 100 arrives as a move by 1).
* The range table has keys 0, 1, 2, ... exactly up to 2^15 entries.
* `serial_map` prints an empty table as a lone closing brace.
* A shot count is returned exactly when it arrives with the first read, not when it
  only arrives after the reset.
* `unmap_devices` tells the laser to stop exactly when deleting the power meter and
  the attenuator does not throw, and to close the shutter exactly when in addition
  the stop message got through. Two short writes of the stop message, or a kernel
  that refuses it (`Manager.RefusedStop`, a whole run), leave the shutter as it is.
* The time budget reaches the timer unchanged exactly when it fits 32 bits.
* `map_devices` overwrites the status of an earlier device with that of a later
  one. Status 0 means that all first queries were answered exactly when at most one
  device is not ignored (`Manager.StatusMeansAnsweredIff`; `Manager.HiddenFailure`
  is an input where it does not).

Where comments and code disagree the code is followed: the comment above
`refresh_status` (src/Attenuator.cpp:351) writes `\r\n` for the terminator while
the code reads up to `\n\r`.

## Model

| member | source | states |
|---|---|---|
| Timer.StartTimer | src/impl/unix.cc:59-70 | the expiry is normalised and lies exactly the given milliseconds after the start, for every 32-bit count |
| Timer.RemainingExact | src/impl/unix.cc:72-79 | two roundings in a row give the exact difference cut toward zero; positive exactly when a whole millisecond is left |
| Timer.TimespecFromMsExact | src/impl/unix.cc:99-106 | the split into seconds and nanoseconds is normalised and loses nothing |
| UnixPort.ReadBudget | src/impl/unix.cc:546-549 | the timer gets constant plus multiplier times size exactly when that fits 32 bits |
| UnixPort.WriteBudget | src/impl/unix.cc:623-626 | the same for writes |
| UnixPort.SerialImpl.Open | src/impl/unix.cc:129-157 | normal return exactly when a closed port becomes open on a live descriptor; every other end leaves the port as it was; at most the descriptor just opened is lost, and none on success |
| UnixPort.SerialImpl.Close | src/impl/unix.cc:462-477 | a closed port is left alone; failure means the system call failed and leaves the port open on the same descriptor |
| UnixPort.SerialImpl.FlushInput | src/impl/unix.cc:818-825 | throws exactly when the port is closed, touches a live descriptor only |
| UnixPort.SerialImpl.WaitReadable | src/impl/unix.cc:499-528 | true exactly when select returned a positive count with the descriptor set; throws exactly when select failed other than by a signal or returned without the descriptor; false means the whole time went by or a signal came |
| UnixPort.SerialImpl.ReadPiece | src/impl/unix.cc:567-609 | one turn takes an in-order piece of the stream, stores exactly it and nothing outside its place; a ready descriptor with a byte waiting brings that byte |
| UnixPort.SerialImpl.Read | src/impl/unix.cc:537-612 | what is stored is the exact beginning of the delivered stream even on exceptions; a short normal return only with less than 1 ms of the budget left; a one-byte read gets its byte when it is there, or when it comes within the budget |
| UnixPort.SerialImpl.WritePiece | src/impl/unix.cc:639-710 | one turn, case by case: what select and write answered decides how much is handed over, whether it throws, times out or goes round again; when it throws or times out nothing was taken |
| UnixPort.SerialImpl.Write | src/impl/unix.cc:614-713 | the kernel takes a prefix, the count is its length, no abnormal end after the whole was taken, a short normal end only with less than 1 ms of the budget left; a kernel that answers at once takes everything |
| SerialPort.Serial.Write | src/serial.cc:254-260 | one write call is one log entry with the bytes actually taken |
| SerialPort.Serial.ReadLine | src/serial.cc:176-202 | the line is the beginning of the stream, appended to the buffer; no earlier byte could have stopped it; if the last did not either, a byte timed out; a kernel that hands over a byte per read delivers the whole line |
| SerialPort.Serial.ReadUntil | src/serial.cc:183-199 | the buffer is never overrun and holds exactly the bytes taken |
| SerialPort.Serial.ReadLines | src/serial.cc:212-252 | the lines are the cuts of the bytes taken; only a full buffer shorter than the terminator is dropped |
| SerialPort.Serial.SetPort | src/serial.cc:282-291 | an open port is open again on the new path after a normal return |
| SerialPort.Serial.Drive | src/serial.cc:80-291 | over every sequence of open, close, flush, setPort, write, readline and readlines and every kernel behaviour: open implies a live descriptor, and the log accounts for every byte |
| Lines.LineLengthIsFirstStop | src/serial.cc:184-199 | the loop stops at the first stopping point or when the stream dries up |
| Lines.BufferSufficesIff | src/serial.cc:180-198 | no stream overruns the buffer if and only if it has room for one byte and for the terminator |
| Lines.StoppedRunIsLine | src/serial.cc:184-200 | without a timeout the bytes taken are determined by the stream alone |
| Lines.CleanUnique | src/serial.cc:212-252 | a text has only one split into non-empty lines with the terminator at the end only |
| Lines.AllLinesClean | src/serial.cc:222-250 | for every stream and border-free terminator the lines concatenate to the bytes taken and are the clean split |
| Lines.CleanIffBorderFree | src/serial.cc:234-241 | every stream is split cleanly if and only if the terminator does not overlap itself |
| Lines.ReadlinesIsRepeatedReadline | src/serial.cc:176-252 | on bytes that do not fill the buffer one readlines equals repeated readline |
| Lines.TerminatorsInUse | src/Attenuator.cpp:686 | the terminators used by the drivers do not overlap themselves |
| Lines.TwoLines | src/serial.cc:234-241 | two lines with a one-character terminator are read as these two, whatever follows |
| DeviceLine.Device.WriteCmd | src/Device.cpp:47-72 | at most one write, after a flush, true exactly when the whole framed command was taken; a closed port is reopened before writing; only a port that cannot be opened keeps the command from being offered |
| DeviceLine.Device.ReadCmd | src/Device.cpp:87-123 | appends to the answer, counts from the suffix length on, then cuts the suffix length; an answer without the suffix means a byte was late; a kernel that hands over a byte per read delivers the line; the short-answer branch is dead |
| DeviceLine.Device.ReadLines | src/Device.cpp:125-138 | the lines are the cuts of the bytes taken, which are the beginning of the stream |
| DeviceLine.Device.ResetConnection | src/Device.cpp:140-144 | open after a normal return; after a failure either untouched or closed |
| DeviceLine.Device.WriteRetrying | src/Attenuator.cpp:659-679 | a second write only after a reset, a reset only after a short write; false only after two short writes |
| DeviceLine.AtMostOnce | src/Attenuator.cpp:659-679 | exactly one terminator reaches the kernel on success and none otherwise; the frame is the command behind at most a piece of itself |
| Transcript.RetryDigest | src/Attenuator.cpp:659-679 | a command shows up in the conversation once if it succeeded and not at all if it did not |
| Frames.FramesAreMessagesIff | src/Device.cpp:47-72 | the bytes the kernel took, cut at the terminator, are exactly the messages of the conversation with nothing left over if and only if no write was cut in the middle |
| Frames.GarbledMove | src/Attenuator.cpp:659-679 | a kernel script on which they are not: the call succeeds after a retry, the conversation holds a move by 100, and the one frame the device sees is a move by 1 |
| Text.Find | src/utilities.cpp:24 | the first occurrence, or none |
| Text.TokenizeString | src/utilities.cpp:20-30 | pushes the pieces between separators behind the caller's and leaves the last piece in the string |
| Text.TokensRejoin | src/utilities.cpp:20-30 | the tokens rejoin to the input and none contains the separator |
| Text.TokensInvertJoin | src/utilities.cpp:20-30 | tokenising inverts joining separator-free pieces with a one-character separator |
| Text.EmptySeparatorStandsStill | src/utilities.cpp:24-28 | with an empty separator the loop makes no progress |
| Text.TrimSplits | src/utilities.cpp:41-55 | trimming cuts off a run of whitespace at each end and leaves neither end blank |
| Text.TrimUnique | src/utilities.cpp:41-55 | whatever whitespace surrounds a text that neither begins nor ends with it, trimming gives back the text |
| Decimal.StoLInvertsPrint | src/Attenuator.cpp:456 | every 64-bit integer is recovered from its printed form |
| Decimal.StoULInvertsPrint | src/Attenuator.cpp:464 | every unsigned 64-bit integer is recovered from its printed form |
| Decimal.CutDecimalIsSmaller | src/Attenuator.cpp:456 | cutting a printed number short always makes it smaller |
| Decimal.Pad3Value | src/Laser.cpp:150-151 | the zero-padded three digits denote the number, up to 999 |
| AttenuatorWire.ReportInvertsEncode | src/Attenuator.cpp:447-464 | the driver recovers every one-digit status and 32-bit position from the printed reply |
| AttenuatorWire.PositionRoundTrip | src/Attenuator.cpp:428-467 | whatever follows on the stream and however the bytes trickle in, a reply read without timeout gives exactly its status and position |
| AttenuatorWire.PositionRightIffWhole | src/Attenuator.cpp:681-711 | a reply cut at any point is read correctly if and only if it is whole |
| AttenuatorStatus.StatusReads | src/Attenuator.cpp:383-398 | every setting the driver stores is recovered from the tokens of an in-range reply |
| AttenuatorStatus.StatusRoundTrip | src/Attenuator.cpp:352-398 | the same from the stream, through line reading, suffix stripping and tokenising |
| MotorModel.DecodeText1 | src/Attenuator.cpp:85-87 | the device understands the letter and number the driver printed |
| MotorModel.GuardedSnoc | src/Attenuator.cpp:75-91 | adding a motion message after a "stopped" reply keeps motion safety |
| MotorModel.QueryEffect | src/Attenuator.cpp:648-652 | a query never changes bias or known rest; a "stopped" answer of an honest motor is where it rests |
| MotorModel.PolledExactly | src/Attenuator.cpp:469-481 | if the first "stopped" is the k-th answer, a wait that ends well has asked exactly k times and no wait asks more often |
| MotorModel.MovedOnce | src/Attenuator.cpp:73-126 | a motion call tells the motor to move once if its message went out whole and not at all otherwise, whatever was polled |
| AttenuatorDriver.Attenuator.WriteCmd | src/Attenuator.cpp:659-679 | on the wire whole exactly when true; one terminator then, none otherwise |
| AttenuatorDriver.Attenuator.FramesIff | src/Attenuator.cpp:659-679 | in every state of a run the frames the device got are the messages of the conversation if and only if no write was cut in the middle |
| AttenuatorDriver.Attenuator.ReadCmd | src/Attenuator.cpp:681-711 | an empty read is retried once after a reset, so no answer means two silent reads around a reset; the bytes heard are the beginning of what the device had, and the answer is those less the last two; a line without its terminator means a byte was late |
| AttenuatorDriver.Attenuator.Exchange | src/Attenuator.cpp:430-464 | query and answer as one exchange on the wire, read as the driver reads it |
| AttenuatorDriver.Attenuator.QueryPosition | src/Attenuator.cpp:428-467 | keeps motion safety; if what the device had for the read starts with a reply and the line came in whole, which it did unless a byte was late, that reply is returned |
| AttenuatorDriver.Attenuator.GetPosition | src/Attenuator.cpp:428-482 | the conversation grows by position queries of which only the last may have failed or said "stopped", just one without wait; success exactly when the last was readable and, with wait, said "stopped"; a reply at the head of what the device had for the last read, come in whole, is what is returned; an honest motor rests at the position |
| AttenuatorDriver.Attenuator.RefreshPosition | src/Attenuator.cpp:648-652 | exactly one query; success exactly when its answer is readable, and then position and motor state are from it; a failure keeps the motor state |
| AttenuatorDriver.Attenuator.RequireStopped | src/Attenuator.cpp:75-83 | exactly one query; returns normally exactly when it was answered "stopped" |
| AttenuatorDriver.Attenuator.Command | src/Attenuator.cpp:73-126 | a motion call offers the query, and its message whenever that was answered "stopped" and never otherwise, at most once, and then the polls of the wait; success exactly when the message went out and the wait ended with "stopped"; a kernel that answers at once takes the message |
| AttenuatorDriver.Attenuator.MoveBy | src/Attenuator.cpp:73-98 | one "m" message exactly when the query said "stopped" and the write got through, and no other motion message; it is tried whenever the query said "stopped"; an honest motor is sent to, and with wait returned at, the reported position plus steps; ledger unchanged |
| AttenuatorDriver.Attenuator.Go | src/Attenuator.cpp:100-126 | one "g" message exactly when the query said "stopped" and the write got through, and no other motion message; it is tried whenever the query said "stopped"; the motor is sent to, and with wait an honest one returned at, the target; ledger unchanged |
| AttenuatorDriver.Attenuator.SetTransmission | src/Attenuator.cpp:490-512 | outside [0, 1] nothing is sent; otherwise the wire is that of going to the step count, tried whenever the query said "stopped", with at most one motion message, and the physical position aimed at is determined by transmission and ledger as long as the count fits 32 bits |
| AttenuatorDriver.Attenuator.SetCurrentPosition | src/Attenuator.cpp:128-156 | one motion message exactly on success, which redefines the counter; it is tried whenever the query said "stopped"; with an honest motor the ledger is unchanged whatever the outcome |
| AttenuatorDriver.Attenuator.SetZero | src/Attenuator.cpp:158-185 | with an honest motor success shifts the ledger by twice the counter, hence not at all exactly if the motor rested at zero; failure shifts it by the counter exactly when the call's own query was answered "stopped" |
| AttenuatorDriver.Attenuator.Stop | src/Attenuator.cpp:188-204 | the stop command is offered at once, is on the wire exactly on success and the ledger is unchanged |
| AttenuatorDriver.Attenuator.GoHome | src/Attenuator.cpp:207-229 | one motion message exactly on success, which zeroes counter, bias, offset and ledger; it is tried whenever the query said "stopped"; failure keeps the ledger |
| AttenuatorDriver.Attenuator.RefreshStatus | src/Attenuator.cpp:352-398 | exactly one settings query; success exactly when its answer on the wire can be read, and then every stored setting is from it; a reply at the head of what the device had for the read, come in whole, is stored field by field; ledger unchanged |
| AttenuatorDriver.Attenuator.Attach | src/Attenuator.cpp:50-61 | the wire grows by a settings and a position exchange, and after success the cached settings, position and state are those of the two answers |
| AttenuatorDriver.Attenuator.Run | src/Attenuator.cpp:73-229 | over every run every motion message directly follows a query answered "stopped"; with an honest motor and without set_zero and forced stops the ledger is constant, or with homing stays zero once zero |
| AttenuatorDriver.Attenuator.Revisit | src/Attenuator.cpp:490-512 | over every run in between without set_zero, forced stops and homing the same transmission sends an honest motor to the same physical position, given by transmission and ledger; with homing too if the ledger is zero |
| Transmission.TargetBound | src/Attenuator.cpp:621-637 | with default calibration the target lies within 1 to 3900 steps of the offset for every angle function |
| Transmission.TargetMonotone | src/Attenuator.cpp:621-637 | more transmission never means a smaller target |
| Transmission.AngleRecovered | src/Attenuator.cpp:639-645 | the angle read back differs by less than 1/43.3333 degree |
| Transmission.PhysicalTargetIsLedger | src/Attenuator.cpp:621-637 | the physical target of a transmission depends on offset and bias exactly through their sum |
| LaserDriver.PrescaleText | src/Laser.cpp:150-151 | the message sets the prescale to the number sent and is always allowed |
| LaserDriver.QswitchText | src/Laser.cpp:434-435 | the message sets the Q-switch delay to the number sent and is always allowed |
| LaserDriver.FireText | src/Laser.cpp:111-112 | the message switches firing to the value sent and is always allowed |
| LaserDriver.Laser.Submit | src/Laser.cpp:113-122 | the message is offered, and is whole on the wire exactly when the block returns normally, as it does with a kernel that answers at once |
| LaserDriver.Laser.FramesIff | src/Laser.cpp:94-105 | in every state of a run the frames the laser got are the messages of the conversation if and only if no write was cut in the middle |
| LaserDriver.Laser.Shutter | src/Laser.cpp:90-106 | the shutter message is on the wire exactly on success and the cache stays right |
| LaserDriver.Laser.Fire | src/Laser.cpp:109-130 | the firing flag follows the message exactly on success |
| LaserDriver.Laser.SetPrescale | src/Laser.cpp:133-167 | the cached and sent prescale is the value cut to 99, exactly on success |
| LaserDriver.Laser.SetQswitch | src/Laser.cpp:425-452 | the cached and sent delay is the value cut to 999, exactly on success |
| LaserDriver.Laser.SingleShot | src/Laser.cpp:215-235 | the single shot directly follows a prescale of zero |
| LaserDriver.Laser.ListenRetrying | src/Laser.cpp:247-259 | a second read exactly when the first brought no line; success exactly when the last read brought lines, which are the cuts of its bytes |
| LaserDriver.Laser.Security | src/Laser.cpp:327-393 | the lines are read only once the query is out whole; the answer on the wire decides the result; an echo and a code give exactly the code |
| LaserDriver.Laser.GetShotCount | src/Laser.cpp:237-298 | the answer on the wire decides the result; an echo and a number below 2^32, or the number alone, give exactly that number if and only if they came with the first read |
| LaserDriver.Laser.Perform | src/Laser.cpp:90-452 | the conversation grows by everything an operation tells the laser exactly if it succeeds, by a beginning of that otherwise, and by a query and its line; its first message is offered; each cached value changes exactly as the operation says |
| LaserDriver.Laser.Run | src/Laser.cpp:90-452 | in every reachable state the cache is the fold of the whole messages, no prescale exceeds 99, every single shot follows a prescale of zero |
| MeterTables.NumberedAt | src/PowerMeter.cpp:277-285 | a numbered table has exactly consecutive keys with the entries in order |
| MeterTables.FillRanges | src/PowerMeter.cpp:274-285 | the table is the entries under 0, 1, 2, ... if and only if there are at most 2^15 |
| MeterTables.FillFromOne | src/PowerMeter.cpp:851-860 | the table is the entries under 1, 2, 3, ..., for as many as the 16-bit key can number; the callers are shown to stay below that |
| MeterTables.FillWords | src/PowerMeter.cpp:218-228 | the table is the non-blank words under 1, 2, 3, ..., for as many as the 16-bit key can number; the callers are shown to stay below that |
| MeterTables.TokenCount | src/PowerMeter.cpp:255-257 | a reply has at most one token more than bytes |
| MeterReplies.ListingTokens | src/PowerMeter.cpp:255-257 | words with one blank between them and any whitespace around are what trimming and tokenising give back |
| MeterReplies.WindowsTokens | src/PowerMeter.cpp:209-228 | the averaging windows are found from "NONE" on and read back without the blanks |
| PowerMeterDriver.PowerMeter.ReadRetrying | src/PowerMeter.cpp:1312-1326 | a second read exactly after a first one too short, and a reset; true exactly when the last read was long enough; nothing read is taken back |
| PowerMeterDriver.PowerMeter.SendCmd | src/PowerMeter.cpp:1286-1331 | at most two writes, two reads, two resets; it reads exactly when the message went out whole; true exactly when the last read was long enough, and then the answer is everything there was and was read less two bytes; the lock program of its path performs exactly these writes, resets and reads |
| PowerMeterDriver.AskedOnce | src/PowerMeter.cpp:1286-1331 | the log of a transaction decides what its answer was |
| PowerMeterDriver.TransactionTold | src/PowerMeter.cpp:1286-1331 | what a transaction leaves in the log is what its lock program does to the port, in order: one write per message offered, right behind dropping pending input and output, the resets, and one read per byte; all under the right lock |
| PowerMeterDriver.PowerMeter.QueryUserThreshold | src/PowerMeter.cpp:1169-1200 | one transaction; whatever three 16-bit numbers its reply prints are returned and cached as current, lowest and highest |
| PowerMeterDriver.PowerMeter.UserThreshold | src/PowerMeter.cpp:1094-1167 | after a reply starting with `*` or `?` the answer equals the cached threshold on every path; the first of three printed 16-bit numbers is returned and cached, the limits only the first time; any other success is followed by one query transaction whose three printed numbers are returned and cached; a refusal changes nothing |
| PowerMeterDriver.PowerMeter.EnergyThreshold | src/PowerMeter.cpp:498-521 | one transaction; answer and cache are the digit behind the first character of its reply, and anything else there is an error; a failure keeps the cache |
| PowerMeterDriver.PowerMeter.GetAllRanges | src/PowerMeter.cpp:234-286 | for every 16-bit setting and list of words, the reply that prints them gives back the setting, and the words as table under 0, 1, 2, ...; entries get these numbers if and only if they fit the key type |
| PowerMeterDriver.PowerMeter.PulseLength | src/PowerMeter.cpp:816-876 | an accepted value is returned, otherwise the digit of the reply; for every list of words the first reply that prints them fills the table with exactly these under 1, 2, ..., and then it never changes |
| PowerMeterDriver.PowerMeter.AverageQuery | src/PowerMeter.cpp:186-230 | the digit of the reply is returned; for every list of windows from "NONE" on the first reply that prints them, with any number of blanks between, fills the table with exactly these under 1, 2, ..., and then it never changes |
| PowerMeterDriver.PowerMeter.MeasurementMode | src/PowerMeter.cpp:773-812 | an accepted mode is returned; a query, also the one that follows a refusal in a transaction of its own, returns the 16-bit number its reply prints, whatever whitespace surrounds it |
| PowerMeterDriver.PowerMeter.Run | src/PowerMeter.cpp:186-1200 | over every run a non-empty pulse or averaging table never changes and cached thresholds stay 16-bit |
| Transactions.TransactionWellFormed | src/serial.cc:35-64 | any sequence of facade calls under the command mutex takes locks in rank order, never twice, and touches the port under the mutex only; each operation is under its own lock if each call takes it |
| Transactions.SendCmdWellFormed | src/PowerMeter.cpp:1286-1331 | so does every path of `send_cmd`, wherever an exception leaves it; input is read and dropped under the read lock only, output written and dropped under the write lock only |
| Transactions.SendCmdTells | src/Device.cpp:47-72 | the operations of such a path are its writes, resets and reads in order, and every write comes right behind dropping pending input and output |
| Interleaving.AtomicTransactions | src/PowerMeter.cpp:1286-1331 | in every interleaving of any number of threads the log is whole transactions plus the beginning of at most one, each thread's once each and in order |
| Interleaving.NoDeadlock | src/PowerMeter.cpp:1286-1331 | at every point of every interleaving, while any thread has work left some thread can step |
| Interleaving.FinishedRun | src/PowerMeter.cpp:1286-1331 | a run that leaves no thread any work has a log of whole transactions, all of them |
| Interleaving.DriverPlansAreGood | src/PowerMeter.cpp:1286-1331 | the plans the driver can make satisfy what the interleaving theorems ask for |
| MapText.SerialMap | src/utilities.cpp:168-181 | the overwrite in place gives the comma-joined form in braces, a lone brace for the empty table; what is printed can be read back if and only if there is something to print |
| MapText.EntriesRead | src/utilities.cpp:173-176 | a reader recovers every entry list with quote-free values from the joined form |
| CommandLine.WordsAreTokens | src/utilities.cpp:20-30 | the words of a line are its tokens without the empty ones |
| CommandLine.WordsBound | apps/serial_manager.cpp:1481-1490 | never more than one word more than spaces |
| CommandLine.Strtok | apps/serial_manager.cpp:1491-1496 | the next word and where to go on |
| CommandLine.SplitLine | apps/serial_manager.cpp:1481-1498 | the array is never overrun, and the arguments are the non-empty tokens of the line, in order |
| Manager.Session.MapLaser | apps/serial_manager.cpp:82-149 | status 0 exactly when there was an instance or the port opened and both first queries were answered on the wire; the shot count is asked for exactly after an answered security query; the instance stays when they were not answered, and is never replaced |
| Manager.Session.MapAttenuator | apps/serial_manager.cpp:239-306 | status 0 exactly when there was an instance or creation and first query returned; the instance stays when the query did not, and is never replaced |
| Manager.Session.MapMeter | apps/serial_manager.cpp:434-501 | status 0 exactly when there was an instance or creation and first query returned; the instance stays when the query did not, and is never replaced |
| Manager.Session.MapDevices | apps/serial_manager.cpp:502-566 | status 0 if and only if every device that is not ignored has an instance and mapping the last of them returned 0; mapping stops exactly at a device without an instance; the laser hears its first queries only |
| Manager.StatusMeansAnsweredIff | apps/serial_manager.cpp:502-566 | status 0 guarantees that all first queries were answered if and only if at most one device is mapped |
| Manager.HiddenFailure | apps/serial_manager.cpp:502-566 | an input where it does not: the attenuator's query throws, the power meter's returns, the status is 0 |
| Manager.Session.TakeDown | apps/serial_manager.cpp:582-589 | the laser hears stop firing exactly when that call returned, and close the shutter exactly when both returned; stop firing is offered first, and closing tried only after stopping worked; a kernel that answers at once takes both |
| Manager.Session.UnmapDevices | apps/serial_manager.cpp:568-594 | stopping is tried exactly when there is a laser and the other deletions returned, and its message is then offered; what the laser hears is fixed by how the two calls ended; normal return exactly when all of it worked |
| Manager.SaidIff | apps/serial_manager.cpp:568-594 | exact conditions for the laser hearing both messages, only stop firing, or nothing on the way down |
| Manager.RefusedStop | apps/serial_manager.cpp:1454-1521 | a kernel script on which a whole run ends in an exception and the shutter is never told to close, although nothing is in the way of the laser |
| Manager.DangerousDeeds | apps/serial_manager.cpp:686-1306 | no message to start firing or to open the shutter comes from any other operation than that |
| Manager.Session.RunCommand | apps/serial_manager.cpp:686-1306 | for each of the eleven laser subcommands, the messages the laser hears on status 0 and the cache behind them, a beginning of them otherwise; the first is offered; every other line leaves the wire and the cache alone and gives 0, unless it goes to another device; 255 exactly for exit, 1 for an empty line; no exception gets out |
| Manager.Session.CommandMeans | apps/serial_manager.cpp:705-807 | what each laser subcommand means in messages, queries and status |
| Manager.Session.RunLine | apps/serial_manager.cpp:1475-1498 | the command run is the words of the line, with the messages and cache of it as for the command; a blank line is a failure |
| Manager.Session.RunProgram | apps/serial_manager.cpp:1454-1521 | all the laser hears in a run, also one that ends by an exception or is cut off, is the first queries, what the commands run ask of it, and the way down with its exact conditions, whose first message is offered behind all the rest; nothing starts firing or opens the shutter without its command; commands run in order, all but the last with status 0, up to exit, failure or the end of the input; the value returned is 1 exactly after a failed command and 0 after exit, end of input and failed mapping; a normal return leaves no instance and a laser told to stop and close |

## Left out

- Terminal setup, baud rates, modem lines, breaks: flat tables and foreign calls.
- Windows and macOS back ends, port enumeration, the simulated devices, deprecated I2C code, examples, logging, help text, configuration loading.
- Floating-point text: pump voltage, repetition rate, energies and powers; the voltage text is a parameter of the manager model.
- Trigonometry: only that the angle falls from at most 90 to at least 0 degrees is used.
- The other single-value queries and setters of the power meter and the attenuator: each is one transaction or one command of the kinds modelled, and they would add easy members only.
- `m_range` and `m_wavelength`: the code does not keep them in step with the instrument.
- Signed overflow of the attenuator's offset: undefined in C++, unbounded here.
- Power meter calls that bypass the command mutex, in the thread model.
- A command whose write was cut short: motion and laser results speak of messages taken whole; that these are the frames the device sees is proved exactly for logs without cut writes.
- Text.TokenizeString: asks for a non-empty separator, because the loop never ends on an empty one (`Text.EmptySeparatorStandsStill`).
- SerialPort.Serial.ReadLine: asks for a buffer that holds one byte and the terminator, because the code overruns it otherwise (`Lines.BufferSufficesIff`).
- Output flushing: bytes the kernel took count as sent even if a later `tcflush` drops them before transmission.
- AttenuatorDriver.Attenuator.SetTransmission: a step count beyond 32 bits wraps in the model and is undefined in C++; the physical target is stated for counts that fit.
- AttenuatorDriver.Attenuator.Stop: a forced stop may lose counter accuracy; the model keeps the bias, and the run theorem excludes forced stops.
- Manager.Session.MapAttenuator: creating, querying and deleting this device is a call with an arbitrary outcome.
- Manager.Session.MapMeter: creating, querying and deleting this device is a call with an arbitrary outcome.
- Manager.Session.RunCommand: the attenuator and power meter calls behind a command are one call with an arbitrary outcome.
- UnixPort.SerialImpl.FlushInput: which part of the pending input is dropped is arbitrary.
