# A verified model of erraid and tadmor

`erraid` is a cron-like daemon: it keeps tasks in a directory tree, launches them at second 0 of the
minutes selected by three bit masks, records their exit codes and outputs, and answers the client
`tadmor` over a binary protocol. This project models its five cores and proves properties of them.

- **Wire formats** (`Bytes`, `Commands`, `Serialization`, `Protocol`, `Transport`, `Layouts`). `Commands` and
  `Protocol` say what the bytes of a command tree, a request or a reply are; `Serialization` and
  `Transport` are the loops of the C code over a stream, and do exactly that. One well-formedness
  predicate, parameterised by the format, is the exact domain of every round trip. `Layouts` says where
  each field and each file stands, by position and apart from the encoders.
- **Timing masks** (`Text`, `Masks`, `TimingText`). The list parser, the run-length printer into its
  256-byte buffer, and the round trip between them.
- **Task store** (`Disk`, `Store`, `TaskTree`). Command trees as directories, the operations on the
  `tasks` directory, and their refinement of a plain map from ids to records.
- **Daemon** (`Daemon`, `Identifiers`, `Runs`, `Replies`). The requests as operations on that map, and properties
  of whole runs: identifiers, conservation of commands, what the client can read, what the replies tell
  about a task from its creation to its removal, and the request loop from arbitrary bytes to effects.
- **Executor** (`Buffers`, `Execution`, `Outputs`, `Pipeline`). Growable buffers, the evaluator against a
  reference semantics with an arbitrary environment, what is handed over compared with what the commands
  printed, and the descriptors and processes of a pipeline.
- **Scheduler** (`Scheduler`, `Slots`, `Launches`, `Selection`). The polling thread as a state machine, an
  invariant of every run, what the latch and the slots hold and keep back, which launches the runs make and
  miss, and what is launched in terms of the texts that the client typed.
- **Both together** (`Composition`). Requests, reloads and executions of the scheduler's copies, in any
  order: whose command's runs are recorded under an id.

`Instances` holds concrete inputs for the differences below.

Classes and methods with loops follow the C functions that update state; each is proved equal to a
function or relation on values, and the main theorems are lemmas about those.

## Where the code differs from what is said of it

Each of these but the last is proved below, with a concrete input and with the condition under which the
code does what is said of it. The condition is exact, except that the one for repeated identifiers is
sufficient; that second 1 catches up on nothing holds for every state and every such turn.

- `README.md:240` and `GUIDE_COMPLET_PROJET.md:845` say that ids are never reused. Over every run from
  an empty installation, an id is issued twice exactly when some step removes the largest live id,
  other than 0, and a later step creates a task (`Identifiers.ReuseIff`, `Identifiers.IdIssuedTwice`).
- The identifier of a minute counts every month for 30 days. The 31st of a month and the 1st of the
  next share it at the same time of day (`Scheduler.MinuteIdCollision`). Suppose a sample falls in second 0
  and the clock read again agrees with it. Then a due task is kept back in exactly two cases, over every
  run, reloads included (`Slots.KeptBackIff`): the sample before, taken in the window of two seconds, was
  for this very minute or for that time on the 31st, so that the latch blocks; or the launch that wrote
  the task's slot last was for that time on the 31st, or was made by the startup check for this very
  minute. Without a reload that launch is the task's own last one (`Slots.KeptBackByOwnLaunchIff`).
  `Launches.LatchLosesLaunch` and `Launches.DailyTaskSkipped` are runs that lose a launch in each way.
- So one identifier can be noted for two launches of a task: across any such pair of dates, with no reload,
  when another launch overwrote the slot in between (`Launches.RepeatedAcrossMonthEnd`,
  `Launches.HourlyTaskRepeatsIdentifier`), or after a reload that resets the slots
  (`Launches.IdentifierLaunchedTwice`). A clock that never shows the thread such a pair repeats none
  (`Launches.NoMonthEndNoRepeat`). What holds on every run is that no task is launched twice for the same
  minute that the thread sampled (`Scheduler.NoDoubleLaunch`).
- The scheduler executes copies. A copy is executed under its id until the next reload, also when that id
  was removed and issued again meanwhile. All recorded runs come from the tasks' own trees exactly if no
  copy is executed after its id was issued again since the last reload (`Composition.RunsAreOwnIff`,
  `Composition.RunUnderAnotherTask`).
- The decision to launch reads the clock again, but the launch is recorded for the sampled minute
  (`src/erraid.c:156-176`, `src/erraid.c:299-318`). Launches are for minutes that the masks select when
  every second reading in a second 0 agrees with the sample (`Launches.LaunchesAreDue`). For one check
  of the tasks no weaker condition would do (`Launches.StartupDueIff`, `Launches.StepDueIff`): otherwise
  a task can be launched for a minute it does not select, and twice at one moment
  (`Launches.LaunchedForAnUnselectedMinute`).
- The window of the check includes second 1 in order to catch up on a second 0 that was missed
  (`src/erraid.c:297-302`). It never does, because the decision to launch tests the second again: a turn at
  second 1 launches nothing and takes the minute for checked, unless the clock read again is in another minute
  (`Selection.SecondOneCatchesNothing`).
- `ARCHITECTURE.md:92` promises the exact output of a command. A trailing NUL is dropped when an
  output is handed over, once for the command and once more for each sequence around it. For all trees of
  sequences, single commands included, what is handed over is exactly what the commands printed in
  precisely those environments where no simple command prints a last NUL (`Outputs.ExactOutputIff`,
  `Outputs.LastNulLost`). About the nesting alone: the outputs are those of the single commands exactly
  where none of these still ends with a NUL (`Outputs.OutputsAreThoseOfTheLeavesIff`,
  `Outputs.NulsLostInSequence`).
- Below a sequence, pipelines and conditionals are run as sequences. A tree without any there is given its
  meaning in every environment (`Execution.ExecutorIsFaithful`). A tree with one is not, provided that
  every command can be started and every pipeline and conditional has a usable arity
  (`Execution.ExecutorIsFaithfulIff`, `Execution.ConditionalInSequence`); behind a command that can never be
  started, the difference is not reached (`Execution.UnreachedConditional`).
- COMBINE with the type SI succeeds, but the result cannot be loaded and the combined commands are
  lost (`Runs.CombineConserves`, `Runs.RunUsableIff`, `Instances.CombinedAsSimple`). A COMBINE that is
  answered with an error has still changed the store exactly if all ids are live and one is repeated
  (`Runs.FailedCombineChangesIff`, `Instances.CombinedWithItself`).
- The LIST format writes trees that its reader refuses or takes for others (`Commands.RoundTripIff`,
  `Instances.RefusedByTheListReader`, `Instances.MisreadByTheListReader`), and the daemon sends replies
  longer than the client accepts (`Protocol.ResponseRoundTrip`, `Instances.TooManyTasks`). For trees that
  requests can create only the number of tasks matters (`Runs.ListingIsReadable`).
- The bounds of a timing value are checked after a conversion to `int`, so `4294967296` is taken
  for minute 0 (`TimingText.ListAsPromisedIff`, `TimingText.LargeValueTakenForZero`).
- `ARCHITECTURE.md` says that the thread checks every second; the code samples the clock every 10 ms
  and the model leaves the distance between samples open.

## Model

| member | source | states |
|---|---|---|
| Bytes.ValueBE | src/serialization.c:26-66 | any integer that fits n bytes is what its n big-endian bytes stand for |
| Bytes.BEValue | src/serialization.c:74-134 | n bytes are the big-endian form of the one integer they are read as, which fits n bytes |
| Bytes.MostSignificantFirst | src/serialization.c:34-48 | the first byte written is the one with the highest weight |
| Bytes.ManyRoundTrip | src/protocol.c:268-270 | a list whose items are each read back is read back whole, in order, whatever follows |
| Bytes.ManyExtension | src/protocol.c:319-324 | reading n items does not depend on the bytes behind them, if reading one does not |
| Bytes.TruncationFails | src/protocol.c:285-342 | a format that reads back its encodings whatever follows, and ignores what follows, accepts no strict prefix of an encoding |
| Bytes.Stream.RobustRead | src/serialization.c:163-180 | delivers exactly the requested bytes however the reads are split, and fails exactly when the stream is shorter |
| Bytes.Stream.RobustWrite | src/serialization.c:142-160 | every byte is written, in order, however the writes are split |
| Commands.DocumentedExamples | ARCHITECTURE.md:106-122 | the two worked examples of the documentation, byte for byte |
| Commands.TimingRoundTrip | src/serialization.c:245-272 | a timing is read back and exactly what follows it is left |
| Commands.StringsRoundTrip | src/serialization.c:188-238 | NUL-free strings are read back and exactly what follows them is left |
| Commands.ArgumentsRoundTrip | src/serialization.c:279-353 | an argument list with a non-empty first argument is read back, others may be empty |
| Commands.RoundTrip | src/serialization.c:493-613 | in both formats, reading a well-formed tree followed by any suffix returns the tree and leaves exactly that suffix |
| Commands.DecodedIsWellFormed | src/protocol.c:490-590 | whatever bytes arrive, a tree that is accepted is well-formed: SI exactly for simple commands in the list format, at least one child otherwise, at most 10000 |
| Commands.RoundTripIff | src/protocol.c:458-590 | among all trees a writer accepts, exactly the well-formed ones are read back |
| Commands.WellFormedIsWritable | src/serialization.c:459-490 | every well-formed tree passes the checks of the writers |
| Commands.Extension | src/serialization.c:541-613 | a successful read is unaffected by bytes appended to the input and leaves them all |
| Commands.TruncationRejected | src/serialization.c:541-613 | no strict prefix of an encoded tree is accepted |
| Serialization.WriteArguments | src/serialization.c:279-301 | succeeds exactly on usable arguments and then appends exactly their encoding |
| Serialization.ReadArguments | src/serialization.c:304-353 | accepts and consumes exactly what the byte format says |
| Serialization.ReadString | src/serialization.c:211-238 | accepts and consumes exactly what the byte format says; the value ends at its first NUL |
| Serialization.WriteCommand | src/serialization.c:493-528 | succeeds exactly on the trees whose every node passes the layout check, and then appends exactly the encoding |
| Serialization.ReadCommand | src/serialization.c:541-613 | the reader that branches on the kind byte decides and consumes as the byte format says |
| Serialization.WriteCommandListFormat | src/protocol.c:458-481 | the writer that branches on argc accepts exactly the writable trees of the list format |
| Serialization.ReadCommandListFormat | src/protocol.c:490-590 | the reader that branches on the type decides and consumes as the byte format says |
| Protocol.RequestRoundTrip | src/protocol.c:247-342 | every request that can be sent is received unchanged, or refused exactly when it is a COMBINE without 1 to 10000 ids |
| Protocol.RequestExtension | src/protocol.c:285-342 | receiving a request does not depend on what is queued behind it |
| Protocol.QueueOfRequests | src/protocol.c:247-342 | any list of valid requests sent back to back is received as the same list in order, and a truncated last request is rejected |
| Protocol.ListingRoundTrip | src/protocol.c:356-367 | a listing is read back exactly when it has fewer than 10000 tasks and all its trees are well-formed |
| Protocol.HistoryRoundTrip | src/protocol.c:674-708 | a history is read back exactly up to 1000000 runs, negative timestamps included |
| Protocol.CapturedRoundTrip | src/protocol.c:709-734 | an output is read back exactly up to 100 MiB |
| Protocol.ReadTasksAreWellFormed | src/protocol.c:640-671 | every task the client accepts has a well-formed tree |
| Protocol.ResponseRoundTrip | src/protocol.c:346-391 | for all eight opcodes, a reply sent with the receiver's opcode is received unchanged exactly when it is within the receiver's limits |
| Protocol.ErrorRoundTrip | src/protocol.c:602-606 | an ERROR reply is understood whatever the opcodes of sender and receiver |
| Transport.SendRequest | src/protocol.c:247-282 | succeeds exactly on the sendable requests and then writes exactly their encoding |
| Transport.ReceiveRequest | src/protocol.c:285-342 | decides and consumes exactly as the byte format says |
| Transport.SendResponse | src/protocol.c:346-391 | with opcode_used set, writes exactly the encoding, and fails exactly on an unwritable tree or an output over 32 bits |
| Transport.ReceiveResponse | src/protocol.c:593-749 | decides and consumes exactly as the byte format and the client's limits say |
| Layouts.TwoLetters | include/protocol.h:12-31 | each code is its two ASCII letters |
| Layouts.TreeLayout | src/serialization.c:493-528 | every tree that is written has at each node the type, the kind in one format, the count, and its arguments or sub-trees |
| Layouts.RequestLayout | src/protocol.c:247-282 | every request has its letters and its fields at their positions |
| Layouts.ReplyLayout | src/protocol.c:346-391 | every reply has its letters and its fields at their positions, the runs of a history ten bytes each |
| Layouts.LimitsInNumbers | src/protocol.c:313-712 | 1 to 10000 ids, 1000000 runs and 104857600 bytes are the limits |
| Text.DecimalRoundTrip | src/erraid.c:54-64 | a printed number is numeric and stands for itself |
| Masks.SetBitSets | src/tadmor.c:115-117 | setting bit i sets it and changes no other bit |
| Masks.SetBitAdds | src/tadmor.c:115-117 | setting a bit that was clear adds its weight, setting it again changes nothing |
| Masks.BitMeaning | src/erraid.c:168-176 | bit i is the parity of the quotient by 2^i, what shifting and masking compute |
| Masks.OnesBits | src/tadmor.c:85-93 | 2^n - 1 has exactly the bits below n |
| Masks.SameBits | src/tadmor.c:85-122 | a mask below 2^n is determined by its n bits |
| TimingText.NextToken | src/tadmor.c:104-118 | the successive calls cut the text into its maximal pieces without a comma |
| TimingText.TokensConcat | src/tadmor.c:104-118 | the tokens of two texts with a comma between them are those of the first and then those of the second, so empty pieces give none |
| TimingText.OneToken | src/tadmor.c:104-118 | a non-empty text without a comma is one token |
| TimingText.ParseList | src/tadmor.c:81-122 | unless some token makes the code shift by a negative amount, which C leaves undefined, the mask holds exactly the values covered by some token, and parsing fails exactly when some token is malformed or above the maximum |
| TimingText.ParseMinutes | src/tadmor.c:126-128 | in the same way, the minutes are a list over 0 to 59 |
| TimingText.ParseHours | src/tadmor.c:132-137 | in the same way, the hours are a list over 0 to 23 |
| TimingText.ParseDays | src/tadmor.c:141-146 | in the same way, the days are a list over 0 to 6 |
| TimingText.ParseIsUnique | src/tadmor.c:81-122 | that statement determines the outcome |
| TimingText.ListMeaning | src/tadmor.c:42-122 | on a list of unsigned values and increasing ranges, the outcome that ParseList promises is the union of the converted ranges, or a failure exactly if one does not fit a long or its converted bounds exceed the maximum; what the code computes where a bound converts to a negative int is undefined |
| TimingText.ListAsPromisedIff | src/tadmor.c:42-122 | the result is the union of the ranges, or a failure if any exceeds the maximum, exactly when no range exceeds it or some range is not accepted |
| TimingText.RangeParses | src/tadmor.c:42-77 | what a printed value or range is parsed as, for all bounds, including those that overflow long or int |
| TimingText.ValueAccepted | src/tadmor.c:63-74 | the exact condition under which a decimal value passes the range check |
| TimingText.LargeValueTakenForZero | src/tadmor.c:72-73 | the value 4294967296 passes for minute 0 |
| TimingText.StarAndDash | src/tadmor.c:85-93 | `*` is 60, 24 or 7 ones, and `-` is 0 |
| TimingText.DecreasingRefused | src/tadmor.c:42-60 | a range that decreases is refused, whatever its bounds and the maximum |
| TimingText.LeadingSpaceAndSign | src/tadmor.c:47-65 | a space and a sign in front of a number are accepted |
| TimingText.NothingFollows | src/tadmor.c:47-65 | a number with something behind it is refused |
| TimingText.NoDigits | src/tadmor.c:47-65 | the empty text is taken for 0, and other texts without a digit are refused |
| TimingText.SignIsARange | src/tadmor.c:42-60 | the token "-7" is the range from 0 to 7, and "7-" is refused |
| TimingText.RunsBound | src/tadmor.c:411-430 | the text of the runs in n positions needs at most 2n + 2 characters |
| TimingText.DisplayFits | src/tadmor.c:522-523 | the text of every timing has at most 190 characters |
| TimingText.FormatTimingDisplay | src/tadmor.c:396-491 | every timing is printed with its NUL inside the caller's 256 bytes, and one within 60, 24 and 7 bits as three texts without spaces that read back as its minutes, its hours and its days, in this order, and as nothing else |
| TimingText.RunsCover | src/tadmor.c:413-428 | the printed runs cover exactly the set bits |
| TimingText.FieldRoundTrip | src/tadmor.c:396-491 | parsing a printed field, `*` and `-` included, gives the mask back and nothing else |
| TimingText.TimingRoundTrip | src/tadmor.c:124-146 | for masks within 60, 24 and 7 bits, the three printed fields are parsed as the three masks |
| TimingText.ShowsOne | src/tadmor.c:396-491 | a displayed text shows one timing only: two timings within the widths of the fields that look alike are the same |
| TimingText.OneRunShown | src/tadmor.c:411-430 | a mask with one run of values is printed as that range, and as the value alone if it is one |
| TimingText.OneValueShown | src/tadmor.c:411-430 | a power of two is printed as its exponent |
| TimingText.HalfPastTwo | src/tadmor.c:396-491 | minute 30 of hour 2 on every day is printed as `30 2 *` |
| Disk.SaveCommandToDir | src/task_tree.c:254-319 | writes into a directory exactly what the specification says, and fails exactly where it does |
| Disk.ScanMax | src/task_tree.c:175-199 | the running maximum over the entries does not depend on the order in which they are listed |
| Disk.LoadCommandFromDir | src/task_tree.c:104-252 | for every order of the scan, the loader returns the tree the directory stands for, or fails |
| Disk.SavedChildren | src/task_tree.c:304-316 | after saving, each numbered entry holds its own sub-command and every other entry is as before |
| Disk.SaveSucceeds | src/task_tree.c:254-319 | into a fresh directory, saving succeeds exactly on trees whose SI nodes have usable arguments |
| Disk.CountNumbered | src/task_tree.c:202-203 | entries numbered from 0 to n-1 are counted as n |
| Disk.NothingToLoad | src/task_tree.c:202-234 | without numbered entries the loader counts one child, looks for entry 0 and fails |
| Disk.SaveLoadRoundTrip | src/task_tree.c:104-319 | a tree saved into a fresh directory is loaded back exactly when it is well-formed |
| Disk.OtherEntriesIgnored | src/task_tree.c:184-194 | entries such as `nbcmds`, neither numeric nor read by name, change nothing |
| Layouts.SavedLayout | src/task_tree.c:254-319 | a saved command is the file `type` and either the file `argv` or one numbered directory for each sub-command, and nothing else |
| Layouts.TaskLayout | src/task_tree.c:381-424 | a new task is the file `timing` and the directory `cmd`, and the other tasks stay as they are |
| Layouts.RunFiles | src/task_tree.c:437-489 | a run leaves its output in `stdout`, its error output in `stderr`, and ten bytes more in `times-exitcodes` |
| Store.UpdateTask | src/task_tree.c:381-424 | writing one task directory changes one record of the map |
| Store.DeleteTask | src/task_tree.c:733-742 | deleting one task directory deletes one record of the map |
| Store.ScannedMax | src/task_tree.c:692-706 | the largest numeric name is the largest live id |
| Store.NextIdIsFresh | src/task_tree.c:673-710 | once the directory exists, and unless the counter overflows, the next id is above every live id |
| Store.AppendedLog | src/task_tree.c:437-455 | appending an entry behind whole entries appends it to the history |
| Store.LogRoundTrip | src/task_tree.c:529-578 | any appended pairs are read back in order, negative timestamps included, and an incomplete last entry is dropped |
| TaskTree.TaskStore.TaskExists | src/erraid.c:527-528 | answers exactly whether the id is live |
| TaskTree.TaskStore.LoadTaskFromDir | src/task_tree.c:322-378 | returns the record of a live usable task and fails for every other id |
| TaskTree.TaskStore.SaveTaskToDir | src/task_tree.c:381-424 | when it succeeds and what it then leaves, for every task and every earlier contents; a well-formed task under a free id becomes that record of the map, and no other record changes |
| TaskTree.TaskStore.GenerateTaskId | src/task_tree.c:673-710 | the id is 0 when the directory was missing, which is then created, and the largest live id plus 1 modulo 2^64 otherwise |
| TaskTree.TaskStore.RemoveTask | src/task_tree.c:714-755 | removes exactly the given task and fails exactly when it is not live |
| TaskTree.TaskStore.CopyTrees | src/task_tree.c:855-889 | the new command directory holds the trees of the listed tasks, numbered in request order |
| TaskTree.TaskStore.RemoveAll | src/task_tree.c:891-899 | removes the listed tasks up to the first repetition, and fails exactly if there is one |
| TaskTree.TaskStore.CombineTasks | src/task_tree.c:759-902 | the new state of the map for every list of ids, live or not, repeated or not, and every type |
| TaskTree.CombinedLoads | src/task_tree.c:855-889 | loading the combined directory gives the node with the given type and the trees in request order |
| TaskTree.TaskStore.AppendExecutionLog | src/task_tree.c:437-455 | appends the ten bytes of one entry to the log of that task only |
| TaskTree.TaskStore.RecordRun | src/erraid.c:458-468 | appends the run to the history of a live task and replaces its outputs; a task removed meanwhile stays removed |
| TaskTree.LogStep | src/task_tree.c:533-548 | when the two reads of one turn succeed, and what they leave |
| TaskTree.LogCases | src/task_tree.c:529-578 | a log of whole pairs and some bytes more is read as those pairs if there are 0 or 8 more; otherwise that depends on a stale errno |
| TaskTree.ReadLogEntries | src/task_tree.c:517-590 | the loop with doubling arrays returns exactly the whole entries in order, and the exact condition under which it fails |
| TaskTree.TaskStore.ReadExecutionLogs | src/task_tree.c:493-591 | returns exactly the history of the task, whatever errno held before |
| TaskTree.TaskStore.ReadStream | src/task_tree.c:593-656 | returns the last recorded output, or reports a missing file exactly for a task without one |
| TaskTree.TaskStore.LoadAllTasks | src/erraid.c:74-141 | returns exactly the usable tasks, each once, whatever the order of the directory |
| Buffers.Buffer.Reserve | src/execution.c:30-45 | the contents stay, the capacity is enough, is the old one or its first sufficient doubling, and is always 0 or a power of two from 1024 on |
| Buffers.Buffer.Append | src/execution.c:47-58 | the bytes are appended, and a non-empty buffer keeps len < cap and data[len] = 0 |
| Buffers.Buffer.MoveToOutput | src/execution.c:100-115 | the output is the contents minus exactly one trailing NUL if present, and the buffer is empty again |
| Buffers.ReadIntoBuffer | src/execution.c:60-72 | however the input is split into reads, its bytes are appended in order |
| Buffers.CapacityAfter | src/execution.c:34-37 | the 64-bit capacity after n turns of the doubling loop |
| Buffers.DoublingTerminates | src/execution.c:34-37 | the doubling loop in 64-bit arithmetic ends exactly for requests of at most 2^63 |
| Buffers.DoublingIsExact | src/execution.c:34-37 | up to there, 64-bit doubling gives what unbounded doubling gives |
| Execution.Executor.ExecuteSimple | src/execution.c:118-265 | the captured outputs, the exit code and the start of a simple command, as the reference semantics has them |
| Execution.Executor.ExecuteSequence | src/execution.c:268-356 | a sequence is evaluated as the tree where every combination below it is a sequence: outputs, last exit code, order of starts, first error |
| Execution.Executor.ExecuteConditional | src/execution.c:565-670 | evaluates the normalised tree: condition, then the branch its exit code selects |
| Execution.Executor.Dispatch | src/erraid.c:420-447 | executing any tree in any environment equals the reference evaluation of its normal form |
| Execution.CaptureOutput | src/execution.c:185-240 | what is read from a pipe and handed over is its bytes minus one trailing NUL |
| Execution.FlattenIdentity | src/execution.c:303-310 | flattening changes a tree exactly when it contains a pipeline or a conditional |
| Execution.NormaliseIdentity | src/execution.c:589-603 | normalising changes a tree exactly when it has a pipeline or a conditional below a sequence |
| Execution.NormaliseIdempotent | src/execution.c:589-603 | normalising twice is normalising once |
| Execution.SteadyRun | src/execution.c:268-356 | with commands that all succeed, or all fail, how many are started and what the tree exits with |
| Execution.FlattenCounts | src/execution.c:304-306 | with failing commands, flattening a pipeline or a conditional strictly increases what is started |
| Execution.ExecutorIsFaithfulIff | src/execution.c:304-306 | for trees whose every command can be started and whose pipelines and conditionals have a usable arity, the executor gives the tree its meaning in every environment exactly when there is no pipeline and no conditional below a sequence |
| Execution.ExecutorIsFaithful | src/execution.c:304-306 | every tree without a pipeline or conditional below a sequence is given its meaning in every environment |
| Execution.ConditionalInSequence | src/execution.c:304-306 | "if a then b" inside a sequence starts b although a failed |
| Execution.UnreachedConditional | src/execution.c:83-88 | a tree that is stored, has a conditional below a sequence, and is still executed as its meaning, because a command before it can never be started |
| Outputs.ExactOutputIff | ARCHITECTURE.md:92 | for all trees of sequences, single commands included, the outputs, exit code and order are exactly those of the commands as they printed them, in precisely the environments where no simple command prints a last NUL |
| Outputs.LastNulLost | src/execution.c:105-110 | a command that prints "a" and a NUL is recorded as "a" |
| Outputs.SequencesRunTheirLeaves | src/execution.c:268-356 | where no captured output ends with a NUL, the outputs of a tree of sequences are those of its leaves, concatenated |
| Outputs.SequencesStartTheirLeaves | src/execution.c:268-356 | in every environment, a tree of sequences, however deep, starts exactly its leaves from left to right, stops at the first that fails to start, and ends with the last exit code |
| Outputs.OutputsAreThoseOfTheLeavesIff | src/execution.c:320-345 | about nesting: the outputs of all trees of sequences are those handed over by their single commands exactly in the environments where none of these still ends with a NUL |
| Outputs.NulsLostInSequence | src/execution.c:105-110 | a command that prints "a" and two NULs loses one of them alone and both inside a sequence |
| Outputs.ReplayConcat | src/execution.c:288-338 | running two lists of leaves one after the other is running their concatenation |
| Outputs.StartsItsLeaves | src/execution.c:268-472 | where each start succeeds, a tree of sequences and pipelines whose commands can be started starts exactly its leaves from left to right, every stage of every pipeline included |
| Outputs.FlattenKeepsLeaves | src/execution.c:303-310 | flattening keeps the leaves of a tree and their order |
| Outputs.ExecutorStartsItsLeaves | src/execution.c:268-472 | where each start succeeds, the executor starts every leaf of a tree of such commands in order, unless the tree itself is a conditional |
| Outputs.ConditionalStarts | src/execution.c:565-670 | where each start succeeds, a conditional whose parts are not conditionals starts the leaves of its condition, then those of the first branch for the exit code 0 and of the second, if any, for any other, and ends as what was run last |
| Outputs.PipelineRun | src/execution.c:358-563 | a pipeline of two commands or more is started once with exactly its sub-commands, and ends with the exit code and the output of that start minus one NUL, and no error output |
| Outputs.SimpleRun | src/execution.c:118-265 | a simple command is started once with its whole argument list, and hands over both outputs of that start minus one NUL each |
| Outputs.NotStarted | src/execution.c:75-98 | an empty list of arguments, an empty argument, and a pipeline of one command are an error and start nothing |
| Pipeline.OpenPipes | src/execution.c:384-396 | either all pipes are open on distinct new descriptors, or every descriptor obtained is closed once and the table is as before |
| Pipeline.ClosePairs | src/execution.c:426-429 | closes both ends of the first k pipes once and leaves the original table |
| Pipeline.CloseInParent | src/execution.c:480-486 | which descriptors the parent closes after forking, and what it keeps |
| Pipeline.ParentClosesWhich | src/execution.c:480-486 | these are all the write ends and all the read ends but the last |
| Pipeline.ParentClosesDistinct | src/execution.c:480-486 | none of them is closed twice |
| Pipeline.ParentKeeps | src/execution.c:488-489 | the one descriptor kept is exactly the last read end |
| Pipeline.ClosedEverything | src/execution.c:480-512 | with the last read end, every descriptor is closed exactly once and the original table is left |
| Pipeline.StageWired | src/execution.c:441-458 | a stage reads the pipe before it and writes the pipe behind it, and holds no other end |
| Pipeline.SetupIsWired | src/execution.c:410-489 | after setup the only holder of the write end of pipe i is child i, and only child i+1 and, for the last pipe, the parent can read it |
| Pipeline.WaitAll | src/execution.c:517-524 | waits exactly once for each forked child |
| Pipeline.ExecutePipeline | src/execution.c:358-563 | on every path, with failures of pipe, fork and read anywhere, each descriptor is closed once, the table is restored and each forked child is waited for once; if the descriptors 0 and 1 were open, the pipes are wired when the parent starts to read |
| Daemon.Erraid.HandleRequest | src/erraid.c:505-672 | every request changes the tasks as the plain map says, and its reply is the one that map entitles the client to |
| Daemon.Erraid.HandleCreate | src/erraid.c:600-637 | a valid CREATE adds exactly one record under the next id and returns it |
| Daemon.Erraid.HandleOutput | src/erraid.c:555-592 | NOT_FOUND, NOT_RUN or the last output, exactly as the map says |
| Daemon.Erraid.ExecuteTask | src/erraid.c:403-474 | runs the normal form of the tree and records its exit code and outputs under the given time, unless it could not be started |
| Daemon.RunCoherent | src/erraid.c:455-468 | over every run, a task has an empty history exactly when it has no recorded output |
| Daemon.NotRunExactly | src/erraid.c:570-583 | after any run, NOT_RUN is answered exactly for live tasks with an empty history |
| Replies.LifeOfTask | src/erraid.c:505-637 | from the reply to CREATE on, over any steps of which no request concerns the id: the task is listed exactly once, with its timing, type SI and all its arguments; TIMES gives exactly its runs, in order; STDOUT and STDERR give the two outputs of the last run, or NOT_RUN before the first |
| Replies.CreateReply | src/erraid.c:600-637 | CREATE succeeds exactly on a list whose first argument is not empty; otherwise it is NOT_FOUND and nothing changes |
| Replies.CreatedIsExecuted | src/erraid.c:403-474 | executing the tree that is listed for a created task starts its command once, with all its arguments |
| Replies.RunIsReported | src/erraid.c:455-592 | after a run of a live task, and any steps that do not concern it, STDOUT gives the output of that run, STDERR its error output, and TIMES ends with its time and exit code |
| Replies.SimpleRunIsReported | src/erraid.c:403-592 | for a simple command these are the two outputs of its process minus one NUL each, and its exit code |
| Replies.FailedRunChangesNothing | src/erraid.c:446-456 | a run that could not be started leaves no trace in the store |
| Replies.RecordAlong | src/erraid.c:455-468 | along any such steps the timing and the tree of a task stay and its history grows by exactly its runs |
| Replies.UnknownTask | src/erraid.c:527-592 | TIMES, STDOUT, STDERR and REMOVE for an id that is not live are answered with the four bytes "ERNF" |
| Replies.ErrorBytes | include/protocol.h:25-31 | the two error replies are the bytes "ERNF" and "ERNR" |
| Replies.CombineReply | src/erraid.c:652-667 | COMBINE succeeds exactly on a non-empty list of distinct live ids |
| Replies.CombineThenList | src/erraid.c:652-667 | the id in the reply is listed once, with the given timing and type, no arguments, and the trees of the listed tasks in the order of the request, as long as no request concerns it |
| Replies.CombinedAreGone | src/task_tree.c:891-899 | after a successful COMBINE no listed id is in a listing, and every other task is listed as before |
| Replies.GoneOnceRemoved | src/erraid.c:638-651 | REMOVE succeeds exactly on a live task; from then on, until a request issues the id again, the task is not listed and everything asked about it is NOT_FOUND, a second REMOVE too |
| Replies.CreatedIdIsIssued | src/erraid.c:632-664 | the id in a reply to CREATE or COMBINE is the one that was issued to the new task |
| Replies.LaterIdIsLarger | README.md:240 | over every run from an empty installation, a later reply carries a larger id, unless the largest live id, other than 0, is removed before a later creation |
| Identifiers.ReuseIff | README.md:240 | over every run from an empty installation, an id is issued twice exactly when some step removes the largest live id, other than 0, and a later step creates a task; otherwise the tasks are numbered 0, 1, 2 and so on |
| Identifiers.IssuedAgain | src/task_tree.c:692-709 | such a run numbers its tasks consecutively until it issues an id that was issued before |
| Identifiers.IssuedInOrder | src/task_tree.c:692-709 | any other run numbers its tasks consecutively |
| Identifiers.RoomForAll | src/task_tree.c:709 | a run finds room in the 64-bit counter at every step if the live ids leave room for as many tasks as there are steps |
| Identifiers.IssuedAbove | src/task_tree.c:673-710 | from any store, a run that never removes the maximum issues strictly increasing ids above the live ones |
| Identifiers.StepReaches | src/task_tree.c:673-710 | from any store, unless the maximum is removed, the next id is above every id reached so far |
| Identifiers.IdsIncrease | src/task_tree.c:673-710 | over every run from an empty installation, the issued ids strictly increase exactly when no step removes the largest live id, other than 0, before a later creation |
| Identifiers.ReissueIff | src/task_tree.c:708-709 | one step: after a REMOVE of the maximum m, the next id is not above m exactly when m is not 0 |
| Identifiers.IdIssuedTwice | README.md:240 | CREATE, CREATE, REMOVE 1, CREATE issues the id 1 twice |
| Runs.LeavesWithout | src/task_tree.c:714-755 | the simple commands of the store are those of one task and those of the others |
| Runs.CombineConserves | src/task_tree.c:759-902 | COMBINE of distinct live ids leaves the old ids minus the consumed ones plus one fresh id, with the trees in request order, and conserves the multiset of simple commands, exactly when the type is not SI |
| Runs.FailedCombineChangesIff | src/task_tree.c:891-899 | a COMBINE that is answered with an error has still changed the store exactly if all listed ids are live and one is repeated |
| Runs.StepUsable | src/task_tree.c:817-834 | one step keeps every stored task loadable exactly if it does not combine with the type SI |
| Runs.RunUsableIff | src/task_tree.c:817-834 | over every run from an empty installation, every stored task is loadable at every moment exactly if no step combines with the type SI |
| Runs.OthersUntouched | src/erraid.c:505-672 | a request or an execution leaves every task it does not concern exactly as it was |
| Runs.RunListable | src/erraid.c:600-667 | over every run of accepted requests, each loadable tree is well-formed for the LIST format |
| Runs.ListingIsReadable | src/protocol.c:631-673 | after any run, a listing reaches the client intact exactly when it has fewer than 10000 tasks |
| Runs.ClientSeesAnswer | src/erraid.c:714-722 | the client, which decodes by the code it sent, recovers every reply within its limits |
| Runs.QueueFront | src/erraid.c:770-781 | the front of the queue is received as the first queued request and nothing else is consumed, whatever bytes follow the queue |
| Runs.DaemonLoop | src/erraid.c:737-789 | on any bytes, only valid requests are served, each gets its answer and the store refines the map; requests in front are served first and in order, up to the first TERMINATE or the millionth turn |
| Runs.HandleNext | src/erraid.c:477-493 | bytes that are no request change nothing and get no reply; a request is consumed exactly and answered |
| Runs.FreshDaemon | src/erraid.c:737-789 | the same from an empty installation, with no assumption about the id counter |
| Runs.ServedMeaning | src/erraid.c:737-789 | all requests in front are served unless the limit is reached or TERMINATE was served last, and it was not served before |
| Runs.ReceivedIsAcceptable | src/protocol.c:285-342 | whatever bytes arrive, a received request has usable arguments or 1 to 10000 ids |
| Scheduler.MinuteIdCollision | src/erraid.c:311-316 | two identifiers are equal exactly for equal minutes, or the 31st and the 1st of the next month at the same time in one year |
| Scheduler.MinuteIdFits | src/erraid.c:214-219 | identifiers are positive and fit an int |
| Scheduler.SchedulerThread.Start | src/erraid.c:182-231 | the preload and the immediate check do what the state machine says |
| Scheduler.SchedulerThread.ReloadTasks | src/erraid.c:260-294 | the tasks and the slot array after a reload, in every case |
| Scheduler.SchedulerThread.VisitSlots | src/erraid.c:326-355 | the loop over the tasks launches and notes what the state machine says |
| Scheduler.SchedulerThread.Loop | src/erraid.c:247-372 | the thread refines the run of the state machine and ends after a million turns |
| Scheduler.VisitResult | src/erraid.c:326-355 | one visit appends its launches and notes each of them in its own slot, leaving the other slots |
| Scheduler.NewLaunchesIff | src/erraid.c:326-332 | exactly the slots that pass the stop, slot and clock tests launch |
| Scheduler.TimePasses | src/erraid.c:252-294 | the passage of time and a reload, which never happens at second 0, keep past launches guarded |
| Scheduler.StepGood | src/erraid.c:251-372 | every turn of the loop keeps the invariant that ties latch, slots and reloads together |
| Scheduler.StartupGood | src/erraid.c:182-231 | the startup check establishes that invariant |
| Scheduler.RunGood | src/erraid.c:247-372 | after every run the invariant holds at the last sample taken |
| Scheduler.NoDoubleLaunch | src/erraid.c:195-372 | over every run with a clock that does not go back, no task is launched twice for one sampled minute, and the exact condition under which two launches of a task carry the same identifier |
| Scheduler.CheckLaunchesExactly | src/erraid.c:299-357 | at second 0 exactly the cached tasks whose three bits are set are launched, except those whose slot, or all if the latch, holds the identifier |
| Scheduler.EmptyMaskNeverLaunched | src/erraid.c:152-178 | a task with an all-zero mask is launched on no run, whatever the clock does |
| Slots.OwnerIsLastLaunch | src/erraid.c:326-353 | over every run without a reload, the launch that wrote a slot last is the last launch of its own task |
| Slots.KeptBackIff | src/erraid.c:321-330 | over every run, reloads included, at a second 0 with stable readings, a due task is kept back exactly if the sample before it blocks by the latch, being of this minute or of the 31st while this is the 1st of the next month at the same time, or if the launch that wrote its slot last blocks, being of the 31st in that way or the startup launch for this minute |
| Slots.KeptBackByOwnLaunchIff | src/erraid.c:321-330 | without a reload, the launch in question is the last launch of the task itself |
| Slots.RunLatch | src/erraid.c:320-364 | after every run the latch holds the identifier of the last sample if that fell in the window, and -1 otherwise |
| Slots.SlotIsOwned | src/erraid.c:260-294 | over every run, a slot holds the identifier of the launch that wrote it last since the slots were last reset, or -1 |
| Slots.SlotBlocksOnlyAtMonthEnd | src/erraid.c:326-330 | over every run, reloads included, a slot holds the identifier of a minute that the latch does not hold exactly if the launch that wrote it last was on the 31st and this is the 1st of the next month at the same time |
| Launches.LaunchesAreDue | src/erraid.c:152-178 | over every run in which each second reading in a second 0 agrees with the sample, every launch is for a minute, hour and weekday that the masks of its task select |
| Launches.StartupDueIff | src/erraid.c:205-231 | for the startup check, that agreement is necessary and sufficient over all lists of tasks |
| Launches.StepDueIff | src/erraid.c:299-357 | for a turn of the loop, that agreement is necessary and sufficient over all lists of tasks |
| Launches.LaunchedForAnUnselectedMinute | src/erraid.c:156-166 | a task for 12:01 only is launched twice at 12:01:00, the first time for 12:00 |
| Launches.DailyTaskSkipped | src/erraid.c:311-330 | a task due every midnight that ran on January 31st is not launched on February 1st |
| Launches.LatchLosesLaunch | src/erraid.c:320-322 | a task for Saturdays at midnight, never launched before, is not launched on Saturday, February 1st, because the latch still holds the identifier of January 31st |
| Launches.RepeatedAcrossMonthEnd | src/erraid.c:326-353 | without a reload, a task that is due at a time on a 31st, at any minute after it, and at the same time on the 1st is launched three times, the first and the last under one identifier |
| Launches.NoMonthEndNoRepeat | src/erraid.c:311-330 | a run whose clock never shows the thread both a time on a 31st and the same time on the 1st after it launches no task twice under one identifier, whatever is loaded and reloaded |
| Launches.HourlyTaskRepeatsIdentifier | src/erraid.c:350-353 | without a reload, an hourly task is launched on January 31st and on February 1st at midnight with the same identifier |
| Launches.IdentifierLaunchedTwice | src/erraid.c:275-288 | with a reload that changes the number of tasks in between, both launches carry the same identifier |
| Launches.IdleRun | src/erraid.c:358-364 | turns past the window, without a reload, only count |
| Selection.LaunchedIffSelected | src/erraid.c:152-178 | at second 0 with stable readings, and with the latch and its slot free, a task is launched exactly if its three texts select the minute, the hour and the day of the week: `*` all, `-` none, else the values of the list |
| Selection.RunLaunchesSelected | src/erraid.c:299-357 | over every run, reloads included, a task is launched at such a second 0 exactly if its texts select the time and neither the latch nor its slot blocks |
| Selection.StartupLaunchesSelected | src/erraid.c:205-231 | the startup check at second 0 launches exactly the tasks whose texts select the time |
| Selection.SecondOneCatchesNothing | src/erraid.c:297-302 | a turn at second 1 launches nothing, and takes the minute for checked |
| Selection.TurnRefreshes | src/erraid.c:260-294 | until the request to stop is seen, the tasks are read again in every 6000th turn that is not in second 0, and a reading that fails leaves none |
| Selection.RunRefreshes | src/erraid.c:260-294 | which tasks are cached after any run of at most a million turns that nobody stops |
| Selection.SlotsAfterReload | src/erraid.c:275-293 | a reload keeps the slots when the number of tasks is the same or the reading fails, and sets all to -1 otherwise |
| Selection.LaunchCarriesSample | src/erraid.c:299-318 | each launch of a turn carries second 0 of the sampled minute and the identifier of that minute |
| Selection.LaunchesAtSecondZero | src/erraid.c:299-318 | over every run, each launch carries a timestamp in second 0 |
| Selection.StopEndsLaunches | src/erraid.c:326 | once the request to stop is seen, no later slot is launched and no later turn is made |
| Selection.RunIsBounded | src/erraid.c:247-251 | the thread makes at most a million turns, and one for each sample until then |
| Selection.FailedReloadLaunchesNothing | src/erraid.c:265-293 | after a reload that fails, nothing is launched until the next reload |
| Composition.RunsAreOwnIff | src/erraid.c:257-294 | over every run of requests, reloads and executions from an empty installation, all recorded runs of all live tasks come from their own trees at every moment, exactly if no copy is executed after its id was issued again since the last reload |
| Composition.RunTraced | src/erraid.c:265-275 | over every run, a copy of a live id is out of date exactly if some request issued that id since the last reload |
| Composition.RunSound | src/erraid.c:458-468 | over every run, a copy of a task that is still the live one has the tree that the store holds |
| Composition.OwnTreeExecuted | src/erraid.c:403-474 | any other recorded execution is of the tree that the store holds under that id |
| Composition.RunUnderAnotherTask | src/erraid.c:332-346 | CREATE a, CREATE b, a reload, REMOVE 1, CREATE a: the next run of the copy of b is recorded for the new task 1 |
| Instances.CombinedAsSimple | src/task_tree.c:817-834 | CREATE, then COMBINE of that task with the type SI: a success, and the only command is gone |
| Instances.CombinedWithItself | src/task_tree.c:891-899 | COMBINE of a task with itself: an error, although the task is gone and a new one holds its command twice |
| Instances.RefusedByTheListReader | src/protocol.c:458-535 | a node with arguments and the type SQ is written, and the reader refuses it |
| Instances.MisreadByTheListReader | src/protocol.c:458-523 | a node of type SI with a sub-command is written, and the reader takes it for a simple command and leaves bytes unread |
| Instances.TooManyTasks | src/protocol.c:640-673 | a listing of 10000 tasks is sent, and the client refuses it |

## Left out

- FIFO creation, opening and retries, `select` timeouts, signals, start-up, option parsing and the display of replies: plumbing around the modelled functions. The iteration limit of `Runs.DaemonLoop` therefore counts arrivals only, where the code also counts timeouts.
- Real processes: what a command prints and returns is an arbitrary function of the command and of everything started before it. What text a pipeline captures is not claimed; only its descriptors and processes are. Its stages must be simple commands in the code; the environment answers for the others too.
- Pipeline.ExecutePipeline: the wiring is stated for a parent with its descriptors 0 and 1 open, so that a pipe never gets those numbers; the SIGTERM sent to children before they are waited for, and a `waitpid` that fails for another reason than an interruption, are not modelled.
- Pipeline.SetupIsWired: the same condition on the descriptors 0 and 1.
- Pipeline.StageWired: the same condition on the descriptors 0 and 1.
- Concurrency between the request loop, the scheduler and the threads that execute tasks: each request, each reload and each recorded execution is one step. Cached tasks shared with detached threads are copied into the launch, and the copies of `Composition` are those of the last reload.
- Daylight saving, a clock that goes back, and years after 5984: the local time fields are a function of a clock that does not go back.
- Scheduler.SchedulerThread.VisitSlots: a `pthread_create` or `malloc` that fails after the decision to launch, and the execution of the launched task itself, which is `Daemon.Erraid.ExecuteTask`.
- The branch of `send_response` that guesses the kind of reply when `opcode_used` is unset (`src/protocol.c:393-436`): the daemon always sets it on success.
- Allocation failures, path-length checks, debug logging, `src/client.c`, and the functions that free memory.
- The printing of command lines (`src/tadmor.c:148-393`): nothing parses it back.
- Short reads in the fixed-size integer readers, and I/O errors other than end of file: a stream is the bytes still to be read.
- Daemon.Erraid.HandleRequest: assumes that no live id is 2^64 - 1, where the id counter wraps and a new task would reuse a live directory or the id 0; no run of fewer than 2^64 steps from an empty installation gets there (`Identifiers.StartHasRoom`). The counts of a request fit the 32 bits of their C fields.
- Daemon.Erraid.HandleCreate: the same assumption on the counter.
- Runs.DaemonLoop: the live ids leave room for a million more; `Runs.FreshDaemon` has no such assumption. How many bytes a malformed request consumes is left open.
- Runs.HandleNext: the same assumption on the counter as `Daemon.Erraid.HandleRequest`.
- Replies.CombinedAreGone: the same assumption on the counter.
- Outputs.StartsItsLeaves: a stage that is itself a combination is counted with its leaves; in the code its process is forked and ends with 127.
- TaskTree.TaskStore.CombineTasks: the same assumption on the counter; the states between the creation of the new task and the last removal are not visible steps.
- TaskTree.TaskStore.SaveTaskToDir: what a failed save leaves in the directory is not described, because a fresh directory and a well-formed task never fail.
- Names in the `tasks` directory that the daemon does not write (leading zeros, files, incomplete tasks): the invariant of the store has canonical numerals naming complete task directories.
- TaskTree.ReadLogEntries: the test of a stale `errno` is a parameter; logs of more than 2^32 entries, whose 32-bit count wraps, are not modelled.
- TimingText.ParseList: for a bound that becomes negative in the conversion to `int`, where the code shifts by a negative amount, the outcome is arbitrary. Spaces, signs and empty numbers are modelled as `strtol` reads them.
- Execution.ExecutorIsFaithfulIff: for trees with a command that can never be started, or a pipeline or conditional of another arity, only one direction is stated (`Execution.ExecutorIsFaithful`).
- Buffers.Buffer.Reserve: sizes are unbounded there; what 64-bit arithmetic changes is `Buffers.DoublingTerminates` and `Buffers.DoublingIsExact`.
- The file system is a tree of values: no links, permissions or aliasing, and a write to a file that is not a directory succeeds.
- A listing, history or tree whose count does not fit the 32-bit field it is sent in.
