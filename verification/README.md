# A verified model of r2sql's hard parts

r2sql answers SQL queries about a binary by sending commands to radare2 and turning the
replies into tables. This Dafny project models the parts of it whose correctness is not
obvious from reading one function, and proves what they promise.

**The command queue of the MCP server** (`McpState`, `McpInvariant`, `McpSafety`,
`McpStopped`, `McpProgress`, `McpFairness`, `McpServer`, `McpThreads`). Any number of client threads call
`queue_and_wait`, one drainer runs `run_until_stopped`, and any number of threads,
the drainer among them, call `stop`. `McpState` is a transition system with one step for
each critical section and for each read that takes no lock. Which thread moves, whether a
deadline has passed, whether the interrupt check fires and what the query callback returns
or throws are all chosen by the environment, so a statement about all runs is a statement
about all schedules and all callbacks. `McpServer` has the mutable object, with one method
for each of these blocks of code, and each method is proved to perform its step;
`McpThreads` composes them into `queue_and_wait`, `stop` and `run_until_stopped`, with any
number of steps of the other threads between two blocks. The fields `places`, `admitted`, `popped` and `log` of a state are history: no step looks at
them. A state in which something is claimed "from `Inv(s)`" is any state of the inductive
invariant, which every reachable state satisfies (`ReachableInv`).

**The LIKE matcher and the grep table** (`Like`, `Grep`, `RowCursor`). The matcher is a
greedy loop that backtracks to the last `%` only. `Greedy` says exactly what it computes
for every text and pattern, `LikeHolds` is the meaning of LIKE in section 8.5 of
ISO/IEC 9075-2:2003, and the two agree exactly as far as `AgreesOnTextIff` and
`AgreesOnPatternIff` say. The comment at src/lib/src/tables_grep.cpp:89 promises LIKE for
all strings; the code does not keep that for a `%` in the text, because the literal test at
line 95 comes before the test for `%` at line 98. The model follows the code.

**Codecs and parsers** (`Base64`, `HexAddresses`, `Commands`, `TkDump`, `Json`,
`Numbers`).

**The pipe to radare2** (`Pipe`): the process at the other end, the two pipes, and the
read loop, for every way of cutting the reply into chunks.

**Lazy generators and their pushdown** (`Generators`), **type sizes and member rows**
(`Types`, `TypeTables`, with `Sorting`), and facts about sequences (`Sequences`). The comment at
src/lib/src/tables_types.cpp:11 calls the reply to `tj` an array of records; the code reads
the records under `types` of an object, whatever kind of value that is, and so does the model.

`dafny verify dfyconfig.toml` verifies the project.

## Model

| member | source | states |
|---|---|---|
| McpInvariant.StepInv | src/common/mcp_server.cpp:49-340 | every step of every thread keeps the invariant |
| McpInvariant.ReachableInv | src/common/mcp_server.cpp:242-340 | the invariant holds in every state of every run |
| McpSafety.WriteOnce | src/common/mcp_server.cpp:111-120 | over any run `completed` and `result` are written once, `started` and `canceled` stay, a call returns once and `running_` does not come back, so the unlocked reads after the wait loop are stable |
| McpSafety.NeverStartedAndCanceled | src/common/mcp_server.cpp:94-97 | no command is ever both started and canceled |
| McpSafety.TimedOutNeverRuns | src/common/mcp_server.cpp:94-106 | a call that returned at the queue timeout has its command in no queue, and no continuation of the run executes it |
| McpSafety.SuccessIsTheCallbacksAnswer | src/common/mcp_server.cpp:118-120 | a call reports success if and only if its payload is the text the callback returned for the call's own input, without the error prefix, in the only execution of that call |
| McpSafety.FailureIsErrorOrStop | src/common/mcp_server.cpp:269-300 | a failed answer is the error of its only execution, message included, or the reply of `stop`, and then the command never runs |
| McpSafety.CanceledResultIsNeverRead | src/common/mcp_server.cpp:273-275 | the client of a canceled command only ever gets the timeout reply, so the empty result of a canceled and completed command is never read |
| McpSafety.FallbackUnreachable | src/common/mcp_server.cpp:111-116 | the last return of the error path is never taken in one life of the server |
| McpSafety.Conservation | src/common/mcp_server.cpp:54-66 | an admitted command is in exactly one of the queue, the drainer's hand, one `stop` call's list, completed, or erased by its timed-out client, and nowhere twice |
| McpSafety.SerialExecution | src/common/mcp_server.cpp:267-302 | a command is started and not completed exactly while the drainer executes or stores it, so at most one is; the queue never exceeds 64 |
| McpSafety.ExecutedInOrder | src/common/mcp_server.cpp:242-302 | the executed commands are a subsequence of the admitted ones, without repetition |
| McpSafety.OvertakenByAtMost | src/common/mcp_server.cpp:249-261 | whatever is admitted, canceled or erased meanwhile, the command at position k of the queue has at most k popped before it |
| McpSafety.StaysOut | src/common/mcp_server.cpp:99-105 | a command that has left the queue does not come back |
| McpStopped.StoppedCommandRunsIff | src/common/mcp_server.cpp:111-114 | exactly when a command whose client was told "stopped" is still executed in some continuation |
| McpStopped.AtMostOneMore | src/common/mcp_server.cpp:242-302 | from the moment `running_` is false at most one more command is executed, none if the drainer would look at `running_` first |
| McpStopped.StoppedIsNoPromise | src/common/mcp_server.cpp:305-340 | a run in which `stop` has returned, the client was told "stopped", the command is queued, and it still executes |
| McpProgress.StepMeasure | src/common/mcp_server.cpp:77-116 | a measure of the outstanding work falls with every step except polling an empty queue and waiting for a started command, which leave it alone and need `running_` |
| McpProgress.WorkIsLinear | src/common/mcp_server.cpp:49-121 | any run of n calls has at most 13n plus 3 for each `stop` plus 10 steps that are not such waiting |
| McpProgress.StoppedRunsEnd | src/common/mcp_server.cpp:305-340 | once `running_` is false every run ends within the measure |
| McpProgress.NeverStuck | src/common/mcp_server.cpp:77-116 | while a call has not returned, a step that is not waiting is possible |
| McpProgress.NothingEnabledMeansDone | src/common/mcp_server.cpp:242-340 | after a stop, when nothing can move every call has returned, the drainer has left and every `stop` has finished |
| McpProgress.EveryCallCanReturn | src/common/mcp_server.cpp:49-121 | every run can be continued to one in which every call has returned |
| McpFairness.EveryCallReturns | src/common/mcp_server.cpp:49-121 | in every infinite run in which no thread that could do something other than wait is held up for ever, every call returns, and keeps its reply |
| McpFairness.StoppedComesToRest | src/common/mcp_server.cpp:242-340 | once `running_` is false such a run reaches a state in which every call has returned, the drainer has left and every `stop` has finished |
| McpSafety.ReplyIsTrue | src/common/mcp_server.cpp:49-121 | what each reply says and means: an answer is the text its only execution returned, `Error: ` and the message it threw, or `Error: No handler for command type`, and succeeds unless it starts with `Error: `; every other reply is word for word one of the server's own errors, with what it says of the server, the queue and the command |
| McpSafety.RefusedAtSixtyFour | src/common/mcp_server.cpp:59-66 | a call is refused at the queue if and only if 64 commands wait in it; otherwise its command goes to the end |
| McpSafety.NoLateEntry | src/common/mcp_server.cpp:50-52 | a call made with `running_` down never gets into the queue, and is told that the server is not running |
| McpThreads.OthersRun | src/common/mcp_server.cpp:49-340 | whatever the other threads do, they leave alone what a thread relies on between two of its blocks, and keep every property that no step ends |
| McpThreads.QueueAndWait | src/common/mcp_server.cpp:49-121 | the whole call among any number of other threads: the object stays in a reachable state, and the reply says truly what became of the command |
| McpThreads.Stop | src/common/mcp_server.cpp:305-340 | the whole of `stop` ends, with `running_` down and every property kept that no step ends |
| McpThreads.RunUntilStopped | src/common/mcp_server.cpp:242-302 | the drainer's loop keeps the object in a reachable state, executes nothing but the callback on commands' inputs, is left only with `running_` down, and at the latest when the interrupt check fires |
| McpServer.Server.constructor | src/common/mcp_server.cpp:224-227 | the object after `running_` is set is the initial state of the system |
| McpServer.Server.CheckRunning | src/common/mcp_server.cpp:50-52 | performs the client's first read |
| McpServer.Server.Admit | src/common/mcp_server.cpp:59-66 | performs the admission step: refuses at 64, else appends |
| McpServer.Server.TestGuard | src/common/mcp_server.cpp:78-85 | performs the head of the wait loop |
| McpServer.Server.WakeOrCancel | src/common/mcp_server.cpp:87-97 | performs the wake-up, or the cancel when the deadline has passed with the condition false |
| McpServer.Server.EraseOwn | src/common/mcp_server.cpp:98-106 | the find and erase performs the client's erase step |
| McpServer.Server.ReadCompleted | src/common/mcp_server.cpp:111 | performs the unlocked read of `completed` |
| McpServer.Server.ReadRunning | src/common/mcp_server.cpp:112-115 | performs the read of `running_` and returns the reply of the system |
| McpServer.Server.ReadPrefix | src/common/mcp_server.cpp:119 | performs the first read of `result` |
| McpServer.Server.CopyPayload | src/common/mcp_server.cpp:120 | performs the second read of `result` and returns the reply of the system |
| McpServer.Server.DrainerLoopHead | src/common/mcp_server.cpp:243 | performs the drainer's loop test |
| McpServer.Server.CheckInterrupt | src/common/mcp_server.cpp:244-247 | performs the interrupt check, or its firing |
| McpServer.Server.LeaveLoop | src/common/mcp_server.cpp:246 | performs the `break` after the drainer's own `stop` |
| McpServer.Server.PopFront | src/common/mcp_server.cpp:249-261 | performs the poll; returns the command the system then has in the drainer's hand |
| McpServer.Server.Claim | src/common/mcp_server.cpp:267-276 | performs the start, or the completion of a canceled command |
| McpServer.Server.Execute | src/common/mcp_server.cpp:283-292 | turns the callback's text or exception into the result the system stores |
| McpServer.Server.Store | src/common/mcp_server.cpp:294-300 | performs the store of the result |
| McpServer.Server.ClearRunning | src/common/mcp_server.cpp:306 | performs the first step of `stop` |
| McpServer.Server.SwapOut | src/common/mcp_server.cpp:318-322 | takes the whole queue, and the system's list names the commands taken |
| McpServer.Server.CompleteFront | src/common/mcp_server.cpp:324-339 | performs one turn of the completion loop, or its end |
| Like.ToLower | src/lib/src/tables_grep.cpp:84-87 | the text with no upper-case letter left and otherwise the same, in place |
| Like.NoEarlier | src/lib/src/tables_grep.cpp:95-103 | another start at or behind the current attempt's reaches no pattern position earlier in the text |
| Like.LastStarSuffices | src/lib/src/tables_grep.cpp:98-103 | whatever an earlier `%` could still try, the later `%` covers |
| Like.Scan | src/lib/src/tables_grep.cpp:93-107 | the two loops decide `Greedy`, within the bound on iterations |
| Like.LikeMatch | src/lib/src/tables_grep.cpp:90-108 | decides `Matches`, accepts only texts that read as the pattern, case aside, and all of these without `%`, and takes at most \|text\|*(\|pattern\|+1)+\|pattern\| iterations of the main loop |
| Like.MatchesIsSound | src/lib/src/tables_grep.cpp:89-108 | every accepted text is LIKE the pattern, case aside |
| Like.MatchesIsComplete | src/lib/src/tables_grep.cpp:89-108 | a text without `%` is accepted if it is LIKE the pattern |
| Like.CaseMakesNoDifference | src/lib/src/tables_grep.cpp:84-92 | texts and patterns that differ in the case of ASCII letters only are matched alike |
| Like.LikeMeansReading | src/lib/src/tables_grep.cpp:89-108 | LIKE on the folded strings holds if and only if the given text can be cut up into what the characters of the given pattern stand for |
| Like.MatchesMeans | src/lib/src/tables_grep.cpp:89-108 | every accepted text has such a reading; for a text without `%` also conversely; for a pattern without `%` exactly the texts of its length that fit it character by character |
| Like.AgreesOnTextIff | src/lib/src/tables_grep.cpp:89-108 | matcher and LIKE agree on a text for all patterns if and only if the text has no `%` |
| Like.AgreesOnPatternIff | src/lib/src/tables_grep.cpp:89-108 | they agree on a pattern for all texts if and only if the pattern has no `%` |
| Grep.PushArray | src/lib/src/tables_grep.cpp:39-60 | appends the rows of one reply array, none for any other reply |
| Grep.BuildGrepRows | src/lib/src/tables_grep.cpp:64-82 | produces the full scan that `ScanReads` describes |
| Grep.OpenPattern | src/lib/src/tables_grep.cpp:117-130 | the cursor is over the matching rows of the full scan |
| Grep.QueryPattern | src/lib/src/tables_grep.cpp:131-135 | read to its end, the cursor yields exactly these rows |
| Grep.PushdownIsTheMatchingRows | src/lib/src/tables_grep.cpp:110-130 | the pushdown keeps every copy of every matching row and no other, in the order of the scan |
| Grep.PlainMatchIff | src/lib/src/tables_grep.cpp:118-123 | exactly which texts a pattern without wildcards selects, `%` in the text included |
| Grep.EveryRowComposed | src/lib/src/tables_grep.cpp:55-57 | every scanned row's full name is composed of its parent and its name |
| Grep.PlainPatternIsSubstring | src/lib/src/tables_grep.cpp:118-129 | a row kept for a pattern without wildcards has it in its full name; without `%` in the full name also conversely |
| Grep.PercentHidesRow | src/lib/src/tables_grep.cpp:95-100 | a row that a search for part of its name misses |
| Grep.ScanReads | src/lib/src/tables_grep.cpp:39-82 | the scan is the rows of six named commands in order, one for each element, with every column from its key |
| Grep.KeepsWhatIsAsked | src/lib/src/tables_grep.cpp:115-130 | a kept row has a name that reads as the pattern, or without wildcards has the pattern in its full name, case aside; without `%` in the full name also conversely |
| RowCursor.RowIterator.Next | src/lib/src/tables_grep.cpp:131-135 | moves to the next unread row, and says so, or is at the end for good |
| RowCursor.Drain | src/lib/src/tables_blocks.cpp:77-81 | reading a cursor to its end yields its rows in order |
| Generators.Generator.Next | src/lib/src/tables_blocks.cpp:58-65 | yields the head of what is left of the flattened scan, across empty functions, or ends |
| Generators.DrainGenerator | src/lib/src/tables_blocks.cpp:58-66 | reading the generator to its end yields the flattened scan |
| Generators.BlocksForFunc | src/lib/src/tables_blocks.cpp:34-46 | the blocks of one function, none when the reply is not an array |
| Generators.ScanBlocks | src/lib/src/tables_blocks.cpp:49-68 | the full scan is the concatenation of the functions' blocks over `aflj` |
| Generators.QueryBlocks | src/lib/src/tables_blocks.cpp:71-92 | the pushdown is the blocks of that function |
| Generators.ScanIsCopiesOfPushdown | src/lib/src/tables_blocks.cpp:48-92 | filtering the full scan gives the pushed-down rows once for each time the function is listed |
| Generators.PushdownAgreesIff | src/lib/src/tables_blocks.cpp:48-92 | the two agree if and only if the function is listed once or has no rows |
| Generators.BlocksPushdown | src/lib/src/tables_blocks.cpp:34-92 | both for the blocks table |
| Generators.BlocksRead | src/lib/src/tables_blocks.cpp:34-46 | one row for each element of the reply to `afbj @`, with every column from its key |
| Generators.FirstWord | src/lib/src/tables_instructions.cpp:42-43 | the longest start of the text without blanks |
| Generators.InsnsForFunc | src/lib/src/tables_instructions.cpp:36-63 | the instructions of one function, column by column, none when there is no `ops` array |
| Generators.ScanInsns | src/lib/src/tables_instructions.cpp:65-84 | the full scan is the concatenation of the functions' instructions |
| Generators.QueryInsns | src/lib/src/tables_instructions.cpp:86-110 | the pushdown is the instructions of that function |
| Generators.InsnsPushdown | src/lib/src/tables_instructions.cpp:46-110 | pushdown against full scan for the instructions table |
| Generators.InsnsRead | src/lib/src/tables_instructions.cpp:36-63 | one row for each element of `ops` in the reply to `pdfj @`, with every column from its key; the mnemonic is the first word of `opcode`, or of `disasm`, or else `type` |
| Generators.AddressesRead | src/lib/src/tables_instructions.cpp:65-80 | a full scan visits the address of every element of the reply to `aflj` |
| Base64.Encode | src/lib/src/json_utils.cpp:92-120 | computes the encoding that `DecodeEncoded`, `EncodedShape` and `EncodedBits` describe |
| Base64.DecodeEncoded | src/lib/src/json_utils.cpp:92-120 | decoding by section 4 of RFC 4648 gives every byte string back |
| Base64.EncodedShape | src/lib/src/json_utils.cpp:96-118 | the length is 4*ceil(n/3), every character is of the alphabet, and `=` is exactly the padding at the end |
| Base64.EncodedBits | src/lib/src/json_utils.cpp:92-120 | each four characters are the bits of three bytes from the top, six at a time, in the alphabet of table 1 of RFC 4648 |
| HexAddresses.HexAddrShape | src/lib/src/json_utils.cpp:86-90 | `0x`, lower-case digits, no leading zero |
| HexAddresses.HexAddrInjective | src/lib/src/json_utils.cpp:86-90 | different addresses are written differently |
| HexAddresses.HexAddrReadsBack | src/lib/src/json_utils.cpp:22-34 | read as a string field an address comes back if it is not negative, and otherwise the default does |
| HexAddresses.HexAddrSays | src/lib/src/json_utils.cpp:86-90 | the digits behind `0x` are the hexadecimal digits of the address as a 64-bit word |
| Json.TextReads | src/lib/src/json_utils.cpp:13-20 | a text field is a string as it is, the text form of any other value, the default for null or a missing key |
| Json.I64Reads | src/lib/src/json_utils.cpp:22-34 | an integer field is a 64-bit number as it is, an unsigned one wrapped, a fraction cut off, the default for what is no number |
| Json.AddressIsRead | src/lib/src/json_utils.cpp:40-47 | the address of a record is its `addr`, or its `offset` if that is missing or null |
| Numbers.StollReads | src/lib/src/json_utils.cpp:31 | a text with blanks, a sign and a decimal, octal or hexadecimal number reads as that number if it fits in 64 bits, whatever follows |
| Numbers.StollFails | src/lib/src/json_utils.cpp:31 | a text without a digit where the number should start reads as none |
| Commands.R2Quote | src/lib/src/json_utils.cpp:59-74 | computes the quoted string that `UnquoteQuoted` and `QuotedSays` describe |
| Commands.UnquoteQuoted | src/lib/src/json_utils.cpp:59-74 | unquoting gives every string back, and no quote inside is left unescaped |
| Commands.QuotedInjective | src/lib/src/json_utils.cpp:59-74 | different strings are quoted differently |
| Commands.QuotedIsOneLine | src/lib/src/json_utils.cpp:67-68 | no raw CR or LF is left |
| Commands.QuotedSays | src/lib/src/json_utils.cpp:59-74 | between the two quotes stand the characters one after the other, backslash, quote, LF and CR as two characters each |
| Commands.CommentReadsBack | src/lib/src/tables_comments.cpp:80-81 | the comment command says exactly the text and the address mod 2^64 |
| Commands.CommentSays | src/lib/src/tables_comments.cpp:62-63 | the command word for word: the verb, the encoded text, and the address behind ` @ 0x` |
| Commands.CommentRow.SetText | src/lib/src/tables_comments.cpp:58-66 | the setter sends a command that reads back as the new text, and stores it in the row |
| TkDump.ParseTkDump | src/lib/src/json_utils.cpp:122-159 | computes the map that `ParsedMeans` and `PrintedParsesBack` describe |
| TkDump.EmplaceRecord | src/lib/src/json_utils.cpp:135-156 | one turn of the loop files the type that `EntryOfMeans` finds in a record, unless the name is taken |
| TkDump.ParsedMeans | src/lib/src/json_utils.cpp:122-159 | a name has a kind if and only if that is the first record that declares the name |
| TkDump.EntryOfMeans | src/lib/src/json_utils.cpp:135-156 | a record declares a type if and only if it is markers and CRs, a name without `=` and `.`, `=`, one of the seven kinds, and CRs |
| TkDump.PrintedParsesBack | src/lib/src/json_utils.cpp:122-159 | printing a map of types in any order, with any mix of the three separators, with markers and CRs around the records, repeated names behind the first and records that declare nothing in between, and parsing it gives the map back |
| Pipe.ReplyIgnoresChunks | src/lib/src/backend_r2pipe.cpp:374-384 | the reply is what comes before the first NUL, however the stream is cut into reads |
| Pipe.EmptyAfterIff | src/lib/src/backend_r2pipe.cpp:376-383 | the pipe is empty afterwards for every way of cutting if and only if nothing was sent behind that NUL |
| Pipe.LockStepIff | src/lib/src/backend_r2pipe.cpp:366-385 | a command leaves the pipe empty for every way of cutting if and only if it has no newline |
| Pipe.R2Pipe.Start | src/lib/src/backend_r2pipe.cpp:301-306 | the handshake consumes one NUL |
| Pipe.R2Pipe.Cmd | src/lib/src/backend_r2pipe.cpp:366-385 | what a command returns and leaves behind, for any content of the pipe, closed handles and short writes included |
| Pipe.CmdInStep | src/lib/src/backend_r2pipe.cpp:366-385 | in step, a command gets the reply to its own line and leaves both ends in step |
| Pipe.Session | src/lib/src/backend_r2pipe.cpp:301-385 | from the handshake on the k-th command gets the k-th reply |
| Pipe.ProjectExists | src/lib/src/backend_r2pipe.cpp:318-332 | true if and only if some line, trimmed, is the name, with or without a final newline |
| Types.ReadAggregate | src/lib/src/tables_types.cpp:78-97 | the row of a struct or union: its total or its largest field, and its format |
| Types.ReadAtomics | src/lib/src/tables_types.cpp:55-64 | has for each name the size and format in the last record of that name, and no other names |
| Types.ReadType | src/lib/src/tables_types.cpp:68-97 | the row of a type of any kind; size -1 and no format for enums, typedefs, functions and types without a record |
| Types.ReadRows | src/lib/src/tables_types_members.cpp:56-87 | the rows of a type of any kind; none for kinds other than struct, union and enum |
| Types.ReadMembers | src/lib/src/tables_types_members.cpp:73-87 | one row for each field of a struct or union |
| Types.ReadEnum | src/lib/src/tables_types_members.cpp:58-71 | one row for each constant of an enum |
| Types.BuildTypes | src/lib/src/tables_types.cpp:51-102 | for every name exactly its row, size and format included, if the dump has it and none otherwise, sorted by name |
| Types.BuildMembers | src/lib/src/tables_types_members.cpp:52-94 | for every name exactly the rows of its fields or constants, none for other kinds and names, sorted by type and offset |
| Types.TablesAgree | src/lib/src/tables_types.cpp:81-95 | a struct's size is the sum and a union's the maximum over its member rows if and only if its definition could be read |
| TypeTables.StructRead | src/lib/src/tables_types.cpp:78-97 | a struct's row has the sum over the `fields` in the reply to `tsj` and its format, -1 and none if that is no object |
| TypeTables.UnionRead | src/lib/src/tables_types.cpp:78-97 | a union's row has the largest of the `fields` in the reply to `tuj`, not below 0, and its format, -1 and none if that is no object |
| TypeTables.AtomicRead | src/lib/src/tables_types.cpp:55-77 | an atomic type's row has size and format of its last record under `types` in the reply to `tj`, -1 and none without one |
| TypeTables.OthersRead | src/lib/src/tables_types.cpp:68-77 | any other type has size -1 and no format |
| TypeTables.ElementsAre | src/lib/src/tables_types.cpp:58-60 | which records are visited: an array's in order, an object's values by their keys, none of null |
| TypeTables.TypesListed | src/lib/src/tables_types.cpp:52-102 | the table has exactly the types of the reply to `tk*`, each once, in the order of the names |
| TypeTables.FieldsListed | src/lib/src/tables_types_members.cpp:72-87 | the rows of a struct are the `fields` of `tsj`, those of a union the `fields` of `tuj`, one for one, with every column from its key |
| TypeTables.ConstantsListed | src/lib/src/tables_types_members.cpp:58-71 | the rows of an enum are the constants under `values` of `tej`, each once, with their values |
| TypeTables.NothingElseListed | src/lib/src/tables_types_members.cpp:56-57 | every row is of a struct, union or enum of the dump |
| TypeTables.MembersSorted | src/lib/src/tables_types_members.cpp:90-93 | the rows are sorted by type name, those of a type by offset |

## Left out

- Starting an `McpServer` again after `stop`: neither user of the class does it, and the statements about one life of the server do not hold across two.
- Condition variables' notifications and the 100 ms slices: every wait also ends by itself, so only its condition and the deadline matter.
- Weak memory: the reads at src/common/mcp_server.cpp:111-120 take no lock; they are modelled as sequentially consistent.
- A callback that never returns, or throws something other than `std::exception`.
- The transport (`fastmcpp`) and its shutdown at the end of `stop`, server start-up failures, and the mode without a queue.
- McpThreads.QueueAndWait: the wait loop is followed for a given number of turns; that it ends under fair scheduling is `McpFairness.EveryCallReturns`, about the transition system.
- McpThreads.RunUntilStopped: the drainer's loop likewise; that it ends after a stop is `McpFairness.StoppedComesToRest`.
- McpServer.Server.constructor: the commands the calls are going to create are handed over at the start instead of being allocated by each call.
- Pipe.Session: that every write is complete is built in; `R2Pipe.Cmd` states what a short one does.
- Pipe.R2Pipe.Cmd: a read that would block for ever on a live but silent process counts as the end of the stream.
- Types.TablesAgree: sizes are unbounded integers; a sum or product beyond 64 bits is undefined in the original.
- Sorting.Sort: `std::sort` is a library; only that it sorts and rearranges is used, not which order it gives equal rows.
- Json.I64: a floating-point value outside 64 bits is undefined in the original and is truncated here.
- Grep.PlainPatternIsSubstring: with a `%` in the full name only one direction holds; `PlainMatchIff` has the exact condition.
- The Windows variant of the pipe, which has the same read loop, and process start, signals and shutdown.
- Bookmarks, xrefs, flags and the tables that are one command each, and the `regexp` function.
- The plugin, the command line and the rendering of results.
