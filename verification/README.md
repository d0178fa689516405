# Verification of qconnect

qconnect lets an agent discover and invoke the tools of configured providers, over a command line and as an MCP
server. This project models the parts of it that are hard to get right and proves, for all inputs, all runs and all
interleavings, what they promise. `dafny verify dfyconfig.toml` checks everything.

What is modelled, module by module:

- **Answers and their schemas.** `Json`, `Schema`, `Validation`, `Compact`, `Described`, `Result`: a provider's answer
  is validated, implied members and empty members are removed in place, and a relaxed schema is published that must
  still describe what is left. The main theorem (`Result.ResultSatisfiesPublished`) goes through both transformations;
  the condition on the schema it rests on is exact for compaction, without any side condition, and computed from the
  schema alone (`Described.SoundExactlyWhenDescribed`). In the other direction, the published schema gives up nothing
  but required names (`Compact.PublishedForbidsTheRest`).
- **Equality of JSON values.** `Literals`, `EqualityKey`: the text key behind `uniqueItems` is injective up to
  equality of JSON values, numbers by exact value.
- **Finding a request id.** `JsonText`, `IdScanner`, `McpLine`: a byte automaton with 256 bytes of memory finds what a
  parser of RFC 8259 finds under the key written "id", in text of any length and any fragmentation.
- **The MCP server.** `McpCalls`, `McpRoots`, `McpRestart`, `Utf8`: calls that complete and are cancelled
  concurrently, the project directories asked from the client, and a restart that hands the session and the unread
  input to a successor. The mutex sections are the atomic steps; the theorems are about all runs.
- **Discovery.** `Discovery`, `Search`, `SearchFilters`: who offers a tool and why nobody does, ranked results, what
  each filter does to them, pages by cursor, groups, and the shortened lists of connections, which lose nothing.
- **Suggestions.** `EditDistance`: the two-row computation is optimal over all edit scripts, and the suggestion
  depends only on the set of candidates.
- **Approvals.** `Approvals`, `Origins`: matching approvals with connections renamed by hand, in spite of unordered
  maps, and the backward walk through the log, which agrees with following connections forward through renames.
- **State kept over runs.** `Backups`, `HomeMigration`, `Registry`, `RegistryOrder`, `RenameConfig`: names and
  rotation of backups, the migration of a directory by several processes that may crash anywhere, registration and
  exactly what its order decides, and renames that keep references and offers.

`Order` holds the order of strings and sorted listings the others share, `Numerals` decimal digits, `Wrappers` the
optional value.

Code that changes things in place is modelled by methods and classes over the same state, each proved against a
specification function; the theorems are about those functions and about all runs of them.

What the proofs brought to light about the code:

- A required member of type null, a required name without a declared property, or `minProperties` above 0 can make the
  published schema reject compacted answers (`Compact.NullMemberBreaks`, `Compact.UndeclaredRequiredBreaks`,
  `Compact.MinPropertiesBreaks`).
- A client name of more than 1024 bytes is accepted by initialize but not by the successor after a restart, which then
  starts without the session and without the unread input (`McpRestart.LongClientNameLosesTheSession`). Together with
  a stray carriage return at the end of a message this is all that can happen to messages and to what was negotiated
  in the states a server reaches (`McpRestart.ReachedRestartIsLossless`, an if and only if).
- A project directory that is not UTF-8, as the client's root file:///srv/%FF names one, is another directory after a
  restart, and the successor does not ask again (`McpRoots.OddDirectoryIsLost`; exactly when directories survive is
  `McpRoots.HandOverKeepsRoots`).
- A schema that enumerates a number as 1.0 is published as enumerating 1 where a tool has implied members, and then
  rejects the answer 1.0 (`Result.SpellingCanBreak`).
- A configuration directory with something to copy below a directory its owner cannot write is never migrated
  (`HomeMigration.UncopyableIsNeverMigrated`).
- A successor that refused its handoff can restart again before it handled anything, although skipCheck is there to
  prevent it (`McpRestart.RestartsAgainExactly`, `McpRestart.TwoRestartsInARow`).
- The description of leftovers (internal/approval/approval.go:159-163) says that the connection holds an approval too.
  This fails exactly when a connection of the approval's name is configured and reads no vault credential, and the id
  is that of another connection without approval (`Approvals.UnheldExactly`).
- A connection the log does not know is explained by the log entry of the last bearer of its name, exactly when that
  one was created or changed after the cut-off (`Origins.MisreadExactly`).
- The order of registration decides in two cases only: operations registered before their provider is declared, and
  operations registered for a provider nobody declares, before one whose vendor is spelled otherwise
  (`RegistryOrder.AcceptedExactly`, `RegistryOrder.OrderIsSeenExactly`).
- Renaming a service to a name that a dangling reference uses gives that connection a service, by which it can lose
  tools and gain others; which connections keep all their refusals is `RenameConfig.RefusalsAreKeptExactly`, and
  undoing the rename does not take the service back (`RenameConfig.ServiceRenameIsUndone`, an if and only if).

## Model

| member | source | states |
|---|---|---|
| `Compact.DropEmpty` | internal/application/compact.go:15-32 | deleting empty members in place, while the object is walked in any order, gives the recursively cleaned value |
| `Compact.DropEmptyMembers` | internal/application/compact.go:17-25 | the loop over an object: every member is cleaned, then deleted if it is empty |
| `Compact.DropEmptyEntries` | internal/application/compact.go:26-29 | the loop over an array: entries are cleaned and none is deleted |
| `Compact.CleanHasNoEmptyMembers` | internal/application/compact.go:11-32 | a compacted value has no empty object member at any depth |
| `Compact.CleanFixesExactly` | internal/application/compact.go:11-32 | compaction leaves exactly the values without an empty member unchanged |
| `Compact.CleanIsIdempotent` | internal/application/compact.go:11-32 | compacting twice is compacting once |
| `Compact.CleanKeepsPlaces` | internal/application/compact.go:15-32 | whatever a compacted answer has at a path is the compacted original at that path |
| `Compact.CleanLosesOnlyEmpty` | internal/application/compact.go:15-44 | a path is lost only if what is there, or something it lies in, cleans to an empty value |
| `Compact.RelaxSchema` | internal/application/compact.go:61-137 | the loops over properties and required names compute the published schema and whether it reports "can be empty" |
| `Compact.RelaxProperties` | internal/application/compact.go:78-93 | the loop over the properties, in any order, relaxes each and collects those that can be empty |
| `Compact.KeepRequired` | internal/application/compact.go:102-109 | the loop over the required names keeps, in order, those no droppable property has |
| `Compact.RelaxIsIdempotent` | internal/application/compact.go:61-137 | a published schema is its own published form and reports the same |
| `Compact.PublishedForbidsTheRest` | internal/application/compact.go:46-137 | a value is accepted by a schema if and only if the published one accepts it and it has the names the schema requires at every place the schema reaches: nothing else is given up |
| `Compact.RelaxRequiresLess` | internal/application/compact.go:46-137 | the published schema says under every other keyword, at every level, what the schema says, and requires no name it does not |
| `Compact.EmptyWitness` | internal/application/compact.go:61-137 | for every schema that can, a concrete accepted value that cleans to an empty one |
| `Compact.EmptiesIsExact` | internal/application/compact.go:61-137 | for every schema: a decidable condition on the schema alone holds exactly when some accepted value cleans to null, `[]` or `{}` |
| `Compact.ReportIsExact` | internal/application/compact.go:59-137 | on regular schemas (no enum, no null or empty type, no minProperties above 0, item bounds not negative, required names declared, at every level) the report of `relaxSchema` is exactly that condition |
| `Compact.CompactionIsSound` | internal/application/compact.go:46-137 | for every faithful schema whose enumerated values hold no empty members, the published schema accepts the compacted form of every value the full schema accepts, by induction over schema and value |
| `Compact.RegularIsFaithful` | internal/application/compact.go:46-137 | regular schemas meet the condition soundness needs |
| `Compact.SoundExactlyWhenFaithful` | internal/application/compact.go:46-137 | where a schema accepts an object wherever its type allows one (Inhabited) and its enumerated values hold no empty members (CleanEnums): it and everything in it describe their compacted answers if and only if every name that stays required names a property whose values never clean to empty |
| `Described.SoundExactlyWhenDescribed` | internal/application/compact.go:46-137 | for every schema without exception: what is published for it accepts the compacted form of every accepted value if and only if `Describes` holds, a condition computed from the schema that counts a failure inside a property only where the value can stay, and a failure inside `items` always |
| `Described.SatisfiableExactly` | internal/application/schema.go:45-242 | a schema accepts some value if and only if a condition on its own keywords and parts holds: bounds, integers between them, required names without which none can be |
| `Described.StaysExactly` | internal/application/compact.go:11-44 | it accepts some value that is not empty once compacted if and only if such a condition holds |
| `Described.DescribedIsSound` | internal/application/compact.go:46-137 | under that condition the compacted form of an accepted value, of one that does not clean to empty below the root, is accepted by what is published |
| `Described.BadAnswer` | internal/application/compact.go:46-137 | without it, a concrete accepted answer whose compacted form is rejected |
| `Described.FaithfulIsDescribed` | internal/application/compact.go:46-137 | the simpler condition is enough for it |
| `Described.UnfaithfulButDescribed` | internal/application/compact.go:46-137 | and not needed at the root: a member that is always dropped may be described wrongly |
| `Compact.PublishedRequiredIsExact` | internal/application/compact.go:102-118 | on regular schemas a name stays required in the published schema exactly when every compacted answer still has it |
| `Compact.UndeclaredRequiredBreaks` | internal/application/compact.go:102-118 | a required name without a declared property makes the published schema reject a compacted answer |
| `Compact.NullMemberBreaks` | internal/application/compact.go:120-129 | so does a required member of type null, which is never reported as droppable |
| `Compact.MinPropertiesBreaks` | internal/application/compact.go:120-129 | so does `minProperties`, which relaxation reads but output validation does not enforce |
| `Result.DropImplied` | internal/application/compact.go:141-166 | deleting the implied members entry by entry, one declaration after the other, gives the answer without them |
| `Result.FixedAreDropped` | internal/application/compact.go:141-175 | of an entry of a list exactly those members are dropped that some declaration names for this list, where the request gives its argument explicitly as one of the declared values |
| `Result.SelectedAreLeft` | internal/application/compact.go:267-284 | of an entry exactly the selected members are left, and nothing outside the list is touched |
| `Result.SelectCommutes` | internal/application/compact.go:267-284 | compacting before or after a field selection publishes the same result |
| `Result.DropImpliedCommutes` | internal/application/compact.go:141-166 | compacting before or after implied members are dropped publishes the same result |
| `Result.ImpliedIsSound` | internal/application/compact.go:141-207 | for every schema with scalar enums, dropping implied members keeps an accepted answer accepted by the schema that no longer requires them |
| `Result.RelaxImpliedKeeps` | internal/application/compact.go:177-207 | no longer requiring implied members keeps a schema faithful |
| `Result.RelaxImpliedForbidsTheRest` | internal/application/compact.go:177-207 | what the schema that no longer requires implied members accepts, and what has these members, the schema accepts |
| `Result.ResultSatisfiesPublished` | internal/application/compact.go:46-207 | for every schema with scalar enums that, without its implied members, meets the exact condition `Describes`, and for all arguments and implied fields: what `Invoke` returns for an answer that passed the full output schema passes the published one; where members are implied, so that the schema is written again, the new spelling of its numbers changes no enumerated one and narrows no bound |
| `Result.RespelledRelaxes` | internal/application/compact.go:61-207 | writing a schema again before or after it is relaxed makes no difference |
| `Result.SpellingCanBreak` | internal/application/compact.go:177-207 | a schema that enumerates a number which is then spelled otherwise, as 1.0, is published as one that rejects this answer, where any member is implied |
| `Result.FaithfulIsEnough` | internal/application/compact.go:46-207 | every faithful schema with scalar enums meets that condition, whatever members are implied |
| `Result.ResultShape` | internal/application/compact.go:11-32 | an object result stays an object, an array keeps its length, and a list of the root is missing exactly when it was empty |
| `Validation.Validate` | internal/application/schema.go:45-242 | in output mode validation ends without complaint exactly on the values the schema accepts, and a complaint names a place and a reason that are there |
| `Validation.CheckAllowed` | internal/application/schema.go:113-122 | no complaint about names exactly when every member is declared or additional ones are allowed |
| `Validation.CheckRequired` | internal/application/schema.go:123-133 | no complaint exactly when every required name is present |
| `Validation.ValidateMembers` | internal/application/schema.go:134-152 | the members are accepted one by one, in the order of their names |
| `Validation.ValidateItems` | internal/application/schema.go:153-189 | bounds on the number of entries, then every entry against the item schema |
| `Validation.ViolationRefutes` | internal/application/schema.go:45-242 | a violation anywhere inside a value means that the whole is not accepted |
| `EqualityKey.LowestIsCanonical` | internal/application/schema.go:308-312 | two fractions have the same lowest terms exactly when they are the same number |
| `EqualityKey.RatTextIsInjective` | internal/application/schema.go:308-312 | the text of a number in lowest terms tells the number |
| `EqualityKey.TokenIsUnique` | internal/application/schema.go:306-333 | a token followed by a character it cannot hold is read back from any text |
| `EqualityKey.QuotedIsUnique` | internal/application/schema.go:306-333 | a quoted string followed by anything tells the string and what follows, for the escapes of strconv.Quote and of encoding/json |
| `EqualityKey.QuotingsAreReadable` | internal/application/schema.go:306-333 | both quotings can be read back character by character |
| `EqualityKey.KeyIsUnique` | internal/application/schema.go:304-333 | the key is self-delimiting: equal texts start with keys of equal values and continue with equal rests |
| `EqualityKey.KeyDecidesEquality` | internal/application/schema.go:304-333 | two keys are equal if and only if the values are equal JSON values, numbers compared exactly and members unordered |
| `Literals.DigitsConcat` | internal/application/schema.go:304-312 | digits in front of others count for as many tens more as there are others |
| `Literals.ExponentScales` | internal/application/schema.go:304-312 | an exponent multiplies a literal's number by its power of ten, or divides it by that where it is negative |
| `Literals.PointDividesByTen` | internal/application/schema.go:304-312 | each digit the point is moved to the left divides by ten |
| `EqualityKey.SpellingsShareAKey` | internal/application/schema.go:304-312 | a number with an exponent has the key of the number written out in zeros, and a zero behind the last digit after the point changes no key |
| `EqualityKey.HundredIsRepeated` | internal/application/schema.go:169-178 | 1e2 has the key of 100 and repeats it |
| `EqualityKey.Repeat` | internal/application/schema.go:169-178 | `uniqueItems` refuses exactly the arrays with two equal entries and names the first repeat and the entry it repeats |
| `JsonText.ValidStringIsGrammar` | internal/cli/mcp_id_scan.go:183-198 | the string check accepts exactly the strings of section 7 of RFC 8259 |
| `JsonText.ValidNumberIsGrammar` | internal/cli/mcp_id_scan.go:183-198 | the number check accepts exactly the numbers of section 6 of RFC 8259 |
| `IdScanner.McpIdScanner.Step` | internal/cli/mcp_id_scan.go:84-157 | one byte changes the fields as the automaton says, and nothing else |
| `IdScanner.McpIdScanner.StepNested` | internal/cli/mcp_id_scan.go:159-180 | the same inside a nested value |
| `IdScanner.McpIdScanner.StringEnds` | internal/cli/mcp_id_scan.go:71-82 | the escape flag and whether the quote just read ends the string |
| `IdScanner.McpIdScanner.CaptureByte` | internal/cli/mcp_id_scan.go:59-69 | a byte is kept while the buffer has room, and is an overflow otherwise |
| `IdScanner.McpIdScanner.FinishValue` | internal/cli/mcp_id_scan.go:182-198 | what a finished key or value does to the flags and the id |
| `IdScanner.McpIdScanner.Feed` | internal/cli/mcp_id_scan.go:40-47 | the fields after a fragment are those after its bytes one by one |
| `IdScanner.RunConcat` | internal/cli/mcp_id_scan.go:40-47 | fragmentation does not matter |
| `IdScanner.ScanIsBounded` | internal/cli/mcp_id_scan.go:14-38 | whatever the bytes were, the buffer never holds more than 256 bytes and an id is a JSON string or number |
| `IdScanner.TextIsNeutral` | internal/cli/mcp_id_scan.go:159-180 | a whole nested value of any depth and length leaves the scanner as it was |
| `IdScanner.MemberRuns` | internal/cli/mcp_id_scan.go:84-157 | a whole member and the byte after it: the id is replaced exactly when the key is literally "id" |
| `IdScanner.ScanFindsId` | internal/cli/mcp_id_scan.go:14-198 | for every object text with any white space, followed by anything, the scanner ends with the raw text of the last top-level member written literally "id" if that is a string or number of at most 256 bytes, and with none otherwise |
| `IdScanner.ScanFragments` | internal/cli/mcp_id_scan.go:40-47 | the same for the text fed in any fragments |
| `McpLine.Accumulate` | internal/cli/mcp.go:274-307 | one fragment: kept while the line fits, and only scanned from then on |
| `McpLine.ReadMcpLine` | internal/cli/mcp.go:274-317 | the outcome depends only on the joined bytes and on how the input ends, not on the fragments |
| `McpLine.OversizedRequestKeepsItsId` | internal/cli/mcp.go:239-317 | an oversized line that is a JSON object is refused under the id of its last top-level member written literally "id" |
| `EditDistance.TwoRowDistance` | internal/application/errors.go:71-90 | the two rows, swapped after each, compute the last cell of the table |
| `EditDistance.FillRow` | internal/application/errors.go:78-88 | one row is filled from the row above it |
| `EditDistance.TableStep` | internal/application/errors.go:80-86 | the table satisfies the textbook recurrence |
| `EditDistance.TableIsLowerBound` | internal/application/errors.go:71-90 | no edit script is cheaper than the table says |
| `EditDistance.DistanceIsShortest` | internal/application/errors.go:70-90 | the distance is the length of a shortest script over all edit scripts |
| `EditDistance.DistanceZero` | internal/application/errors.go:70-90 | it is zero exactly for equal texts |
| `EditDistance.DistanceIsSymmetric` | internal/application/errors.go:70-90 | it is symmetric |
| `EditDistance.TriangleInequality` | internal/application/errors.go:70-90 | it satisfies the triangle inequality |
| `EditDistance.SuggestionIsUnique` | internal/application/errors.go:42-60 | the first closest candidate is determined by the set of candidates |
| `EditDistance.Suggest` | internal/application/errors.go:42-60 | the loop returns it: none for a candidate itself or without a close one, independent of the order of the candidates |
| `EditDistance.SuggestionIsMisspelled` | internal/application/errors.go:36-60 | what is no candidate is answered with a candidate that no other is closer than, at most a third of the characters or one away, exactly if there is any that close |
| `McpCalls.McpServer.StartToolCall` | internal/cli/mcp.go:626-644 | a call is accepted exactly when it is the 16th or earlier in flight and no pending call has its id |
| `McpCalls.McpServer.CompleteCall` | internal/cli/mcp.go:657-664 | a call is answered exactly when it is still pending and was not cancelled |
| `McpCalls.McpServer.CancelCall` | internal/cli/mcp.go:796-814 | a cancellation marks exactly the pending call of that id as cancelled, which stays pending until its work ends |
| `McpCalls.McpServer.CancelAll` | internal/cli/mcp.go:816-829 | every pending call is cancelled, in whatever order they are visited |
| `McpCalls.NextKeeps` | internal/cli/mcp.go:596-829 | every step of every interleaving keeps the invariant |
| `McpCalls.EveryCallIsAnsweredOnce` | internal/cli/mcp.go:596-667 | over all runs at most 16 calls are in flight, no two with one id, and each accepted call is answered once when it is over, or never if it was cancelled before |
| `McpCalls.CancelledIsNeverAnswered` | internal/cli/mcp.go:796-814 | a call cancelled while it works is never answered, whatever happens next |
| `McpCalls.CancelledExactly` | internal/cli/mcp.go:796-829 | over all runs a call is cancelled if and only if the client cancelled its id, or the input broke, after it was accepted and before it was over |
| `McpCalls.UncancelledIsAnswered` | internal/cli/mcp.go:640-665 | so a call that is over, in a run without a read error and a cancellation of its id, is answered exactly once |
| `McpCalls.RefusedExactly` | internal/cli/mcp.go:596-637 | a call is refused if and only if one with its id is not over, or 16 are not |
| `McpCalls.WaitedForMeansSettled` | internal/cli/mcp.go:239-266 | when the wait group is zero no call is pending and every accepted call was answered or cancelled |
| `McpCalls.DrainingEnds` | internal/cli/mcp.go:239-266 | while calls are left a step is possible, and every step is progress, so draining ends |
| `McpRoots.RootsOfSession.ResetRoots` | internal/cli/mcp.go:1001-1017 | a new initialize finishes the round, forgets the directories and supersedes the request |
| `McpRoots.RootsOfSession.RequestRoots` | internal/cli/mcp.go:1023-1040 | a request is issued under a new id with a new round exactly when the client offers roots, and after a change only if it announced changes; an earlier request and its round are superseded |
| `McpRoots.RootsOfSession.ReceiveReply` | internal/cli/mcp.go:1046-1062 | only the answer to the latest open request sets the directories and ends its round |
| `McpRoots.NextKeeps` | internal/cli/mcp.go:997-1081 | every step keeps the invariant |
| `McpRoots.NoRequestIdTwice` | internal/cli/mcp.go:1023-1040 | no roots/list id is issued twice, across timeouts, changes and any number of restarts |
| `McpRoots.DirsAreTheLatestAnswer` | internal/cli/mcp.go:1046-1062 | the directories in force are those handed over or the answer to the latest request |
| `McpRoots.DirsAreAnswered` | internal/cli/mcp.go:1046-1062 | in every run the directories in force are, as a whole, what the client answered to the latest request, at a step of the run at which that request was open, or those of the start with no request since |
| `McpRoots.DirsAfterStep` | internal/cli/mcp.go:1001-1062 | an answer that counts replaces all directories, an error answer, an initialize and a request clear them, and nothing else touches them |
| `McpRoots.AskedExactly` | internal/cli/mcp.go:1001-1040 | the client is asked exactly at initialized notifications, if it offers roots, and at announced changes, if it said it would announce them, as its last initialize has it |
| `McpRoots.StaleReplyIsIgnored` | internal/cli/mcp.go:1046-1062 | an answer to anything else changes nothing |
| `McpRoots.NoCallIsStuck` | internal/cli/mcp.go:1066-1081 | the round a waiting call waits for is over, or it is the latest one and its timer is still running |
| `McpRoots.SupersededRoundsAreOver` | internal/cli/mcp.go:1001-1062 | every replaced, answered or timed-out round is finished |
| `McpRoots.PredecessorsRequestIsStale` | internal/cli/mcp_restart.go:124-158 | a late answer to a request of the predecessor is never taken for one of the successor's own |
| `McpRoots.HandOverKeepsRoots` | internal/cli/mcp_restart.go:124-229 | a restart keeps the directories if and only if no request is open, they fit and all are UTF-8, or there are none; otherwise the successor asks again under a new id exactly when the client offers roots and a version is handed over |
| `McpRoots.OddDirectoryIsLost` | internal/cli/mcp_restart.go:200-213 | a client whose root is file:///srv/%FF: the restarted server runs in another directory, and does not ask again |
| `Utf8.CarriedExactly` | internal/cli/mcp_restart.go:200-213 | the JSON text of a handoff carries a string of bytes unchanged if and only if it is UTF-8 |
| `McpRestart.RestartKeepsMessagesExactly` | internal/cli/mcp_restart.go:160-229 | a restart loses and changes no message if and only if the successor's checks accept the handoff and the message does not end in a carriage return of its own |
| `McpRestart.RestartKeepsSession` | internal/cli/mcp_restart.go:75-145 | what the client negotiated survives if and only if the handoff is accepted or nothing was negotiated; the whole session, if and only if also the log session does |
| `McpRestart.LongClientNameLosesTheSession` | internal/cli/mcp_restart.go:75-113 | a client name of more than 1024 bytes, which initialize accepts, makes the successor refuse the handoff: session, message and buffered input are lost |
| `McpRestart.RestartsAreTransparent` | internal/cli/mcp_restart.go:160-229 | over whole runs with restarts at any rounds and failed attempts in between: where each restart is a clean one (its handoff is decoded, its message has no stray carriage return, the process has a log session), every message is handled once, in order, in the session it would have had without restarts |
| `McpRestart.FinishedRunHandledAll` | internal/cli/mcp.go:239-266 | such a run that has read all its input handled exactly the messages of the stream |
| `McpRestart.NoRestartLoop` | internal/cli/mcp_restart.go:160-190 | a successor that accepted its handoff does not restart again without handling a message in between |
| `McpRestart.RestartsAgainExactly` | internal/cli/mcp_restart.go:34-40 | the promise that a restarted server does not restart again without input fails exactly for a successor that refused its handoff and finds what a restart needs |
| `McpRestart.TwoRestartsInARow` | internal/cli/mcp_restart.go:34-40 | and such a server and check exist in every environment whose handoffs are no longer than JSON writes them: a client name that is too long |
| `McpRestart.RefusalLosesAMessage` | internal/cli/mcp_restart.go:75-113 | each refusal loses a message, so this cannot go on for ever |
| `McpRestart.ReachedRestartIsLossless` | internal/cli/mcp_restart.go:75-229 | of a server in a state it can reach a restart is lossless if and only if the client's name and version have at most 1024 bytes and the message does not end in a carriage return of its own |
| `McpRestart.PlainRunIsClean` | internal/cli/mcp_restart.go:75-229 | over whole runs from such states this is all it takes for restarts to be transparent, and the states stay such |
| `Discovery.FindRefusal` | internal/application/application.go:1569-1592 | the loop over the connections finds the refusal of a tool |
| `Discovery.RefusedExactlyWithoutOffer` | internal/application/application.go:1524-1592 | without a connection filter a tool is refused if and only if no connection offers it |
| `Discovery.ReasonIsClosest` | internal/application/application.go:1563-1603 | the reason given is that of a connection no other comes closer than |
| `Discovery.ReasonIsFirst` | internal/application/application.go:1563-1603 | a reason is told if and only if some connection of the provider gives it and none gives one further ahead in the documented order |
| `Discovery.Hits` | internal/application/application.go:388-422 | the shared list and the entries of an answer, with their own lists where they differ |
| `Discovery.NameConnections` | internal/application/application.go:415-421 | an entry keeps its own list exactly when the shared one does not tell it |
| `Discovery.AnswerIsLossless` | internal/application/application.go:384-422 | from the shared list, the entry's list and its reason a reader recovers exactly the connections that offer each tool |
| `Search.FindCatalog` | internal/application/application.go:816-915 | filtering, stable sorting, the search for the cursor's place and the limit compute the catalog |
| `Search.FindAnswer` | internal/application/application.go:345-382 | one match more than the page holds decides `has_more`; a first answer that is too long names groups instead |
| `SearchFilters.ProviderNarrows` | internal/application/application.go:816-915 | with a provider the ranking is the part of the ranking without it that has the tools of that provider |
| `SearchFilters.EffectNarrows` | internal/application/application.go:816-915 | the same for an effect |
| `SearchFilters.GroupNarrows` | internal/application/application.go:816-915 | and for a group |
| `SearchFilters.OfferNarrows` | internal/application/application.go:816-915 | unless all tools are asked for, the ranking is the part of all tools' ranking that some connection offers, or the connection of the request |
| `SearchFilters.ConnectionNarrows` | internal/application/application.go:816-915 | with a connection it is the part, of a ranking scored for that connection, that has the tools of the connection's provider, and unless all are asked for those it offers |
| `SearchFilters.UnfilteredRanking` | internal/application/application.go:816-915 | without any filter exactly the tools are ranked in which all words of the query are found, each under its score |
| `SearchFilters.SameFiltersRankAlike` | internal/application/application.go:481-512 | what a cursor is bound to determines the ranking it continues |
| `SearchFilters.RefusedExactly` | internal/application/application.go:816-915 | a request is refused if and only if a filter names nothing there is or its cursor was not made for a match under these filters |
| `SearchFilters.GroupsNamedExactly` | internal/application/application.go:298-305 | groups are named if and only if a first page without limit, words and group would list more than 50 tools of a provider that has groups |
| `SearchFilters.PageIsFull` | internal/application/application.go:345-382 | a page has as many matches as the limit, 50 where that is not within 1 to 50, or those that are left |
| `Search.GroupBy` | internal/application/application.go:298-339 | one pass over the matches counts every group |
| `Search.RankedIsOrdered` | internal/application/application.go:816-915 | a tool is listed exactly when it passes the filters, by descending score and then by id |
| `Search.RankedIsDistinct` | internal/application/application.go:816-915 | and never twice |
| `Search.PageIsNext` | internal/application/application.go:345-382 | a page is the part of the ranking after its cursor, `has_more` holds exactly when a further match exists, and `next_cursor` continues there |
| `Search.WalkCollectsEveryMatchOnce` | internal/application/application.go:341-382 | following `next_cursor` with any page sizes collects matches in order without gap or repetition, ends, and ends exactly with the last one |
| `Search.RankedIdsDiffer` | internal/application/application.go:816-915 | so no match is listed twice in a walk |
| `Search.CursorIsBound` | internal/application/application.go:481-512 | a cursor is accepted exactly by requests whose filters have the fingerprint of those it was made for |
| `Search.GroupCountsItsListing` | internal/application/application.go:286-339 | a group's counts are the lengths of its own listings, of all tools and of those offered |
| `Search.GroupsHoldEveryMatch` | internal/application/application.go:295-339 | the counts of the groups sum to all matches |
| `Search.GroupsAscend` | internal/application/application.go:331-338 | the groups named are those with a match, by id and each once |
| `Approvals.ConnectionWithId` | internal/approval/approval.go:346-356 | the connection with an id, whatever order the map is walked in |
| `Approvals.SortOut` | internal/approval/approval.go:208-226 | the first pass: the ids claimed, the claims of each connection, and the approvals that record no id |
| `Approvals.FindCandidates` | internal/approval/approval.go:239-251 | the connections that suit an approval without id, each counted once more |
| `Approvals.FindHandRenames` | internal/approval/approval.go:198-261 | for every iteration order of every map, the listing of exactly the hand renames, by approval |
| `Approvals.OrderIsNotSeen` | internal/approval/approval.go:198-261 | two listings of one configuration and vault are equal |
| `Approvals.RenameIsFoundById` | internal/approval/approval.go:198-261 | a connection renamed by hand, whose approval alone records its id, is paired with its new name |
| `Approvals.RenameIsFoundByCredential` | internal/approval/approval.go:198-261 | so is one whose approval records no id, where its credential tells it |
| `Approvals.PairsAreOneToOne` | internal/approval/approval.go:198-261 | what is suggested is a partial injection from unconfigured approvals to connections without an approval |
| `Approvals.WhatBelongsIsFound` | internal/approval/approval.go:198-261 | an approval that could be that of a connection is found, paired or ambiguous |
| `Approvals.Pending` | internal/approval/approval.go:323-342 | the stale approvals, the leftovers and the hand renames of a report |
| `Approvals.RevocableStale` | internal/approval/approval.go:145-157 | the stale approvals without the hand renames |
| `Approvals.RevokingSparesHandRenames` | internal/approval/approval.go:143-157 | what may be revoked holds every leftover and no hand rename, and a stale approval that is kept is a hand rename |
| `Approvals.LeftoverIsHeld` | internal/approval/approval.go:159-167 | an unconfigured approval with the id of another connection is a leftover if and only if that connection holds an approval of its own, and a hand rename otherwise |
| `Approvals.UnheldLeftover` | internal/approval/approval.go:159-167 | a configuration and vault in which a leftover's connection holds no approval |
| `Approvals.UnheldExactly` | internal/approval/approval.go:159-167 | the connection of a leftover holds no approval if and only if the leftover's name is configured without a vault credential and its id is that of another connection without approval; otherwise the description of leftovers holds |
| `Approvals.PairStandsAlone` | internal/approval/approval.go:198-261 | neither side of a suggested pair relates to anything else |
| `Approvals.AdoptionKeepsTheRest` | internal/vault/approval.go:415-459 | carrying a hand rename's approval to its connection settles it and changes no other finding, whether or not the old approval is revoked yet, so hand renames may be adopted in any order |
| `Approvals.CutShortIsALeftover` | internal/vault/approval.go:415-459 | a carry that stops before the revocation leaves a leftover |
| `Origins.OriginOf` | internal/approval/origin.go:146-176 | the nested loops over days and lines return the origin of the line the backward walk finds |
| `Origins.WalkFindsYoungest` | internal/approval/origin.go:144-176 | for every consistent, time-ordered log the walk finds the youngest create or change after the cut-off of the very connection that bears the name, followed forward through renames and reuse of names |
| `Origins.OriginIsYoungest` | internal/approval/origin.go:144-176 | what is returned is that line, its time, number and surface, whether its MAC and the chain are intact, and the name borne then, and "outside" exactly when there is none |
| `Origins.WalkTellsTheName` | internal/approval/origin.go:162-172 | the name the walk reports is the one the found line has |
| `Origins.OldDaysDoNotMatter` | internal/approval/origin.go:119-140 | days that end before the cut-off need not be read |
| `Origins.WalkAnswersForTheLastBearer` | internal/approval/origin.go:144-176 | for a name no logged connection bears any more, the walk answers for the last one that bore it |
| `Origins.WalkMeans` | internal/approval/origin.go:144-176 | for every name whatever, the walk finds the youngest change after the cut-off of its last bearer in the log, up to where that lost the name |
| `Origins.MisreadExactly` | internal/approval/origin.go:102-109 | a connection the log does not know is explained by another one's line if and only if the last bearer of its name was created or changed after the cut-off before it lost the name |
| `Origins.HandMadeSuccessorIsMisread` | internal/approval/origin.go:102-109 | such a log: a connection made by hand under the name of a deleted one |
| `Backups.PadIsRead` | internal/config/backup.go:164-178 | the number in a name is read back |
| `Backups.NamesSortByTime` | internal/config/backup.go:131-162 | names under one prefix sort by second and number, whatever their kinds |
| `Backups.FirstHandSortsLast` | internal/config/backup.go:13-23 | the first version edited by hand is the one that does not sort by time: its name comes after every other |
| `Backups.NumberIsRead` | internal/config/backup.go:164-178 | the number of every configuration backup of a second is found in its name |
| `Backups.NextNumber` | internal/config/backup.go:164-178 | the next number is one past the highest any name of this second has |
| `Backups.NextIsLater` | internal/config/backup.go:164-178 | a backup with a number above those of its second is later than all made before, also after a rotation |
| `Backups.NoneIsLeft` | internal/config/backup.go:164-178 | no name is left for a configuration backup if and only if the last number of the second is used |
| `Backups.NameTellsKind` | internal/config/backup.go:44-71 | the kind of a backup can be told from its name |
| `Backups.SurvivesExactly` | internal/config/backup.go:96-116 | a backup outlives a rotation if and only if fewer than ten sort after it |
| `Backups.CopyNeverRotates` | internal/config/backup.go:118-129 | copies of other files never take part in the rotation, whatever their names |
| `Backups.BackupIsMade` | internal/config/backup.go:44-71 | every backup keeps the invariant: the newest ten and the one first-hand version are there as they were, the new one among them |
| `Backups.HeldAreNewest` | internal/config/backup.go:96-116 | the invariant means that rotation leaves exactly the ten last made, in order, beside the first-hand version |
| `Backups.Store.WriteBackup` | internal/config/backup.go:133-162 | the first free name with a number above those of the second is created; nothing, if and only if all of these names are taken |
| `Backups.Store.RotateBackups` | internal/config/backup.go:99-116 | removing the first name while more than ten are left leaves the last ten |
| `Backups.Store.BackupCurrent` | internal/config/backup.go:44-71 | the whole new state: nothing is saved exactly if there is no file, and no name is free exactly if the last number of the second is used; otherwise the backup is the last made, of the right kind, which its name tells, holds the file as it was and survives its own rotation |
| `Backups.Store.BackupCopy` | internal/config/backup.go:123-129 | a copy is added under a free name and changes nothing about the backups; none is made exactly if all names above the numbers of the second are taken |
| `HomeMigration.StepKeeps` | internal/config/home.go:116-207 | every step, failure and crash of every process keeps the invariant |
| `HomeMigration.MigrationIsSafe` | internal/config/home.go:116-174 | over all interleavings the target is absent or a complete filtered copy, of a tree that can be copied, and at most one process reports a migration |
| `HomeMigration.UncopyableIsNeverMigrated` | internal/config/home.go:209-246 | a tree with an entry to copy below a directory its owner cannot write or search is never migrated, in no run of any number of processes, for `os.Mkdir` gives the copy the same permissions |
| `HomeMigration.ReadOnlyDirectoryIsNeverMigrated` | internal/config/home.go:209-246 | such a tree: a directory of mode 0555 with a file in it |
| `HomeMigration.TargetIsFinal` | internal/config/home.go:166-172 | a visible target is never replaced |
| `HomeMigration.LiveStagingIsKept` | internal/config/home.go:192-207 | nobody touches the staging directory of another live process |
| `HomeMigration.Root.RemoveStaging` | internal/config/home.go:194-207 | whatever interrupted runs left is removed |
| `HomeMigration.Root.CopyTree` | internal/config/home.go:212-246 | the loop copies every entry but locks and special files, up to the first one that cannot be created |
| `HomeMigration.CopiedExactly` | internal/config/home.go:209-246 | a copy has every directory, every link and every file that is no lock, as it was, and nothing else |
| `HomeMigration.CopiedConcat` | internal/config/home.go:209-246 | in the order of the tree |
| `HomeMigration.Root.MigrateHome` | internal/config/home.go:120-174 | a process nobody disturbs, after any crashes before it, migrates by steps of the protocol exactly the trees that can be copied, reports a failure for the others, and leaves no staging directory |
| `Registry.Registry.RegisterProvider` | internal/capability/capability.go:200-270 | a declaration is recorded exactly when it fits what is registered, and otherwise nothing changes |
| `Registry.Registry.CheckFormerIds` | internal/capability/capability.go:453-489 | the two loops decide whether former ids collide with anything registered |
| `Registry.Registry.Register` | internal/capability/capability.go:567-651 | a batch is recorded whole, with its listing, or refused with the first problem, every lookup and listing as before |
| `Registry.Registry.Stage` | internal/capability/capability.go:574-608 | the first problem of the batch, next to what is registered and to the batch itself |
| `Registry.Registry.DropAll` | internal/capability/capability.go:618-624 | the rollback restores what was registered |
| `Registry.Registry.CheckGroups` | internal/capability/capability.go:654-675 | every tool of the provider fits its groups |
| `Registry.Registry.ValidateRenames` | internal/capability/capability.go:495-540 | the loops over all tables decide whether the rename tables fit |
| `Registry.CheckExactly` | internal/capability/capability.go:574-608 | a batch has no problem if and only if its ids are distinct and each operation is new and valid |
| `Registry.ListingShows` | internal/capability/capability.go:610-651 | a listing shows exactly the provider's registered operations, by id, and exactly their effects |
| `RegistryOrder.DeclareExactly` | internal/capability/capability.go:200-270 | a provider is accepted if and only if it gets along with those declared and with those that operations are registered for |
| `RegistryOrder.PlaySoundly` | internal/capability/capability.go:200-651 | accepted calls come in time and leave a registry that holds exactly their contents, which are in harmony |
| `RegistryOrder.PlayCompletely` | internal/capability/capability.go:200-651 | contents in harmony are accepted in every order that comes in time |
| `RegistryOrder.OrderIsNotSeen` | internal/capability/capability.go:451-540 | with the same contents, in any order and however operations are grouped into calls, a program starts if and only if its calls come in time, and with the same registry |
| `RegistryOrder.OutOfTurnIsRefused` | internal/capability/capability.go:200-270 | in every run, a registration for a provider before its own declaration, or before that of one whose vendor is spelled otherwise, makes that declaration fail |
| `RegistryOrder.AcceptedExactly` | internal/capability/capability.go:200-651 | a program starts if and only if what it declares and registers fits, whatever the order, and its calls come in time |
| `RegistryOrder.OrderIsSeenExactly` | internal/capability/capability.go:451-540 | two orders of the same calls are accepted alike if and only if their contents do not fit anyway, or both come in time, or neither does; accepted, they leave the same registry |
| `RegistryOrder.InTurnIsTimely` | internal/capability/capability.go:200-651 | where every provider is declared before its operations, every order comes in time |
| `RegistryOrder.UndeclaredProviderIsSeen` | internal/capability/capability.go:567-651 | for operations of a provider nobody declares the order can be seen: one order of two calls is accepted and the other refused |
| `Registry.RenamesResolveOnce` | internal/capability/capability.go:491-540 | in an accepted registry a former tool id belongs to one provider and resolves in one step to a registered tool of it, and a registered id stands for itself |
| `RenameConfig.Store.RenameService` | internal/config/renameentry.go:21-37 | the loop over the connections gives the renamed configuration, and the references rewritten, or the problem and no change |
| `RenameConfig.Store.RenameConnection` | internal/config/renameentry.go:41-56 | the same for a connection and the defaults that name it |
| `RenameConfig.Store.RenameCredential` | internal/config/renameentry.go:61-94 | the same for a credential, its readers and those that release it |
| `RenameConfig.RenamesKeepReferences` | internal/config/renameentry.go:19-94 | no rename leaves a reference behind |
| `RenameConfig.ReferencesLeadToTheSame` | internal/config/renameentry.go:19-94 | every reference leads to the entry it led to, with its id |
| `RenameConfig.ServiceRenameIsUndone` | internal/config/renameentry.go:19-37 | the reverse rename is accepted, and restores the configuration if and only if nothing referred to the new name before |
| `RenameConfig.CredentialRenameIsUndone` | internal/config/renameentry.go:58-94 | the same for credentials, read or released |
| `RenameConfig.ConnectionRenameIsUndone` | internal/config/renameentry.go:39-56 | the same for connections and defaults |
| `RenameConfig.ServiceRenameKeepsRefusals` | internal/config/config.go:1486-1538 | renaming a service leaves the refusals of every tool at every time unchanged on every connection that did not refer to the new name before |
| `RenameConfig.CredentialRenameKeepsRefusals` | internal/config/config.go:1486-1538 | renaming a credential leaves every refusal unchanged |
| `RenameConfig.ConnectionRenameKeepsRefusals` | internal/config/config.go:1486-1538 | a renamed connection refuses what it refused, and its old name is unknown |
| `RenameConfig.OffersBeforeItsLimit` | internal/config/expiry.go:51-62 | a tool the selection offers is offered exactly while the connection is not switched off and the time is before its limit; a limit that does not read is past |
| `RenameConfig.DanglingServiceChangesOffer` | internal/config/config.go:1486-1538 | a connection that referred to the new name before keeps all its refusals if and only if the service has no provider or the connection offers nothing anyway: targets outdated, or a list of tools or effects that selects none there can be, as an empty one |
| `RenameConfig.ProviderCanLoseATool` | internal/config/config.go:1486-1538 | a connection that gets a provider this way can lose a tool it selects by id or effect, for its targets may not reach it |
| `RenameConfig.ProviderCanGainATool` | internal/config/toolprefix.go:12-60 | and gain one under a prefix, which covers nothing without a provider |
| `RenameConfig.RefusalsAreKeptExactly` | internal/config/config.go:1486-1538 | so exactly these and the connections that did not refer to the new name keep the refusals of every tool that can be registered, for every catalog and time |

## Left out

- Compact.CompactionIsSound: the comparison of `minimum` and `maximum` in 64-bit floating point is modelled exactly; output cleaning changes no number, so no statement here depends on the rounding.
- Compact.ReportIsExact: schemas that cannot be read (a type that is no string, properties that are no object) are not modelled; neither are `pattern`, `anyOf` and `x-form`, which compaction never reads.
- Result.ResultSatisfiesPublished: stated for answers without a field selection, which may remove members the schema requires; that selecting and compacting commute is proved instead. The list a selection applies to is a parameter. How 64-bit floating point writes a number again is an arbitrary function; integer keywords (`minItems` and the like) are not written again by it.
- Result.ImpliedIsSound: relies on scalar `enum` values, since an object without an implied member differs from the enumerated one.
- Validation.Validate: output mode only; `minProperties`, `maxProperties`, `anyOf` and schemas for additional members are held against input alone. The texts of the messages are reasons and places.
- EqualityKey.KeyDecidesEquality: which numbers `big.Rat` reads, given its limits on exponents, and which characters strconv.IsPrint accepts are parameters; a number that is not read is compared by its text.
- IdScanner.ScanFindsId: an id under a key that spells "id" with escapes is not found, as in the code; bytes are characters, and the buffer's reuse of memory is not modelled.
- McpLine.OversizedRequestKeepsItsId: a key that spells "id" with escapes, which a whole message is read with, is not found in an oversized one, as in the code.
- McpCalls.EveryCallIsAnsweredOnce: writes to standard output succeed; what a tool does while it works, deadlines and the invocation log are not modelled.
- McpRoots.NextKeeps: the parsing of file URIs into directories is not modelled, and time passes only as the step that ends a round.
- McpRestart.RestartsAreTransparent: the successor is the same program, starting the new program either happens or fails, and the messages themselves are handled by an uninterpreted function of the session; an oversized line has no effect but its refusal.
- McpRestart.ReachedRestartIsLossless: that a server only reaches such states is taken from initialize, decodeMCPClientInfo, rootDirs and the log as a law of the functions that stand for them; the sequence of root requests stays within 2^30. A directory fits once carried because a byte that is not UTF-8 takes three characters of a root URI.
- Search.FindAnswer: the scores of `relevance`, lower-casing, base64 and SHA-256 are uninterpreted functions; the fingerprint may collide, and `Search.CursorIsBound` says what follows. The connection of a request is already a name.
- Discovery.AnswerIsLossless: rests on names of connections without spaces, which the configuration checks; open targets, titles and required arguments of an entry are not modelled.
- Approvals.FindHandRenames: connection ids are unique and names not empty, which the configuration checks; the open connections of a report and the differences it shows for them are not modelled.
- Origins.OriginOf: reading and verifying the day files is not modelled; each line comes with the reader's verdicts. The order of lines is that of their times.
- Backups.Store.BackupCurrent: file errors are not modelled, so every removal of a rotation succeeds; whether a file was edited by hand is given. The clock never goes back between backups, and no other program adds files that take part in the rotation; `Backups.SurvivesExactly` says what happens then.
- HomeMigration.MigrationIsSafe: the legacy directory does not change while it is copied, though programs of older versions could change files not covered by the two locks they share; durability of a rename after a power failure is not modelled.
- HomeMigration.Root.MigrateHome: of file errors only those that the permissions of copied directories cause are tied to the tree. Unreadable sources, a full disk and names the target's file system refuses are failures that may come at any step; a process of the superuser, whom permissions do not stop, and a umask that takes permissions from the owner are not modelled.
- HomeMigration.MigrationIsSafe: the target does not exist at the start, and nothing but these processes creates it or staging directories.
- Registry.Registry.Register: the checks of one descriptor and of one provider by itself are given as facts about it; testers, browsers, profiles and handlers are not modelled.
- Registry.Registry.ValidateRenames: which of several problems is reported is not modelled, only whether there is one.
- RenameConfig.RefusalsAreKeptExactly: what providers say (default effects, which targets reach a tool) are arbitrary functions, except that no provider is named "", so there are no default effects for it and all is reached; tools are those registration accepts by id and effect, under any provider's name.
- Command definitions, help, terminal and browser interfaces, rendering, the vault and its process, secrets and redaction, self-update: not part of this model.
- Selecting a connection for an invocation (internal/application/application.go:1342-1392) and the tools, providers and connections listings: each is a short case distinction over what is modelled.
- The textual differences of scopes (internal/approval/approval.go:368-435) and the migration of targets (internal/config/config.go): they would add only easy members.
