# A model of lgmagic

lgmagic is a driver, a daemon and tools for the LG Magic Remote. This project
models its five algorithmic cores and states what they promise:

- **TOML reader and writer**, and the stores above them. `Decimal` is the number
  text, `TomlTree` the tree with its path operations, `TomlText` the writer's
  text, `TomlGrammar` the reader's grammar; `TomlWriter` and `TomlReader` are
  the two as the program runs them (an output stream, a cursor with a tree that
  grows in place). `TomlRoundTrip` says what survives a trip through text.
  `TomlWritten` is TOML as a person writes it, put together from its parts and
  without a reader; `TomlWrittenStrings`, `TomlWrittenNumbers`,
  `TomlWrittenValues` and `TomlWrittenDocuments` prove that the reader takes
  exactly that, and `TomlMeaning` what the tree then holds at every path.
  `Profiles`, `ProfilesTrip` and `DeviceConfig` are device configurations,
  `Documents` is what a document says about one, `AtomicFile` the file protocol
  under failing calls and a dying process; `Store`, `Bus`, `Agreement` and
  `Daemon` are the transactions that keep memory and disk the same, `Requests`
  what a bus request means.
- **D-Bus codec and stream**: `DbusWire`, `DbusMarshal`, `DbusFields`,
  `DbusValues`, `DbusStream`, and `DbusReceiver` and `DbusVerdict`, which read
  the same bytes by their positions. The wire format is that of the D-Bus
  Specification, "Marshaling (Wire Format)" and "Message Protocol".
- **Gauss elimination and the Levenberg-Marquardt loop** over the reals, in any
  dimension: `Linear`, `Gauss`, `LevMar`, `StepModel` (what a step is for).
- **The airmouse engine**: `Airmouse`.
- **The input path**: `Kernel` and `KernelReports` (report decoder and input
  core), `Pipeline` and `PipelineRun` (button map, held keys, wheel), `Pairing`
  and `PairingOrder` (which keyboard gets which IMU, and when the order of the
  scan decides).

Where the program changes state step by step there is a class or a method with
the same fields, loops and exits, proved equal to a function; the lemmas are
about the function.

Conventions. A `char` or a `byte` stands for one byte. A TOML float is a decimal
(`Decimal.Dec`): for a number in a document the one that is written there, for
a double the shortest decimal that reads as it, 0.1 and not the 55 digits of its
binary value. A pointer into a TOML tree is the path of keys that
leads to the table. System calls, chunks from a socket, residuals and Jacobians
are parameters.

Where a comment in the repository says something else than its code, the model
follows the code:

- `tools/include/toml.h:15` says `%.15g` round-trips doubles; a number does
  exactly when its shortest decimal has at most 15 significant digits
  (`Decimal.FormatRoundTrip`).
- `tools/include/daemon_pipeline.h:49-50` says the filter gain comes from the
  profile or the global config; it always comes from the global config
  (`Pipeline.GlobalGainAlwaysWins`).
- `tools/src/daemon_bus.c:98` says a failed rollback keeps the defaults; it
  keeps whatever was read before the fault, which is the defaults exactly when
  nothing was (`Agreement.RollbackLeavesDefaultsExactly`).
- `tools/src/daemon_bus.c:546-548` lets a scroll speed of zero through, which the
  next load refuses (`Agreement.ZeroIsAcceptedThenRefused`).
- `tools/src/pairing.c:28` says "" never matches ""; `uniq_eq` itself says they
  match, its caller asks for an address first (`Pairing.UniqEqual`).
- `tools/include/pairing.h:43-46` speaks of the sole keyboard candidate; the code
  takes the sole keyboard that is still free, so the scan order can decide;
  `PairingOrder.OrderFreeExactly` says for which devices it does not.

## Model

| member | source | states |
|---|---|---|
| Decimal.LayoutRoundTrip | tools/src/toml.c:1063-1074 | the text written for a number reads back as that number |
| Decimal.FormatRoundTrip | tools/src/toml.c:1063-1074 | writing and reading a decimal gives it rounded to 15 significant digits, and gives it unchanged exactly when it has no more |
| Decimal.RoundingFixesShort | tools/src/toml.c:1063-1073 | rounding leaves at most 15 digits and fixes exactly the short numbers |
| Decimal.RoundToMagnitude | tools/src/toml.c:1063-1073 | rounding up carries into at most one new leading digit |
| Decimal.NormalizeVal | tools/src/toml.c:1063-1074 | the normal form of a decimal is the same number |
| TomlTree.EnterSteps | tools/src/toml.c:486-509 | entering a dotted path at once is entering its front and then the whole: the walk may stop and resume anywhere |
| TomlTree.EnterBelow | tools/src/toml.c:486-509 | entering a path below an existing table works inside that table only |
| TomlForm.CanonIdentity | tools/src/toml.c:1099-1139 | moving scalars before sub-tables and rounding floats changes nothing exactly when the tree is already in that form |
| TomlForm.FindInCanon | tools/src/toml.c:1099-1139 | the reordering loses no member: each key finds the rounded value it had |
| TomlGrammar.KeepsCur | tools/src/toml.c:733-758 | adding a binding never invalidates the table the current header opened |
| TomlScalarTrip.StringTrip | tools/src/toml.c:1019-1042 | every string, with any escapes its bytes need, is read back as it was |
| TomlScalarTrip.IntTrip | tools/src/toml.c:1060-1062 | every 64-bit integer is read back |
| TomlScalarTrip.FloatTrip | tools/src/toml.c:1063-1074 | every finite float is read back rounded to 15 digits, never as an integer |
| TomlScalarTrip.ValueTrip | tools/src/toml.c:1052-1092 | every scalar and array of strings is read back, floats rounded |
| TomlScalarTrip.PathTrip | tools/src/toml.c:1044-1050 | a dotted path of any keys, quoted where needed, is read back segment by segment |
| TomlRoundTrip.LineTrip | tools/src/toml.c:720-770 | one dumped binding appends exactly its member to the current table |
| TomlRoundTrip.HeaderTrip | tools/src/toml.c:690-719 | one dumped header opens exactly the new table of its path |
| TomlRoundTrip.TableTrip | tools/src/toml.c:1099-1139 | the text of a table read at its path fills the table there with the canonical form and touches nothing else |
| TomlRoundTrip.ParseOfDump | tools/src/toml.c:670-781 | for every tree with unique keys, C strings, finite floats and nesting below 64, parsing the dumped text succeeds and gives the tree with scalars moved stably before sub-tables and floats rounded |
| TomlRoundTrip.RoundTripIsIdentity | tools/src/toml.c:1141-1158 | the trip is the identity exactly on trees in that form |
| TomlParsed.ParsedTreeIsWellFormed | tools/src/toml.c:670-781 | whatever text is parsed, the tree has unique keys, C strings and integers that fit, and can be written back if its floats are finite |
| TomlReader.TableGet | tools/src/toml.c:839-850 | the linear search finds the first member with the key |
| TomlReader.Parser.SkipWs | tools/src/toml.c:196-219 | the cursor moves past exactly the blanks, newlines and comments the grammar skips; TomlWrittenValues.GapsSkip and TomlWrittenValues.WsIsGaps say which these are |
| TomlReader.Parser.SkipLineEnd | tools/src/toml.c:221-235 | a statement must end its line; what may follow it is what the grammar allows |
| TomlReader.Parser.ParseUnicode | tools/src/toml.c:297-350 | a \u escape gives the UTF-8 bytes of its code point or the grammar's error |
| TomlReader.Parser.ParseString | tools/src/toml.c:237-383 | both kinds of string give the bytes and the end the grammar gives, or its error |
| TomlReader.Parser.ParseKeySegment | tools/src/toml.c:431-445 | a bare or quoted key as in the grammar |
| TomlReader.Parser.ParseKeyPath | tools/src/toml.c:447-484 | a dotted key path as in the grammar |
| TomlReader.Parser.ParseArray | tools/src/toml.c:530-583 | an array of strings as in the grammar, with its errors |
| TomlReader.Parser.CollectNumber | tools/src/toml.c:609-640 | the token loop collects what the grammar collects, in a buffer of 64 bytes |
| TomlReader.Parser.ParseNumber | tools/src/toml.c:596-667 | integers and floats by the characters seen, or the grammar's error |
| TomlReader.Parser.ParseValue | tools/src/toml.c:512-668 | any value as in the grammar |
| TomlReader.Parser.EnterTable | tools/src/toml.c:486-509 | walking and creating tables in place gives the tree of the path function, and fails where a value is in the way |
| TomlReader.Parser.TableAdd | tools/src/toml.c:86-111 | a member is appended once; a second one with its key is refused |
| TomlReader.Parser.ParseHeader | tools/src/toml.c:690-719 | a header statement has the grammar's effect on tree and current table |
| TomlReader.Parser.ParseKeyValue | tools/src/toml.c:720-770 | a binding has the grammar's effect, or its first error is kept |
| TomlReader.Parse | tools/src/toml.c:670-781 | the reader returns the tree the grammar gives the text, or the grammar's first error; TomlWrittenDocuments.ParseExactly and TomlMeaning.DocumentMeans say what that tree is |
| TomlWritten.OneForm | tools/src/toml.c:325-352 | a code point of 16 bits has one UTF-8 form |
| TomlWrittenStrings.QuotedReads | tools/src/toml.c:237-383 | a string in single or double quotes, of characters as they are, short escapes and \u escapes, is read as what it stands for; a \u escape stands for the UTF-8 form of its code point |
| TomlWrittenStrings.StringIsQuoted | tools/src/toml.c:237-383 | whatever is read as a string is such a string |
| TomlWrittenStrings.SegsRead | tools/src/toml.c:403-484 | bare and quoted keys with points in between are read as the path of what they stand for |
| TomlWrittenStrings.KeyPathIsSegs | tools/src/toml.c:403-484 | whatever is read as a key path is such keys |
| TomlWrittenNumbers.FormReads | tools/src/toml.c:646-654 | sign, digits, fraction and exponent are read as the digits with the point moved |
| TomlWritten.FormNumber | tools/src/toml.c:646-654 | and that is the number they denote |
| TomlWrittenNumbers.NumberReads | tools/src/toml.c:596-667 | a number with underscores, points and exponents is read as its first 63 characters say without the underscores: a float with a point or an exponent, else an integer of 64 bits |
| TomlWrittenNumbers.NumberIsWritten | tools/src/toml.c:596-667 | whatever is read as a number is such a number |
| TomlWrittenValues.CommentSkips | tools/src/toml.c:204-208 | a comment is skipped up to the end of its line and no further |
| TomlWrittenValues.GapsSkip | tools/src/toml.c:196-219 | blanks, newlines and comments in front of a text are skipped |
| TomlWrittenValues.WsIsGaps | tools/src/toml.c:196-219 | whatever is skipped is blanks, newlines and comments; a comment without its newline ends the text |
| TomlWrittenValues.ArrayReads | tools/src/toml.c:530-583 | quoted strings with commas in between, one more comma or not, and white space and comments anywhere, are read as the array of what they stand for |
| TomlWrittenValues.ArrayIsItems | tools/src/toml.c:530-583 | whatever is read as an array is such a list |
| TomlWrittenValues.ValueReads | tools/src/toml.c:512-668 | every way to write a value is read as that value |
| TomlWrittenValues.ValueIsWritten | tools/src/toml.c:512-668 | whatever is read as a value is one of those ways |
| TomlWrittenDocuments.TailSkips | tools/src/toml.c:221-235 | blanks and a comment behind a statement end its line and nothing of the next |
| TomlWrittenDocuments.DocumentReads | tools/src/toml.c:670-781 | a document put together from headers, bindings, white space and comments is read as the tree of its statements, and refused when they give none |
| TomlWrittenDocuments.ParseExactly | tools/src/toml.c:670-781 | a text is accepted with a tree exactly when it is such a document with that tree |
| TomlWrittenDocuments.CommentLine | tools/src/toml.c:202-212 | a comment line in front of any text changes nothing |
| TomlWrittenDocuments.CommentBehind | tools/src/toml.c:221-235 | a comment behind a header or binding of any document, put there or taken away, changes nothing |
| TomlWrittenDocuments.SameStatements | tools/src/toml.c:670-781 | two documents of the same statements are read alike, whatever white space and comments they hold and however their values are spelled |
| TomlMeaning.EnterAt | tools/src/toml.c:486-509 | entering a path makes tables of it and changes nothing else, and fails exactly when a value is on it |
| TomlMeaning.AddMemberAt | tools/src/toml.c:86-111 | adding a member binds its one path, and is refused exactly when something is there |
| TomlMeaning.DocumentMeans | tools/src/toml.c:670-781 | a document is accepted exactly when no two statements need different things at one path; then every path leads to what is bound there, to a table where a header or binding makes one, and to nothing elsewhere |
| TomlWriter.IsBareSafe | tools/src/toml.c:1009-1017 | a key goes unquoted exactly when it is nonempty and all bare characters |
| TomlWriter.Writer.DumpString | tools/src/toml.c:1019-1042 | the stream grows by the quoted and escaped string |
| TomlWriter.Writer.DumpValue | tools/src/toml.c:1052-1092 | the stream grows by the text of the scalar |
| TomlWriter.Writer.DumpTable | tools/src/toml.c:1099-1139 | scalars first, then each sub-table behind its absolute header; fails exactly when a header would pass 64 segments |
| TomlWriter.Dump | tools/src/toml.c:1141-1158 | the document of the tree, or none when it nests too deep |
| DbusWire.U32Trip | tools/src/dbus_client.c:101-109 | a little-endian length word reads back as the number |
| DbusWire.PadTwice | tools/src/dbus_client.c:121-129 | padding to 8 after padding to 4 ends where padding to 8 alone ends, so a value's trailing padding never shifts the next field |
| DbusMarshal.WriteBuf.PadTo | tools/src/dbus_client.c:121-129 | zeros up to the alignment of the absolute position, not counted in the length |
| DbusMarshal.WriteBuf.PutStr | tools/src/dbus_client.c:131-144 | length, bytes, NUL and padding, of which the padding is not counted |
| DbusMarshal.WriteBuf.HdrField | tools/src/dbus_client.c:194-205 | one header field at the next multiple of 8, by its encoding |
| DbusMarshal.WriteBuf.BodyAddArg | tools/src/dbus_client.c:163-192 | one argument at its own alignment |
| DbusMarshal.BuildHeader | tools/src/dbus_client.c:207-266 | the header with both length words patched in place, padded to 8 |
| DbusMarshal.BuildCall | tools/src/dbus_client.c:207-266 | the marshalled call is byte for byte the encoding of its message, which DbusReceiver.CallIsReceived reads field by field, and is refused exactly when that is over the size cap |
| DbusFields.FieldsTrip | tools/src/dbus_client.c:805-899 | parsing encoded fields from any position succeeds and applies each of them in order |
| DbusFields.ApplyAllCarries | tools/src/dbus_client.c:847-885 | with each code at most once, what is kept is exactly the error name, signature and reply serial that were written, and nothing that was not |
| DbusFields.HeaderFieldsTrip | tools/src/dbus_client.c:805-899 | for every encoded message the field parser returns exactly what its fields carry |
| DbusFields.ParseValue | tools/src/dbus_client.c:826-890 | one field value with its alignment and bounds, by the specification |
| DbusFields.ParseHeaderFields | tools/src/dbus_client.c:805-899 | the parsing loop returns what the specification parse of the fields gives, for any bytes |
| DbusValues.RdStrTrip | tools/src/dbus_client.c:317-349 | reading an encoded string gives its bytes and leaves what follows |
| DbusValues.BodyTrip | tools/src/dbus_client.c:373-468 | reading the encoding of any string, array of strings or variant of a string gives the value and consumes it to the last byte |
| DbusValues.Reader.SkipPad | tools/src/dbus_client.c:307-315 | the cursor moves to the alignment or to the end |
| DbusValues.Reader.ReadStr | tools/src/dbus_client.c:317-349 | the string at the cursor, or an error for bad lengths and a missing NUL |
| DbusValues.Reader.ReadArray | tools/src/dbus_client.c:387-423 | the strings that fill the announced length exactly |
| DbusValues.Reader.ReadValue | tools/src/dbus_client.c:373-468 | the value of the signature at the cursor, or an error, for any bytes |
| DbusStream.FrameTrip | tools/src/dbus_client.c:955-986 | the length words of an encoded message give back exactly its own bytes from the front of any stream |
| DbusStream.SplitTrip | tools/src/dbus_client.c:955-986 | any concatenation of messages is split back into those messages |
| DbusStream.ReplyIsReturned | tools/src/dbus_client.c:951-1070 | after any number of signals the call returns exactly the value its reply encodes and leaves the rest of the stream |
| DbusStream.ErrorIsReported | tools/src/dbus_client.c:1005-1026 | an error reply gives its name, or the default one, and its text, whatever serial it answers |
| DbusStream.Client.Refill | tools/src/dbus_client.c:514-552 | the buffer grows by the next chunk and the stream as a whole is unchanged |
| DbusStream.Client.ReadN | tools/src/dbus_client.c:554-573 | exactly the first n bytes of the stream, however it is cut into chunks; fails exactly when there are fewer |
| DbusStream.Client.ReadLine | tools/src/dbus_client.c:576-614 | the first line without its ending; whether it fits does not depend on the chunks |
| DbusStream.Client.TakePart | tools/src/dbus_client.c:587-612 | one round on what is buffered either settles the line or keeps all of it |
| DbusStream.Client.ReadMessage | tools/src/dbus_client.c:955-986 | the first message of the stream, however it is cut |
| DbusStream.Client.AwaitReply | tools/src/dbus_client.c:951-1070 | messages are read until one settles the call, as in the specification of waiting |
| DbusStream.Client.Call | tools/src/dbus_client.c:901-1076 | what a call sends is that call to a receiver: the object in field 1, the interface in 2, the method in 3, the destination in 6, the argument letters in 8 and the arguments in the body; it gives what waiting on the stream gives; an oversized call sends nothing |
| DbusReceiver.SeenTrip | tools/src/dbus_client.c:194-205 | a receiver that reads all header fields by position finds every encoded field, in order |
| DbusReceiver.MessageIsSeen | tools/src/dbus_client.c:207-266 | an encoded message has its kind, flags, lengths, serial, fields and body where the format has them |
| DbusReceiver.ArgsTrip | tools/src/dbus_client.c:163-192 | a receiver reads the arguments back from the body by their letters |
| DbusReceiver.CallIsReceived | tools/src/dbus_client.c:207-266 | the encoding of a call is that call to any receiver: little-endian, kind 1, the serial at 8, and the five fields under their own codes |
| DbusReceiver.ClientKeepsWhatIsThere | tools/src/dbus_client.c:805-899 | of the header fields of any message the client keeps the last text under 4, the last under 8 and the last number under 5, and refuses the message exactly when a receiver finds them malformed |
| DbusVerdict.BodyExactly | tools/src/dbus_client.c:373-468 | for any bytes, the client takes a body as a value exactly when it is that value by its positions and nothing else |
| DbusVerdict.VerdictExactly | tools/src/dbus_client.c:988-1070 | for any message: a signal is passed over, an error gives the name in field 4 or the default one and the text that is its body, a reply to this call its body, anything else a failure |
| DbusVerdict.FrameExactly | tools/src/dbus_client.c:955-975 | a fixed header is taken exactly when it is little-endian and announces at most a mebibyte |
| Gauss.EliminateKeeps | tools/src/lm.c:140-146 | subtracting a multiple of the pivot row keeps the solution set |
| Gauss.SwapKeeps | tools/src/lm.c:133-139 | swapping rows keeps the solution set |
| Gauss.OnlySolution | tools/src/lm.c:148-154 | a triangular system without zero on its diagonal has one solution at most |
| Gauss.SolvedIsRegular | tools/src/lm.c:110-156 | a solved matrix maps only zero to zero, so an exactly singular one is always refused |
| Gauss.FindPivot | tools/src/lm.c:121-132 | the pivot has the largest absolute value of its column from the diagonal down |
| Gauss.EliminateRow | tools/src/lm.c:140-146 | one row changes, by the multiple that clears its entry below the pivot |
| Gauss.ClearColumn | tools/src/lm.c:140-146 | the column is zero below the diagonal, the solution set is kept, and every old row has, on the directions the finished rows vanish on, the value of a new one |
| Gauss.NoPivotMeans | tools/src/lm.c:129-132 | a column of the reduced system without a usable pivot shows in the original: back-substituting through the finished rows gives a direction that every original row nearly kills |
| Gauss.TriangularNearSingular | tools/src/lm.c:129-132 | what a refusal says is no empty phrase: for a triangular system it holds exactly when some diagonal entry is below 1e-15 |
| Gauss.Forward | tools/src/lm.c:121-147 | elimination ends in triangular form with the same solutions; or it stops, and then some direction with an entry 1 and zeros behind it is mapped below 1e-15 by every original row |
| Gauss.BackSubstitute | tools/src/lm.c:148-154 | back-substitution satisfies every row of a triangular system |
| Gauss.GaussSolve | tools/src/lm.c:110-156 | on success x satisfies every original equation and is the only vector that does; a refusal means that a column of A is within 1e-15, entry by entry, of a combination of the columns before it; A and b are unchanged |
| LevMar.DescentDirection | tools/src/lm.c:215-230 | every damped step satisfies g.d = -(the curvature along d plus the damping), so it is a descent direction, and g.d is zero only for the zero step |
| LevMar.DampedIsRegular | tools/src/lm.c:220-226 | the damped matrix is never exactly singular, for any Jacobian |
| LevMar.RunLowersCost | tools/src/lm.c:235-244 | between any two points of a run the later one costs strictly less |
| LevMar.AcceptedIsDescent | tools/src/lm.c:227-244 | an accepted step went strictly downhill |
| LevMar.MeanCost | tools/src/lm.c:98-106 | the mean of the squared residuals |
| LevMar.NormalEquations | tools/src/lm.c:202-211 | the two arrays hold the Gram matrix of J and J^T r |
| LevMar.Damp | tools/src/lm.c:218-225 | a copy with the damping on the diagonal, by the entry or by one where that is zero |
| LevMar.TryOnce | tools/src/lm.c:217-246 | a try moves to a cheaper point along a damped step, or is rejected because the damped matrix nearly kills a direction or because the solved step costs no less |
| LevMar.Iterate | tools/src/lm.c:192-250 | an iteration accepts the first step that any damping admits, or each of the ten dampings was rejected for one of those reasons |
| LevMar.Fit | tools/src/lm.c:158-262 | the fit ends within 100 accepted steps at a point that costs no more than the start, each step lowering the cost, because 100 were taken, the last gained too little, or no damping helps; fewer than six samples are refused |
| LevMar.NotStuckOnLine | tools/src/lm.c:213-250 | those reasons can fail: for a line with a residual no run ends at its start |
| StepModel.GradientMeans | tools/src/lm.c:202-211 | the gradient is half the derivative of the sum of squares: for linear residuals it gives their sum exactly |
| StepModel.StepMinimizes | tools/src/lm.c:215-230 | a solved step is the one place where the damped linear model of the residuals is smallest |
| StepModel.DampingGrows | tools/src/lm.c:213-250 | the damping of try t is a thousandth times ten to the t |
| StepModel.RunEnds | tools/src/lm.c:158-262 | a run ends after 100 accepted steps, where ten dampings come to nothing, or with an improvement below 1e-10 |
| Airmouse.Conservation | tools/src/airmouse.c:107-140 | on every axis, at every frame of every run, what came out and what the filter holds add up to the changes of the open frames: absorbed frames contribute nothing |
| Airmouse.OffsetsCancel | tools/src/airmouse.c:99-142 | an input offset that changes only while the gate is closed leaves no trace in output, movement or gate, on any frame |
| Airmouse.LatchHolds | tools/src/airmouse.c:65-77 | a deviation above hi keeps the gate open for that frame and the next nine |
| Airmouse.ClosedMeansQuiet | tools/src/airmouse.c:65-77 | when the gate is closed none of the last ten frames deviated by more than hi |
| Airmouse.EventuallyClosed | tools/src/airmouse.c:52-81 | under a constant accelerometer the gate is closed after a stated number of frames and stays closed |
| Airmouse.ClosesExactly | tools/src/airmouse.c:87-121 | from a reset a constant reading closes the gate for good exactly when the gate is on and the reading is not zero |
| Airmouse.NeverArmed | tools/src/airmouse.c:87-97 | without an accelerometer the gate never decides |
| Airmouse.FollowShrinks | tools/src/airmouse.c:78-79 | following the baseline shrinks the deviation to 98 percent |
| Airmouse.Engine.GateDecision | tools/src/airmouse.c:52-81 | the gate's new latch, state and baseline, the baseline moved after the decision |
| Airmouse.Engine.ArmGate | tools/src/airmouse.c:87-97 | the first reading that is not zero becomes the baseline |
| Airmouse.Engine.Process | tools/src/airmouse.c:83-143 | one frame has the effect of the step function; the horizontal movement is the third axis of the output times the scale, negated and truncated towards zero, the vertical one the second |
| Airmouse.PointerTravels | tools/src/airmouse.c:99-142 | over any run the pointer has gone, on each of its axes, minus the scale times what the gate let through of the axis that moves it, less what the filter holds and less than one count a frame |
| Airmouse.OneAxisMoves | tools/src/airmouse.c:122-142 | input that changes on the third axis only moves the pointer sideways only, on the second axis up and down only |
| Airmouse.GateExactly | tools/src/airmouse.c:52-81 | an open gate closes exactly when every axis is within half of lo and none of the last ten frames was a jolt, a closed one opens exactly when some axis exceeds lo, and the baseline moves a fiftieth of the way |
| Airmouse.ArmingCloses | tools/src/airmouse.c:87-121 | the frame that arms the gate behind a first one closes it at once and lets nothing in |
| Profiles.KeymapBijection | tools/src/keymap.c:43-63 | the two name searches are inverse to each other |
| Profiles.SetButtonMeans | tools/src/profiles.c:42-64 | setting a button changes the target of that one key and maps no key twice |
| Profiles.MergeMapMeans | tools/src/profiles.c:111-125 | after a merge a key maps as in the source where that maps it, else as before |
| ProfilesTrip.MapTrip | tools/src/profiles.c:460-477 | a button map written by key names is read back entry by entry |
| ProfilesTrip.ProfileTrip | tools/src/profiles.c:439-478 | a written profile table is read back field by field, unset fields as their defaults |
| ProfilesTrip.ConfigTrip | tools/src/profiles.c:258-340 | reading a written configuration succeeds exactly when it is valid, and then gives it back |
| ProfilesTrip.ConfigForm | tools/src/profiles.c:415-484 | a written configuration can always be dumped, and its canonical tree is that of the configuration with rounded numbers |
| ProfilesTrip.StoredTrip | tools/src/profiles.c:258-340 | what a dumped and parsed configuration loads as is the configuration itself exactly when it is valid and its numbers have at most 15 digits |
| Decimal.ValOfInt | tools/src/profiles.c:173-174 | an integer stands for the number it is |
| Documents.ReadMapSays | tools/src/profiles.c:222-255 | a button map is read exactly when every member binds a key name to a key name; each mapped key then has its target and no other key one |
| Documents.ProfileExactly | tools/src/profiles.c:209-256 | a profile table is accepted exactly when some profile is what it says, and is read as one: the three numbers, from floats or integers, in their ranges, marked as set where they are there |
| Documents.DocumentExactly | tools/src/profiles.c:258-340 | a well-formed document over the defaults is accepted exactly when some configuration is what it says, and is read as one |
| DeviceConfig.NameCode | tools/src/keymap.c:43-53 | the code of a key name, negative for an unknown one |
| DeviceConfig.CodeName | tools/src/keymap.c:55-63 | the name of a key code, if it has one |
| DeviceConfig.Validate | tools/src/profiles.c:73-109 | true exactly for a named profile with numbers in range and known keys |
| DeviceConfig.FindProfile | tools/src/profiles.c:127-136 | the first profile of the name |
| DeviceConfig.Record.SetButton | tools/src/profiles.c:42-64 | the entry of the key is replaced in place or appended |
| DeviceConfig.Record.MergeFrom | tools/src/profiles.c:111-125 | the record becomes the merge; the flag of the filter gain is not taken over |
| DeviceConfig.Record.ParseFields | tools/src/profiles.c:209-256 | a new profile is filled from its table, or the table is refused |
| DeviceConfig.Device.Parse | tools/src/profiles.c:258-340 | the record holds what the tree says, and on failure what was read before the fault |
| DeviceConfig.Device.Check | tools/src/profiles.c:342-362 | true exactly for valid profiles and an active one that is defined or the default |
| DeviceConfig.Device.EnsureActive | tools/src/profiles.c:395-413 | the active profile is found, or appended with the defaults |
| DeviceConfig.Device.Mutate | tools/src/daemon_bus.c:422-583 | the record changes as the function says, and as Requests.ChangedBy says: the one field of the active profile, or the calibration path, and nothing else |
| DeviceConfig.Device.Write | tools/src/profiles.c:415-484 | the document of the configuration, none when a key has no name |
| AtomicFile.SaveIsAtomic | tools/src/daemon_config.c:170-214 | wherever a save stops, also between a rename that took effect and its return, it has either moved its complete text onto the target or changed nothing but the temporary file; success is reported only in the first case, and then always unless the process died first |
| AtomicFile.SucceedsExactly | tools/src/daemon_config.c:170-214 | a save succeeds exactly when its path fits and each of its five calls works, or its seven calls when a stale temporary file has to go |
| AtomicFile.FilesAreWhole | tools/src/daemon_config.c:170-214 | over any sequence of saves with failures and deaths anywhere every file holds the complete text of the last save to it that reached its rename, or what it held at the start |
| AtomicFile.StaleTmpNeverBlocks | tools/src/daemon_config.c:181-188 | whatever happened before, a save whose calls work goes through |
| AtomicFile.Disk.AtomicWriteFile | tools/src/daemon_config.c:170-214 | the calls in their order with every early exit have the effect of the protocol function |
| Store.SavedTreeIsRead | tools/src/daemon_config.c:263-273 | a saved tree whose rename took effect is read back in canonical form; otherwise nothing that is read changes; it is saved exactly when its depth, its path length and every call allow it |
| Store.ProfileTreeMeans | tools/src/daemon_config.c:244-261 | the edited state document gives the device the profile and leaves every other device and member as it was |
| Store.OverlayInCanon | tools/src/daemon_config.c:88-95 | reordering the document changes no device's profile |
| Documents.OverlayExactly | tools/src/daemon_config.c:88-109 | the active profile of a device is the string at devices.<id>.profile |
| Documents.StateSays | tools/src/daemon_config.c:244-263 | an edited state document says so there, and a new one has version 2 |
| Store.SavedProfileIsLoaded | tools/src/daemon_config.c:216-280 | after a save that landed the device has the profile and every other device its own, whether the state file was absent, malformed or valid with finite floats; with the exact condition of success |
| Bus.MutationIsValidExactly | tools/src/daemon_bus.c:422-583 | an accepted mutation leaves a valid configuration exactly when its number is not zero and the active profile is defined or gets created |
| Bus.MutationIsStorable | tools/src/daemon_bus.c:422-583 | an accepted mutation leaves a configuration that can be written and read back |
| Bus.SteadyProfileTree | tools/src/daemon_config.c:244-263 | one edit of a state document with short numbers leaves them short |
| Bus.SteadyThroughEdits | tools/src/daemon_config.c:244-273 | and so does any number of edits, each saved and read back |
| Requests.ChangeMeans | tools/src/daemon_bus.c:422-583 | a scroll speed, a sensitivity or a button map is changed in the profile of the active name, which is appended with the defaults if there is none; one key of the map moves and all others stay; every other profile and field is as before |
| Requests.RequestMeans | tools/src/daemon_bus.c:422-583 | a change is invalid, and then changes nothing, exactly when a key is unknown, a scroll speed is not from 0 to 100, or a sensitivity not from 0 to 10000; one that is done has done what it says |
| Requests.SelectMeans | tools/src/daemon_bus.c:378-416 | selecting is refused exactly for a name that is neither "default" nor that of a profile |
| Agreement.PathsDiffer | tools/src/daemon_devices.c:144-163 | no valid device identity names the state file |
| Agreement.DeviceSaved | tools/src/daemon_config.c:282-320 | a device file whose save landed loads as the canonical form of its configuration; one that did not land changes nothing that is read |
| Agreement.SaveAgreesExactly | tools/src/daemon_bus.c:112-126 | after a successful save memory and disk agree exactly when the configuration is valid and its numbers are short |
| Agreement.ChangeAgreesExactly | tools/src/daemon_bus.c:112-126 | a change that was accepted and saved leaves memory and disk in agreement exactly when its number is not zero and has at most 15 digits; a failed one is rolled back completely |
| Agreement.SelectAgrees | tools/src/daemon_bus.c:378-416 | selecting a defined profile makes it active in memory and on disk and changes nothing else; a failure changes nothing |
| Agreement.ProfileSavedForOneDevice | tools/src/daemon_config.c:56-109 | loading the device after a save yields the saved profile over its former configuration; every other device loads what it did |
| Agreement.SessionAgrees | tools/src/daemon_bus.c:77-126 | over any session, with saves failing and the process dying anywhere, also between a rename and its answer, the live configuration is the one that loads from disk and is what the requests whose save landed make of the first |
| Agreement.LoadedIsSettled | tools/src/daemon_config.c:56-109 | a remote loaded from documents with short numbers starts in agreement exactly when its active profile is defined |
| Agreement.ZeroIsAcceptedThenRefused | tools/src/daemon_bus.c:526-568 | a speed of zero is accepted and saved, memory and disk then disagree, and the file no longer loads |
| Agreement.DefaultsStayExactly | tools/src/profiles.c:258-340 | reading a document leaves the defaults exactly when its first member that says something else comes after the fault: an ill-typed profile name; or no other name and an ill-typed calibration path; and so on through the airmouse switch and the first profile |
| Agreement.FailedLoadLeavesDefaultsExactly | tools/src/daemon_config.c:56-109 | a failed load leaves the defaults exactly when the device path is too long, the file is absent or does not parse, or reading it ends before anything was said |
| Agreement.RollbackLeavesDefaultsExactly | tools/src/daemon_bus.c:90-105 | a rollback whose load fails leaves the defaults exactly in those cases |
| Agreement.FailedLoadKeepsPart | tools/src/profiles.c:258-300 | an example: an active profile before an ill-typed calibration path is kept |
| Daemon.TableSetStr | tools/src/daemon_config.c:116-136 | the member is replaced in place or appended |
| Daemon.Remote.Load | tools/src/daemon_config.c:56-109 | the device file over the defaults, then the profile overlay |
| Daemon.Remote.SaveActive | tools/src/daemon_config.c:216-280 | the state file is edited and replaced, or left alone |
| Daemon.Remote.SaveConfig | tools/src/daemon_config.c:282-320 | the device file is written anew, or left alone |
| Daemon.Remote.Rollback | tools/src/daemon_bus.c:90-105 | the live configuration becomes what loads from disk |
| Daemon.Remote.MutateSave | tools/src/daemon_bus.c:112-126 | change, save, and roll back when the save fails |
| Daemon.Remote.SetProfile | tools/src/daemon_bus.c:378-416 | a profile that is not defined is refused; else it is saved and everything is loaded again |
| Daemon.Remote.Handle | tools/src/daemon_bus.c:378-607 | a request has the effect the session lemmas speak of; it is invalid exactly for unknown keys or numbers out of range, and a change that is done has changed what it names and nothing else |
| Pipeline.RefinesStatelessRemap | tools/src/daemon_pipeline.c:84-130 | over any run with a keyboard present, every event comes out under the map in force with its own value and each reconfiguration emits just its releases, also when the table of 32 overflows |
| Pipeline.WithoutKeyboardPinsStay | tools/src/daemon_pipeline.c:39-42 | without a keyboard nothing is released, and every sequence of events afterwards comes out as the stateless remap exactly when every tracked key maps as before |
| Pipeline.EventCoversExactly | tools/src/daemon_pipeline.c:84-130 | swap-remove keeps physical keys distinct, and every virtual key that is down stays covered exactly when the event is not a lost press |
| Pipeline.ConfigureReleasesExactly | tools/src/daemon_pipeline.c:35-42 | a reconfiguration lets go of exactly the tracked keys, so nothing is down afterwards exactly when every key was covered |
| Pipeline.NoKeyIsStuck | tools/src/daemon_pipeline.c:35-130 | in any run without a lost press every key that is down is the code some tracked key was pressed as, tracked keys are distinct, and after a reconfiguration nothing is down |
| Pipeline.LostPressSticks | tools/src/daemon_pipeline.c:111-116 | a press that finds the table full leaves exactly its virtual key down after the next reconfiguration |
| Pipeline.OverflowHappens | tools/src/daemon_pipeline.c:111-116 | from a pipeline that was never used, a frame for each of 33 presses and a reconfiguration leave the 33rd virtual key down and nothing in the table |
| Pipeline.HeldKeyIsPinned | tools/src/daemon_pipeline.c:89-101 | through any frames that do not release it and any change of the map without a keyboard, a held key stays tracked and repeats and releases the code it was pressed as |
| Pipeline.HeldKeyReturnsUnderNewMap | tools/src/daemon_pipeline.c:102-116 | a key held through a reconfiguration comes back with its next repeat as a key of the new map, and its release lets that go |
| Pipeline.ResolvedMap | tools/src/daemon_pipeline.c:44-55 | the map in force is that of the picked profile over keys that pass unchanged |
| Pipeline.SetupChooses | tools/src/daemon_pipeline.c:44-55 | after a reconfiguration every key, the scroll speed and the sensitivity are those of the profile the configuration names; without one, of the profile "default"; without that, built in |
| Pipeline.SetupMouse | tools/src/daemon_pipeline.c:57-76 | the airmouse starts anew with the sensitivity in force as its scale and the global gain, gate and thresholds, or stays as it was when the calibration file is broken |
| Pipeline.GlobalGainAlwaysWins | tools/src/daemon_pipeline.c:57-76 | over any run the filter gain in force is the global one of the last reconfiguration whose calibration file was not broken, whatever the profiles say, and so are the calibration and the airmouse switch |
| Pipeline.WheelConservation | tools/src/daemon_pipeline.c:132-142 | over any run with changing speeds, clicks sent plus the accumulator equal the sum of wheel times speed, and less than one click is held back |
| Pipeline.WheelExactly | tools/src/daemon_pipeline.c:132-142 | a turn asks for wheel times the scroll speed in force, and sends the whole clicks of that and what was held back, truncated towards zero, as one event if there are any |
| PipelineRun.Pipe.ReleaseHeld | tools/src/daemon_pipeline.c:39-42 | the releases go out from the end of the table, which is then empty |
| PipelineRun.Pipe.Setup | tools/src/daemon_pipeline.c:27-77 | a reconfiguration has the effect of the function, with its early return; Pipeline.SetupChooses and Pipeline.SetupMouse say what that is |
| PipelineRun.Pipe.FindHeld | tools/src/daemon_pipeline.c:89-91 | the last entry of the physical key |
| PipelineRun.Pipe.Lookup | tools/src/daemon_pipeline.c:105-110 | the target of a key under the map in force |
| PipelineRun.Pipe.Key | tools/src/daemon_pipeline.c:84-130 | one key event changes the table in place and emits one event |
| PipelineRun.Pipe.Keyboard | tools/src/daemon_pipeline.c:79-144 | one frame has the effect of the function on keys and wheel |
| Kernel.ReportKeepsStep | kernel/lgmagic_main.c:172-245 | under raw_only a report delivers nothing, or the release of the key that is down under the code it was pressed as and then the new press |
| Kernel.ReportKeepsStepExactly | kernel/lgmagic_main.c:172-271 | for any parameters and motion, driver and input core stay in step through a report exactly when its wheel is not turned into the key that is down and supported; otherwise nothing is down while the driver believes in a key |
| Kernel.OneKeyAtATime | kernel/lgmagic_main.c:172-245 | for any reports, repeats, reconfigurations and parameter changes: presses and releases alternate on the same code, at most one key is down, the daemon tracks at most that key, and no press is lost |
| Kernel.NothingStuckBehindDriver | tools/src/daemon_pipeline.c:35-130 | behind this driver no virtual key is ever stuck |
| Kernel.EmulationBreaksStep | kernel/lgmagic_main.c:232-245 | an example: without raw_only a wheel step takes a held UP key up while its button is down |
| Kernel.OverrideIsLocal | kernel/lgmagic_main.c:126-132 | key_0x8000 acts on the one code and in range only; under raw_only the wheel button is always ENTER |
| Kernel.ReportIsDecoded | kernel/lgmagic_main.c:199-289 | counter, six 16-bit samples, button and wheel of a report come out as they were sent, each sample on its own axis |
| Kernel.Drvdata.FindButton | kernel/lgmagic_main.c:215-216 | the first table entry of a button code |
| Kernel.Drvdata.Buttons | kernel/lgmagic_main.c:207-230 | the button half of a report reports and records what the function says |
| Kernel.Drvdata.RawEvent | kernel/lgmagic_main.c:172-292 | a report changes the driver and appends to the output of both devices as the functions say; foreign reports do nothing |
| Kernel.Drvdata.ReportImu | kernel/lgmagic_main.c:273-289 | the counter, the six axes in order and the end of the frame |
| KernelReports.DefaultKeycode | tools/src/keymap.c:175-184 | the default key of a button code, or -1 |
| KernelReports.DriverPressesDefaults | kernel/lgmagic_main.c:126-171 | while it only decodes, the driver presses for every button code the key the tools expect by default |
| KernelReports.ReportSays | kernel/lgmagic_main.c:172-271 | the key events, wheel steps and movements of one report, and whether it ends with a sync, from its bytes 17 to 19 |
| KernelReports.ModeExactly | kernel/lgmagic_main.c:232-271 | the airmouse mode is on exactly when the remote was swung and no known button but the wheel was pressed since |
| Pairing.SuccessUsesEachOnce | tools/src/pairing.c:82-145 | on any success no keyboard and no IMU is used twice, remotes follow keyboard order, and addresses are cut to 63 characters |
| Pairing.RemotesAreNamed | tools/src/pairing.c:48-151 | a remote is made of a scanned keyboard and IMU of their names and numbers, and with room every scanned keyboard makes one |
| Pairing.MatchIsMacPairing | tools/src/pairing.c:82-145 | when every IMU has the address of exactly one keyboard and no two share one, the result under every permutation of the scan is exactly the pairing by address |
| Pairing.OrderMatters | tools/src/pairing.c:112-123 | an example: an IMU without an address is paired after one with an address and ambiguous before it |
| PairingOrder.MatchIsPlaceAll | tools/src/pairing.c:48-151 | with room for every keyboard the match is decided by the keyboards and the IMUs, each in their own order |
| PairingOrder.OrderFreeExactly | tools/src/pairing.c:82-145 | every order of the scan gives the same remotes, or none, exactly when there is no keyboard, there are no two different IMUs, an IMU has the address of two keyboards, two keyboards have the address of no IMU, or the other keyboards are as many as the IMUs |
| PairingOrder.OneKeyboardOrder | tools/src/pairing.c:82-145 | with one keyboard that is exactly when there are no two different IMUs |
| PairingOrder.StrangerIsAmbiguous | tools/src/pairing.c:112-123 | with two keyboards or more, an IMU with the address of none of them is ambiguous in every order that scans it first |
| Pairing.UniqEqual | tools/src/pairing.c:29-46 | equality of addresses up to case |
| Pairing.EqualUpToCase | tools/src/pairing.c:29-46 | which is letter by letter |
| Pairing.FindKeyboards | tools/src/pairing.c:59-71 | the keyboards in scan order |
| Pairing.Scan | tools/src/pairing.c:84-100 | the count and the last of the matching and of the free keyboards |
| Pairing.PairDevice | tools/src/pairing.c:88-124 | an IMU is assigned, spare or ambiguous by those counts |
| Pairing.MatchDevices | tools/src/pairing.c:48-151 | one remote for each keyboard while there is room, or the ambiguity |

## Left out

- Sockets, poll timeouts, the AUTH handshake, sd-bus and polkit: the stream is a sequence of chunks and a bus request arrives with its checks passed.
- Allocation failure everywhere; after it `wb_pad` would not end.
- DbusMarshal.BuildCall: takes strings below 2^28 bytes and fewer than 256 arguments, because longer strings can wrap a 32-bit length word before the cap is looked at, and a longer signature sets the out-of-memory flag, after which the padding loop need not end.
- DbusStream.Client.Call: takes the same arguments as DbusMarshal.BuildCall, already typed; a bad input signature is refused before anything is sent and is not modelled.
- DbusFields.ParseValue: a string length field with no byte left behind it is malformed here; the C subtraction wraps there.
- DbusFields.ParseHeaderFields: takes that over from DbusFields.ParseValue.
- DbusValues.Reader.ReadStr: the same for the length of a string in a body, where the C subtraction wraps as well.
- Floating-point rounding, NaN and infinity, and overflow of casts to int: arithmetic is real, floats in documents are decimals.
- Decimal.FormatRoundTrip: `strtod` and `%.15g` are exact on decimals; the binary rounding of a double between them is not modelled, so a double stands for its shortest decimal.
- TomlReader.Parse: the line number of an error and its message text are not modelled, only which error comes first.
- A TOML tree is a value, tables are reached by key paths; ownership and freeing of nodes are not modelled.
- AtomicFile.FilesAreWhole: a rename is durable once it returns; a power cut that undoes it, directories, permissions and symbolic links other than as something that occupies the temporary name are not modelled.
- AtomicFile.SucceedsExactly: making the directories is one call before the save that works or not.
- Reading a file always works here when the file exists.
- The table of key names is a parameter with distinct codes and names; its 51 entries are not listed.
- Agreement.SessionAgrees: numbers of the documents at rest have at most 15 significant digits, and a document that is hand-edited during a session is not modelled.
- The pipeline's IMU frames: applying a calibration is not modelled, the airmouse takes the calibrated input. Failing writes to the virtual devices are not modelled.
- Kernel.OneKeyAtATime: the input core is modelled from its contract (unknown and unchanged keys are dropped, a held key can repeat); dropped events after a buffer overrun are not modelled.
- Kernel.Drvdata.RawEvent: the motion estimate of the in-kernel airmouse is a parameter.
- LevMar.Fit: residuals and Jacobian are functions of the point; the square roots in them and the starting point from the sample means are not modelled.
- LevMar.NormalEquations: the matrices are of any dimension, the program's is twelve.
- `madgwick.c`, `matrix.c`, `cube.c`: transcendental functions throughout.
- `json.c`, `csv.c`: a flatter reader and writer with lossy numbers; the TOML pair is the harder one.
- `daemon_devices.c`, evdev, uinput and hidraw calls, all `cmd_*.c`, the setup wizard, packaging and the Python scripts.
