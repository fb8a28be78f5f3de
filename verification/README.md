# silk-chiffon: a verified model of its hardest logic

silk-chiffon moves tables between files, object stores and BigQuery. Most of it is plumbing; this
project models the parts that carry an argument and proves what each is for.

| files | what they model |
|---|---|
| `Retry`, `ReadStream`, `Resumption`, `ReadStreamSafety`, `Delivery` | one partition's ReadRows stream: open, wait, decode, accept, resume at the accepted offset; which failures resume it and when; accounting and exactly-once delivery over every run; what each reply does, and that an honest server is read to the end |
| `Fault` | the fault schedule, its minimizer and the accepted-offset oracle the stream is judged by |
| `Text`, `Calendar`, `GoogleSql`, `SqlSyntax`, `SqlReading` | the language filters are written in: values and three-valued logic, dates and times as text, a lexer and a parser for boolean expressions, and what may stand next to what in a text that reads |
| `Pushdown`, `Columns`, `Translation`, `Pushability`, `Conjunctions`, `Restriction` | the filter compiler, character by character: column resolution and what a column denotes, identifiers and literals with their inverses, the explicit-stack translator, which filters it translates, texts joined by AND, and the row restriction sent to the server |
| `FirstOccurrences`, `SortOrder`, `SortText` | sort specifications: dropping repeats, composing partition and user order, and the text form |
| `SchemaComparison`, `SchemaRefinement`, `Projection` | the worklist comparison of nested schemas in both modes and what each mode accepts, and the column pipeline from requested indices to output batches |
| `Percent`, `Glob`, `LocationPattern`, `PatternLoops`, `PatternListing`, `PatternCompilation`, `PatternMeaning` | percent-decoding, the glob language, object-path patterns and which paths they accept |
| `Claims`, `Registry`, `Application`, `Reports`, `StorageSession` | who may claim a name, scheme, key or route; routing indexes; the shared store cache and output claims under interleaved calls |
| `SourceIdentity` | the length-prefixed bytes a source identity is the digest of |
| `Transfer`, `TransferSafety`, `TransferProgress`, `TransferOutcomes`, `FilteredIds` | the benchmark's reader/writer/main thread protocol over every interleaving, and its closed-form expectation |

How to read it. A loop or an object that changes in place is a method or a class proved equal to a
function of its inputs or of the state before; the lemmas are about that function. A protocol is a
state machine and its theorems quantify over every run. What the program does not decide (replies of
a server, clocks, admission of memory, outcomes of file operations) is an input of each step, so a
statement over all inputs is a statement over every such environment.

Where a promise needs a condition, the condition is part of the theorem:

- `OnePassNeedsMonotonicity`: the minimizer makes one pass, so its result is 1-minimal for predicates
  that stay failing when steps are added, and a concrete predicate shows it is not in general.
- `RoundTripExactly`: a displayed sort specification reads back exactly when its names are distinct,
  trimmed and free of separators, null placement is the conventional one and no ascending column is
  unnamed; `:asc` is readable text whose display loses the column.
- `ProjectionIsExact`: a projected column is found exactly when it is the first of its name in the
  table; with distinct names that is always so.
- `Translation.ReadsBackExactly`: a translated filter can be read by the server exactly when the dates of its
  literals lie in years 1 to 9999 and its decimals in the range of their types. `FarDateIsSentUnreadable`
  and `LargeDecimalIsSentUnreadable`: `day < DATE '+10000-01-01'`, and a decimal column without fraction
  digits compared with 10^30, are reported as exactly supported and sent, and the server has neither literal.
- `RestrictionReadsExactly`: whatever the explicit restriction is, the whole reads exactly when the filters do
  and the explicit text does in its parentheses. `OwnExpressionIsConjoined`, `CommentBreaksTheRestriction`: a
  text that is an expression by itself does, exactly when it does not end inside a line comment.
- `RestrictionKeepsMatches`: no row satisfying the filters and the explicit text is ever dropped. The filters
  are enforced on every row exactly as far as no alternative of the explicit text holds: a text such as
  `l) OR (r` closes its parenthesis and leaves `r` as an alternative to the filters
  (`AlternativeEscapesTheFilter`, `RejectedRowIsKept`), against the promise of `docs/CLI.md:494`. `Conjoined`
  is the check a caller can make before: read as a conjunction, the parenthesised text leaves nothing over.
- `PatternMeansExactly`, `EscapeEndsItsClass`: a matcher accepts what the written path says whenever no bracket
  class holds an escape; `[%5D]` accepts `[]]` and not the bracket it spells.
- `VerdictIsExact`: the transfer returns exactly when no thread queued an error and the streams hold
  the expected number of rows.

`dafny verify dfyconfig.toml` checks everything.

## Model

| member | source | states |
|---|---|---|
| Retry.ReadRowsBudget | crates/silk-chiffon-input-bigquery/src/retry/budget.rs:60-128 | a budget exists exactly when nothing is zero, the window ends within a duration and the session outlives the start by the margin; which error otherwise; its deadline is the earlier of the window's end and the session's less the margin |
| Retry.PlanRetryExactly | crates/silk-chiffon-input-bigquery/src/retry/budget.rs:151-206 | a retry is planned exactly when the clock is monotone, an attempt is left and a whole attempt, with the server's own delay, still fits before the deadline |
| ReadStream.WaitTimeout | crates/silk-chiffon-input-bigquery/src/read_stream.rs:497-517 | no network wait starts after the effective deadline or reaches past it; it lasts the idle timeout or ends at the deadline, and which limit gives which reason |
| ReadStream.ReadRowsStreamState.constructor | crates/silk-chiffon-input-bigquery/src/read_stream.rs:185-214 | a stream starts at offset zero, attempt one, with nothing held |
| ReadStream.ReadRowsStreamState.Accept | crates/silk-chiffon-input-bigquery/src/read_stream.rs:398-435 | overflow and schema failures leave everything unchanged; otherwise offset, metrics and progress window advance together with the emitted batch |
| ReadStream.ReadRowsStreamState.DecodeMessage | crates/silk-chiffon-input-bigquery/src/read_stream.rs:332-396 | a page is decoded as `Delivery.PageExactly` and `Delivery.DeliveredPage` say |
| Delivery.PageExactly | crates/silk-chiffon-input-bigquery/src/read_stream.rs:332-435 | on an open stream before the deadline a page is yielded exactly when it was admitted, permitted, prepared, decoded, fits the offset and has the schema; skipped exactly when it is empty; and refused otherwise for the first thing that failed |
| Delivery.OneReason | crates/silk-chiffon-input-bigquery/src/read_stream.rs:332-435 | no page is refused for two reasons |
| Delivery.DeliveredPage | crates/silk-chiffon-input-bigquery/src/read_stream.rs:398-435 | a delivered page hands on the columns asked for of each of its rows, and moves offset, metrics, memory and progress window |
| Delivery.OtherRepliesExactly | crates/silk-chiffon-input-bigquery/src/read_stream.rs:264-299 | a closed stream is a clean end; a status, and silence unless the session ran out, is retried exactly when the failure may be |
| Delivery.PastTheDeadline | crates/silk-chiffon-input-bigquery/src/read_stream.rs:497-517 | after the deadline no message is waited for, and whether the session or the retry window ran out is the reason |
| Delivery.OpeningExactly | crates/silk-chiffon-input-bigquery/src/read_stream.rs:256-330 | an open that succeeds is followed by the message of the pass; what a failed, silent or late one does |
| Delivery.SmoothRunsFinish | crates/silk-chiffon-input-bigquery/src/read_stream.rs:213-435 | an honest server without failures is read completely: with more polls than rows the run ends cleanly and has emitted every row of the table |
| ReadStream.ReadRowsStreamState.Retry | crates/silk-chiffon-input-bigquery/src/read_stream.rs:437-495 | a failed attempt does what `Resumption.ResumesExactly` says |
| Resumption.ResumesExactly | crates/silk-chiffon-input-bigquery/src/read_stream.rs:437-495 | a stream resumes exactly after a retryable failure before the deadline, on monotone clocks, with a streak and an attempt left and room for the server's delay and a whole attempt; the state it resumes in, with the same offset; why every other failure ends it |
| Resumption.StreakRule | crates/silk-chiffon-input-bigquery/src/read_stream.rs:454-471 | the streak after a failure is 1 exactly after sustained progress or a zero streak, and otherwise one more; the progress window is cleared exactly then |
| Resumption.WindowFollowsTheStreak | crates/silk-chiffon-input-bigquery/src/read_stream.rs:454-466 | accounting for progress zeroes the streak and clears the window at the first failure of a streak and changes nothing at the others |
| Resumption.FailedOpensAreBounded | crates/silk-chiffon-input-bigquery/src/read_stream.rs:303-330 | opens that keep failing cost one attempt each, move no offset and stay within the attempts of the budget, and the streak grows by one each time unless an open progress window ends it |
| ReadStream.ReadRowsStreamState.SettleProgress | crates/silk-chiffon-input-bigquery/src/read_stream.rs:454-466 | the streak and window become what `Resumption.WindowFollowsTheStreak` says |
| ReadStream.ReadRowsStreamState.Open | crates/silk-chiffon-input-bigquery/src/read_stream.rs:303-330 | every open requests the accepted offset and counts one attempt |
| ReadStream.ReadRowsStreamState.ReceiveMessage | crates/silk-chiffon-input-bigquery/src/read_stream.rs:264-299 | what a message, a status, the end of the stream and a timeout each do |
| ReadStream.ReadRowsStreamState.Pass | crates/silk-chiffon-input-bigquery/src/read_stream.rs:256-263 | one pass opens when no stream is held and receives otherwise |
| ReadStream.ReadRowsStreamState.NextBatchFrom | crates/silk-chiffon-input-bigquery/src/read_stream.rs:255-301 | the loop repeats passes until one yields, ends or fails |
| ReadStream.ReadRowsStreamState.PollNext | crates/silk-chiffon-input-bigquery/src/read_stream.rs:213-226 | a poll first frees the last batch's memory and finishes the stream on an end or an error |
| ReadStreamSafety.ReplayThroughOracle | crates/silk-chiffon-input-bigquery/src/fault.rs:135-157 | feeding a log to the oracle object gives the oracle's verdict on that log |
| ReadStreamSafety.OracleMeaning | crates/silk-chiffon-input-bigquery/src/fault.rs:135-157 | the oracle approves exactly the logs whose every open asks for the rows accepted before it and whose total is an offset |
| ReadStreamSafety.IterateIsSafe | crates/silk-chiffon-input-bigquery/src/read_stream.rs:255-301 | against any server one pass keeps the log approved, the counters consistent, memory free at every wait and the offset moving only with an emitted batch |
| ReadStreamSafety.PollIsSafe | crates/silk-chiffon-input-bigquery/src/read_stream.rs:213-226 | one poll emits rows exactly when the offset moves over them; the batch and the memory kept are those of the message the last turn used delivered |
| ReadStreamSafety.EveryRunIsAccounted | crates/silk-chiffon-input-bigquery/src/read_stream.rs:255-330 | over every run: opens equal retries, plus one while a stream is held, and stay within the budget's attempts; output rows equal the offset, opens ask for the rows emitted so far, waits and delays respect memory and deadline |
| ReadStreamSafety.ExactlyOnce | crates/silk-chiffon-input-bigquery/src/read_stream.rs:255-435 | whatever fails, the emitted rows are the first accepted-offset rows of the table, each once and in order; a clean end has emitted them all |
| ReadStreamSafety.FailuresAreInvisible | crates/silk-chiffon-input-bigquery/src/read_stream.rs:255-435 | two clean runs over one table emit the same rows whatever failed in either |
| ReadStreamSafety.ZeroColumnsKeepTheRowCount | crates/silk-chiffon-input-bigquery/src/read_stream.rs:411-420 | a projection onto no column still yields one empty row per table row |
| Fault.Schedule.Take | crates/silk-chiffon-input-bigquery/src/fault.rs:87-97 | the first pending step whose selector matches is removed and returned, the event log keeps the last points |
| Fault.SelectorsAreExact | crates/silk-chiffon-input-bigquery/src/fault.rs:48-60 | a selector that fixes everything selects one point, each component let go frees that component and no other, and one that fixes nothing selects all |
| Fault.ReplaySpendsEachStepOnce | crates/silk-chiffon-input-bigquery/src/fault.rs:87-105 | over a whole replay every step is given out at most once and exactly the rest stay pending |
| Fault.Minimize | crates/silk-chiffon-input-bigquery/src/fault.rs:108-124 | the loop computes the one-pass minimization |
| Fault.MinimizeIsSound | crates/silk-chiffon-input-bigquery/src/fault.rs:108-124 | the result still fails and is a subsequence; when failing is monotone among the subsequences of the steps, removing any one step makes it stop failing |
| Fault.OnePassNeedsMonotonicity | crates/silk-chiffon-input-bigquery/src/fault.rs:108-124 | a predicate for which the single pass leaves a removable step |
| Fault.AcceptedOffsetOracle.ObserveRequest | crates/silk-chiffon-input-bigquery/src/fault.rs:141-147 | a request is approved exactly at the accepted offset |
| Fault.AcceptedOffsetOracle.Accept | crates/silk-chiffon-input-bigquery/src/fault.rs:149-156 | rows are added unless the total would leave the range of an offset |
| Pushdown.ResolveColumnPath | crates/silk-chiffon-input-bigquery/src/pushdown.rs:182-204 | the walk through struct fields computes `ResolvePath`, which `Columns.ResolvePathExactly` characterises |
| Columns.ResolvePathExactly | crates/silk-chiffon-input-bigquery/src/pushdown.rs:182-204 | a path resolves exactly when its name, as a whole field or as the path between its dots, reaches a supported field, and then to that field's names and type |
| Columns.ResolveColumnExactly | crates/silk-chiffon-input-bigquery/src/pushdown.rs:161-180 | a column resolves exactly when it denotes a supported field: one of its own name first, then one of the table-qualified name, then the path its name spells |
| Columns.ResolvedColumnIsDenoted | crates/silk-chiffon-input-bigquery/src/pushdown.rs:161-204 | on every conforming row, looking the resolved names up in the server's row gives the cell at the positions the column denotes, null or of the resolved type |
| Columns.DenotedCellIsRead | crates/silk-chiffon-input-bigquery/src/pushdown.rs:161-204 | under the resolved path the server finds the value of the cell denoted, and null when that is null |
| Pushdown.TwoPassesAreOneEscape | crates/silk-chiffon-input-bigquery/src/pushdown.rs:229-231 | replacing backslashes and then backticks equals escaping both at once |
| Pushdown.QuoteIdentifierRoundTrip | crates/silk-chiffon-input-bigquery/src/pushdown.rs:229-231 | reading a quoted identifier gives it back and stops at its closing quote |
| Pushdown.QuoteIdentifierInjective | crates/silk-chiffon-input-bigquery/src/pushdown.rs:229-231 | different names have different quotations |
| Pushdown.ColumnTextRoundTrip | crates/silk-chiffon-input-bigquery/src/pushdown.rs:161-180 | a printed column path reads back to the same path in front of any boundary, whatever its names contain |
| Pushdown.StringLiteral | crates/silk-chiffon-input-bigquery/src/pushdown.rs:310-326 | the loop prints the escaped literal, or nothing for a control character it has no escape for |
| Pushdown.StringTextRoundTrip | crates/silk-chiffon-input-bigquery/src/pushdown.rs:310-326 | unescaping a printed string literal gives the string, and no inner quote ends it early |
| Pushdown.BytesTextRoundTrip | crates/silk-chiffon-input-bigquery/src/pushdown.rs:233-292 | a printed bytes literal reads back to its bytes |
| Pushdown.ScaledDecimalString | crates/silk-chiffon-input-bigquery/src/pushdown.rs:359-382 | the buffer edits compute the scaled decimal text |
| Pushdown.ScaledTextDenotes | crates/silk-chiffon-input-bigquery/src/pushdown.rs:359-382 | the text denotes value / 10^scale and has exactly scale fraction digits |
| Pushdown.DecimalLiteralReads | crates/silk-chiffon-input-bigquery/src/pushdown.rs:277-289 | a printed decimal reads back to its value and scale exactly when its type has it |
| Calendar.YearTextReads | crates/silk-chiffon-input-bigquery/src/pushdown.rs:257-261 | a printed year is its number in four digits, behind a minus when negative, and signed when four digits do not do |
| Pushdown.DateLiteralReads | crates/silk-chiffon-input-bigquery/src/pushdown.rs:257-261 | a printed date is read as its day exactly when its year is from 1 to 9999 |
| Pushdown.TimeLiteralReads | crates/silk-chiffon-input-bigquery/src/pushdown.rs:328-336 | a printed time of day reads back to the microsecond |
| Pushdown.TimestampLiteralReads | crates/silk-chiffon-input-bigquery/src/pushdown.rs:338-357 | a printed timestamp, with or without UTC, reads back to the nanosecond exactly when its date does |
| Calendar.DateOfIsItsDay | crates/silk-chiffon-input-bigquery/src/pushdown.rs:257-261 | the date a number of days after 1970-01-01 is the date of that day number in the Gregorian calendar |
| Pushdown.LiteralForReadsBack | crates/silk-chiffon-input-bigquery/src/pushdown.rs:233-357 | every literal the printer accepts reads back to the value it stands for, exactly when the server has that value; otherwise it reads as nothing, whatever follows |
| Pushability.LiteralsExactly | crates/silk-chiffon-input-bigquery/src/pushdown.rs:233-357 | a literal is printed for a type exactly when it is one of that type |
| Pushability.SupportedFieldsExactly | crates/silk-chiffon-input-bigquery/src/pushdown.rs:206-227 | a field can be pushed down exactly when it is no geography or JSON and its type has literals, or is a float, a decimal of negative scale or a fine timestamp outside UTC |
| Translation.Translate | crates/silk-chiffon-input-bigquery/src/pushdown.rs:39-70 | the explicit stack terminates and prints what the recursive, fully parenthesised printer prints |
| Translation.UnsupportedExactlyByALeaf | crates/silk-chiffon-input-bigquery/src/pushdown.rs:39-70 | there is no translation exactly when some leaf has none |
| Pushability.LeafExactly | crates/silk-chiffon-input-bigquery/src/pushdown.rs:72-131 | a leaf has one exactly when it is a null test of a supported column, a comparison of one with a literal of its type on either side, or membership in a nonempty list or a range of such literals |
| Pushability.TranslatedExactly | crates/silk-chiffon-input-bigquery/src/pushdown.rs:10-16 | a filter is reported as exactly supported exactly when it is built by AND, OR and NOT from leaves of that kind |
| Translation.PrintReads | crates/silk-chiffon-input-bigquery/src/pushdown.rs:39-131 | a translated filter reads as a primary of the expression grammar, standing for the filter's tree |
| Translation.TextReadsBack | crates/silk-chiffon-input-bigquery/src/pushdown.rs:39-131 | its text reads back to the filter's tree, character by character: alone, in parentheses, and in front of anything a boundary separates from it |
| Translation.ReadsBackExactly | crates/silk-chiffon-input-bigquery/src/pushdown.rs:39-131 | alone or in parentheses it reads back exactly when the server has every literal of it |
| Translation.FarDateIsSentUnreadable | crates/silk-chiffon-input-bigquery/src/pushdown.rs:257-261 | a comparison with the first day of year 10000 is translated and cannot be read |
| Translation.LargeDecimalIsSentUnreadable | crates/silk-chiffon-input-bigquery/src/pushdown.rs:277-283 | a decimal column of scale 0 compared with 10^30 is translated and cannot be read |
| GoogleSql.ValuesAreOrdered | crates/silk-chiffon-input-bigquery/src/pushdown.rs:145-155 | of two values of one kind the first is less, the same or greater, and only one of these |
| Translation.ReverseFlips | crates/silk-chiffon-input-bigquery/src/pushdown.rs:145-155 | a comparison with its sides exchanged has the same truth value |
| Translation.TreePreservesMeaning | crates/silk-chiffon-input-bigquery/src/pushdown.rs:72-131 | on the server's copy of every conforming row the tree evaluates to the filter's own three-valued meaning, columns by what they denote in the schema |
| Translation.PushdownPreservesMeaning | crates/silk-chiffon-input-bigquery/src/pushdown.rs:39-154 | whenever the translation can be read, reading and evaluating its text on the server's copy of any row gives the filter's meaning on that row |
| Restriction.RestrictionReads | crates/silk-chiffon-input-bigquery/src/pushdown.rs:18-32 | the restriction reads as the filters and what the explicit text requires first, all of them, or one of the alternatives the explicit text offers |
| Restriction.FiltersReadBack | crates/silk-chiffon-input-bigquery/src/pushdown.rs:18-32 | with an explicit text that is an expression by itself it reads, by the same grammar, as the conjunction of the translatable filters and that expression, and it is absent exactly when there is neither |
| Restriction.RestrictionReadsExactly | crates/silk-chiffon-input-bigquery/src/pushdown.rs:18-32 | whatever the explicit text is, it reads back exactly when the server has the literals sent and the explicit text reads in its parentheses |
| Restriction.OwnExpressionIsConjoined | crates/silk-chiffon-input-bigquery/src/pushdown.rs:27-29 | a text that is an expression by itself reads in its parentheses exactly when it does not end inside a line comment, and is then conjoined as it is |
| Restriction.OwnExpressionMeans | crates/silk-chiffon-input-bigquery/src/pushdown.rs:27-29 | and means there what it means alone |
| Restriction.ConjoinedExactly | crates/silk-chiffon-input-bigquery/src/pushdown.rs:27-29 | reading the parenthesised text as a conjunction leaves nothing over exactly when it reads and offers no alternative |
| Restriction.ConjoinedIsOnTop | crates/silk-chiffon-input-bigquery/src/pushdown.rs:18-32 | with a filter sent, the restriction has AND on top exactly when the explicit text is conjoined, and OR otherwise |
| Restriction.CommentBreaksTheRestriction | crates/silk-chiffon-input-bigquery/src/pushdown.rs:27-29 | an expression followed by a comment reads alone and not as part of any restriction |
| Restriction.ExplicitIsConjoined | crates/silk-chiffon-input-bigquery/src/pushdown.rs:18-32 | an explicit restriction is parenthesised and joined with the filters' own, an empty one ignored |
| Restriction.RestrictionEvaluates | crates/silk-chiffon-input-bigquery/src/pushdown.rs:18-32 | the restriction's truth value is that of the filters sent and what the explicit text requires first, or of an alternative it offers |
| Restriction.RestrictionKeepsMatches | crates/silk-chiffon-input-bigquery/src/pushdown.rs:10-32 | for every explicit text that reads in its parentheses: no row satisfying all filters and the text is dropped, none the text rejects is kept; with exact filters those rows are kept and besides them exactly the rows of an alternative, so none when the text is conjoined |
| Restriction.AlternativeEscapesTheFilter | crates/silk-chiffon-input-bigquery/src/pushdown.rs:27-31 | with the explicit text `l) OR (r` a filter guards `l` alone |
| Restriction.RejectedRowIsKept | crates/silk-chiffon-input-bigquery/src/pushdown.rs:10-32 | a row that an exactly supported filter rejects and the restriction keeps |
| Conjunctions.JoinedReads | crates/silk-chiffon-input-bigquery/src/pushdown.rs:31 | primaries joined by AND to any text read exactly when each of them and that text does; its first conjunction takes them in and its alternatives stay |
| FirstOccurrences.UniqueBy | src/lib.rs:21-31 | the filter with a growing seen set keeps the first item of every key |
| FirstOccurrences.UnseenCovers | src/lib.rs:21-31 | the kept items carry exactly the keys of the input |
| FirstOccurrences.UnseenIsDistinct | src/lib.rs:21-31 | no two kept items carry the same key |
| FirstOccurrences.UnseenAreFirsts | src/lib.rs:21-31 | each kept item is the first one that carries its key |
| SortOrder.SortSpec.FromNames | src/lib.rs:503-513 | names become ascending columns, first occurrences only |
| SortOrder.SortSpec.WithoutColumnsNamed | src/lib.rs:537-546 | columns of the given names are removed, the rest keep their order |
| SortOrder.SortSpec.Extend | src/lib.rs:548-551 | the other specification's columns are appended and later repeats dropped, in place |
| SortOrder.Compose | src/commands/transform.rs:190-212 | full order and promised output ordering for every strategy |
| SortOrder.ComposedColumns | src/commands/transform.rs:190-212 | the promised ordering holds exactly the user's columns that are no partition columns; sort-single sorts by the partition columns and those, the other strategies by those alone |
| SortOrder.ConventionalOrder | src/lib.rs:494-500 | a column written without null placement orders values as its direction says, nulls last when ascending and first when descending |
| SortOrder.FirstColumnDecides | src/commands/transform/sort.rs:5-17 | the first column on which two rows hold different values decides between them, in its direction |
| SortOrder.NullsTakeTheirSide | src/commands/transform/sort.rs:5-17 | a row without a value in the first column stands where the column puts its nulls |
| SortOrder.RepeatsNeverDecide | src/lib.rs:21-31 | dropping later repeats changes no lexicographic comparison, whatever direction or null placement they carry |
| SortOrder.ConstantColumnsNeverDecide | src/lib.rs:537-546 | columns on which two rows agree may be removed from a specification |
| SortOrder.FullComparison | src/commands/transform.rs:198-212 | the composed order decides by partition first when it sorts by it, and within a partition exactly as the user's order |
| SortOrder.PartitionsAreContiguous | src/commands/transform.rs:169-212 | a stream sorted for sort-single keeps each partition's rows together |
| SortOrder.EveryPartitionIsSorted | src/commands/transform.rs:190-280 | under every strategy each partition's rows are sorted by the user's specification and by the promised output ordering |
| SortText.Parse | src/lib.rs:553-593 | the loop reads the parts in order, fails at the first bad direction, naming it in lower case, and drops repeats |
| SortText.TrimTakesOnlyWhite | src/lib.rs:560-569 | trimming takes white space off the two ends and nothing else |
| SortText.WhiteExactly | src/lib.rs:560-569 | white space is the 25 characters with the Unicode property White_Space |
| SortText.WhiteSpaceAroundParts | src/commands/transform.rs:183-190 | white space around the parts of a specification or the names of `--by` changes neither |
| SortText.WhiteSpaceAroundTheName | src/lib.rs:564-575 | nor does white space around a column name before its colon |
| SortText.PartitionColumnsExactly | src/commands/transform.rs:183-190 | a list of names survives the `--by` option exactly when no name holds a comma or white space at an end |
| SortText.PlanOrder | src/commands/transform.rs:183-207 | from the text of the two options to the full order and the promised output ordering |
| SortText.OptionsSortEveryPartition | src/commands/transform.rs:169-207 | however the two options are written, a sorted stream keeps each partition together and in the user's order |
| SortText.DirectionIgnoresCase | src/lib.rs:564-575 | case and surrounding white space never matter to a direction |
| SortText.WordsAreDirections | src/lib.rs:566-568 | the long words mean what the short ones do |
| SortText.DirectionsExactly | src/lib.rs:564-575 | the four words, in any case and with white space around them, give the two directions; nothing else does, and it is reported without that white space and in lower case |
| SortText.ParsedIsTidy | src/lib.rs:553-593 | whatever is read names no column twice and holds trimmed names free of separators with the conventional null placement |
| SortText.DisplayParses | src/lib.rs:595-609 | reading a displayed specification gives back its visible columns |
| SortText.RoundTripExactly | src/lib.rs:553-609 | a specification survives display and parsing exactly when it is tidy and no ascending column is unnamed |
| SortText.UnnamedAscendingIsLost | src/lib.rs:553-609 | `:asc` reads as a column that its display loses |
| SchemaComparison.HaveCompatibleStructure | crates/silk-chiffon-core/src/schema.rs:26-119 | the worklist terminates and decides, for any nesting, whether the schemas are equal but for metadata and nullability and their nullable fields agree as the mode asks |
| SchemaComparison.FieldsMatchExactly | crates/silk-chiffon-core/src/schema.rs:26-119 | so does the recursive comparison: a field of the right side is nullable only where one of the left is, and in the strict mode exactly there |
| SchemaComparison.TypeExpansionIsFaithful | crates/silk-chiffon-core/src/schema.rs:55-114 | what one type pair pushes is equivalent to it and smaller |
| SchemaRefinement.ExactIsEqualityWithoutMetadata | crates/silk-chiffon-core/src/schema.rs:17-24 | the strict mode is equality once metadata is removed, hence an equivalence |
| SchemaRefinement.RefinementIsAPreorder | crates/silk-chiffon-core/src/schema.rs:46-48 | refinement is reflexive and transitive, and both directions together are the strict mode |
| SchemaRefinement.ValidateBatchSchema | crates/silk-chiffon-core/src/schema.rs:121-131 | a batch is let through exactly when its schema is the sink's but for metadata and for fields, at any depth, that it makes non-nullable; every nested row it allows is then allowed by the sink's schema |
| SchemaRefinement.RefinementIsAccepted | crates/silk-chiffon-core/src/schema.rs:46-48 | a schema accepts itself with every nullable flag cleared, and any schema equal but for nullability whose nullable fields are nullable in it |
| SchemaRefinement.WideningIsRefused | crates/silk-chiffon-core/src/schema.rs:46-52 | a field made nullable is refused, and a row shows why |
| Projection.ProjectionRequest | crates/silk-chiffon-input-bigquery/src/provider.rs:185-231 | accepted exactly for indices in range, with each name asked for once and the output columns in request order; otherwise the Arrow error of the first index out of range |
| Projection.SelectionIsSound | crates/silk-chiffon-input-bigquery/src/provider.rs:203-228 | no name is asked for twice; none without a projection; for a projection exactly the names projected, and for an empty one the first field alone |
| Projection.ValidateExecutionSchema | crates/silk-chiffon-input-bigquery/src/provider.rs:233-257 | the returned schema is accepted exactly when it is the selected fields in discovered order |
| Projection.BatchProjection | crates/silk-chiffon-input-bigquery/src/provider.rs:259-273 | succeeds exactly when every output field is the first returned field of its name, and points at it |
| Projection.ProjectionIsExact | crates/silk-chiffon-input-bigquery/src/provider.rs:185-273 | a validated schema finds projected column k exactly when it is the first of its name in the table |
| Projection.PlanScan | crates/silk-chiffon-input-bigquery/src/provider.rs:87-131 | with distinct names, output column k of every batch carries the data of discovered field projection[k] |
| SourceIdentity.Preimage | crates/silk-chiffon-input-bigquery/src/session.rs:36-54 | the running digest is fed the parts one after another, each behind its length |
| SourceIdentity.PreimageReads | crates/silk-chiffon-input-bigquery/src/session.rs:36-75 | a reader of length-prefixed parts finds the tag, table, seconds, nanoseconds, fields and restriction, in this order and nothing else; the numbers are big-endian in two's complement |
| SourceIdentity.ConcatIsInjective | crates/silk-chiffon-input-bigquery/src/session.rs:71-75 | length prefixes make any number of parts unambiguous |
| SourceIdentity.PreimageIsInjective | crates/silk-chiffon-input-bigquery/src/session.rs:36-75 | equal preimages mean equal table, snapshot, field list and restriction, absent counting as empty |
| Percent.DecodeUndoesEncode | crates/silk-chiffon-storage/src/pattern.rs:287-288 | the UTF-8 decoder inverts encoding |
| Percent.DecodeSplits | crates/silk-chiffon-storage/src/pattern.rs:269-297 | text decodes piecewise at any ASCII byte |
| Glob.PinnedAhead | crates/silk-chiffon-storage/src/session.rs:311-325 | tokens that pin a text accept exactly the paths that start with it |
| PatternLoops.DecodedMatcher | crates/silk-chiffon-storage/src/pattern.rs:265-297 | runs of escapes are decoded together and escaped, other characters kept, malformed input refused |
| PatternLoops.UnescapeMatcherLiterals | crates/silk-chiffon-storage/src/pattern.rs:308-326 | single-character classes of special characters stand for their character |
| LocationPattern.LiteralAhead | crates/silk-chiffon-storage/src/pattern.rs:265-326 | a part without active glob characters is parsed to tokens that pin its unescaped matcher |
| PatternListing.ListingLosesNoMatch | crates/silk-chiffon-storage/src/pattern.rs:299-306 | every path the matcher accepts continues the literal prefix with a separator |
| PatternListing.FirstOtherIsActive | crates/silk-chiffon-storage/src/pattern.rs:299-306 | only an active glob character keeps a segment out of the listed prefix |
| PatternListing.ExpandUrlPattern | crates/silk-chiffon-storage/src/session.rs:277-341 | an expansion succeeds exactly when the prefix parses, the listing completes and every match is accepted, with exactly the store's matching objects; otherwise which failure comes first |
| LocationPattern.DecodedIsPlain | crates/silk-chiffon-storage/src/pattern.rs:265-326 | there is a matcher exactly when the path percent-decodes to text, and without globs it unescapes to that text |
| LocationPattern.NoGlobNamesOneObject | crates/silk-chiffon-storage/src/pattern.rs:265-326 | without globs the matcher is valid and accepts the decoded path only |
| PatternMeaning.PatternMeansExactly | crates/silk-chiffon-storage/src/pattern.rs:265-297 | the matcher accepts exactly the paths the written path does: escapes stand for their text, `?`, `*`, `**` and classes for what they say, other characters for themselves |
| PatternMeaning.RecursiveGlobsExactly | crates/silk-chiffon-storage/src/pattern.rs:229-244 | a path passes the check on double stars exactly when each `**` stands between separators or the ends of the path |
| PatternMeaning.EscapeEndsItsClass | crates/silk-chiffon-storage/src/pattern.rs:265-297 | an escaped bracket inside a class ends the class instead of being a member of it |
| PatternCompilation.CheckedPatternsCompileExactly | crates/silk-chiffon-storage/src/pattern.rs:229-243 | a path that passes the double-star check gives a valid glob exactly when the bracket classes of its matcher close |
| PatternCompilation.CheckedPatternsCompile | crates/silk-chiffon-storage/src/pattern.rs:229-243 | so a path without brackets that passes the check always gives one |
| PatternLoops.CanonicalPatternUrl | crates/silk-chiffon-storage/src/pattern.rs:245-263 | the path's glob characters are percent-encoded, everything before it kept, the query appended |
| LocationPattern.CanonicalPathIsLiteral | crates/silk-chiffon-storage/src/pattern.rs:245-263 | the canonical path has no active glob and denotes the same bytes |
| Claims.FindConflict | crates/silk-chiffon-storage/src/registry.rs:216-257 | counting by key in order of appearance finds the first conflict |
| Claims.FirstConflictIsEarliest | crates/silk-chiffon-storage/src/registry.rs:216-257 | there is a conflict exactly when a key is claimed twice, and the earliest such claim is reported with all claimants in order |
| Claims.FirstOwner | crates/silk-chiffon-storage/src/registry.rs:106-112 | the answer of a linear search: the first definition that lists a key, or none |
| Claims.FindSmallestConflict | src/registration.rs:108-115 | walking sorted keys finds the smallest key with rivals and all its claimants |
| Registry.RefusedExactly | crates/silk-chiffon-storage/src/registry.rs:68-74 | a registry is refused exactly when a name, scheme, argument or the bare route is claimed twice |
| Reports.RegistryRefusedExactly | crates/silk-chiffon-storage/src/registry.rs:68-95 | a registry is refused exactly when two backends have one name, a scheme is listed twice, an argument is brought twice by uploads, used retries and backends, or two backends claim bare locations |
| Reports.RegistryReports | crates/silk-chiffon-storage/src/registry.rs:216-315 | the report names a key and all who bring it, in order, and the earlier kinds are free of conflicts |
| Registry.IndexSchemes | crates/silk-chiffon-storage/src/registry.rs:76-85 | the scheme index answers every lookup as a search of the definitions does |
| Registry.FromBackends | crates/silk-chiffon-storage/src/registry.rs:68-95 | success or the earliest conflict of the first kind checked, with lookups equal to searching |
| Application.NewSchemeIndex | src/registration.rs:79-195 | refused exactly when a scheme is claimed twice for the direction, reporting the smallest; lookups prefer files, then services in order |
| Reports.RoutesConflictExactly | src/registration.rs:79-195 | routes conflict exactly when a scheme is listed twice among the backends of the direction and the services, and who is reported |
| Application.AddCliKeyClaims | src/registration.rs:427-457 | one contributor claims each of its keys once |
| Application.KeysConflictAcrossContributors | src/registration.rs:355-408 | keys conflict exactly when two different contributors share one |
| Reports.ApartExactly | src/registration.rs:355-457 | two contributors share a key exactly when both bring it as an argument's name, an alias or a group |
| Reports.KeyClaimantsExactly | src/registration.rs:355-457 | a reported key names every contributor that brings it, once |
| Application.ValidateCliKeyClaims | src/registration.rs:355-408 | the smallest shared key is reported with its contributors |
| Application.ValidateServiceNames | src/registration.rs:333-353 | the first repeated name is reported with a snapshot of every definition that has it |
| Reports.SnapshotsExactly | src/registration.rs:333-353 | a repeated service name is reported with every service that has it, in order and with its place |
| Application.FromParts | src/registration.rs:480-499 | an application is assembled exactly when names, routes and keys are free of conflicts, and the error is the first kind's |
| Application.RouteOwnerExactly | src/registration.rs:91-134 | a scheme is a file route when a backend lists it, else the first listing service's, else unrouted |
| StorageSession.RegistryRoutes | crates/silk-chiffon-storage/src/registry.rs:76-95 | a session made from a built registry has only routes to existing backends |
| StorageSession.LocateExactly | crates/silk-chiffon-storage/src/session.rs:352-407 | an input is located exactly when it denotes a URL whose scheme its supporting backend owns, and each error says which check failed |
| StorageSession.LocatePatternExactly | crates/silk-chiffon-storage/src/session.rs:222-248 | a pattern is located exactly when the backend that mapped it, or any backend if none did, owns its scheme, and which error otherwise |
| StorageSession.StoreIsSchemeAndAuthority | crates/silk-chiffon-storage/src/session.rs:522-528 | two URLs belong to one store exactly when scheme and authority agree, whatever their paths and queries |
| StorageSession.HandleIsOfItsUrl | crates/silk-chiffon-storage/src/session.rs:443-506 | a handle names the object of its URL's path, in its URL's store, through the client of the scheme's owner |
| StorageSession.OpenInputExactly | crates/silk-chiffon-storage/src/session.rs:352-506 | a handle exists exactly for a location that is found, accepted by its backend and an object path, when a client is cached or can be built; what each error says |
| StorageSession.Session.CreateHandleForLocation | crates/silk-chiffon-storage/src/session.rs:443-506 | the cached client, or one built and cached now; failures leave the cache alone |
| StorageSession.Session.CreateHandle | crates/silk-chiffon-storage/src/session.rs:352-407 | routing, direction and mapping checks before the cache is touched |
| StorageSession.Session.PrepareOutputTarget | crates/silk-chiffon-storage/src/session.rs:139-178 | succeeds exactly on an unclaimed, unobserved, preparable target; the claim stays even when a later step fails |
| StorageSession.CachingIsInvisible | crates/silk-chiffon-storage/src/session.rs:468-506 | a handle from the cache is the one an uncached session would build, and a failure changes nothing |
| StorageSession.EveryInterleavingIsSafe | crates/silk-chiffon-storage/src/session.rs:57-76 | over every interleaving: one successful preparation per object, so under one scheme and authority paths differ whatever the queries, with one shared client; one client per scheme and authority ever, built by the scheme's owner |
| StorageSession.AloneExactly | crates/silk-chiffon-storage/src/session.rs:139-178 | with nothing in between, a call taken through its interleaved steps does what one call does: refused unopened, claimed once resolved, prepared exactly when nothing stands in its way, and refused for the reason there is |
| StorageSession.ClaimsOnlyGrow | crates/silk-chiffon-storage/src/session.rs:139-155 | claims and clients are never given up, so a later call for a claimed object is refused |
| TransferSafety.EveryStateIsSafe | scripts/bqs_benchmark.py:753-855 | over every interleaving: the queue stays within 100, the stop flag implies a queued error, each stream is queued or claimed by one reader, and there is a reader for each stream up to the number requested |
| TransferSafety.ReturnMeansComplete | scripts/bqs_benchmark.py:820-855 | a return means every batch of every stream was written exactly once, in per-stream order, and nothing else |
| TransferSafety.VerdictIsExact | scripts/bqs_benchmark.py:838-849 | the transfer returns exactly when no error was queued and the streams hold the expected rows |
| TransferProgress.RunsAreBounded | scripts/bqs_benchmark.py:776-837 | apart from retries at a full queue every interleaving ends within a budget fixed by the session |
| TransferProgress.Helpful | scripts/bqs_benchmark.py:776-837 | until the report some thread can take a step that is neither a retry nor a failing call |
| TransferProgress.EveryReachableStateCanFinish | scripts/bqs_benchmark.py:753-855 | from every reachable state the transfer can still run to its report without a further failing call |
| TransferOutcomes.ReportsExactly | scripts/bqs_benchmark.py:776-855 | a finished transfer returned exactly when no call of any thread failed on the way and the streams hold the rows expected; without failing calls no error is queued and the stop flag stays down |
| TransferOutcomes.CleanTransfersCanReturn | scripts/bqs_benchmark.py:776-855 | as long as no call has failed the transfer can still return |
| TransferOutcomes.StopIsObeyed | scripts/bqs_benchmark.py:776-819 | once the stop flag is up it stays up, only readers already claiming claim a stream, and only batches already under way are written |
| FilteredIds.ClosedFormsMatchTheLoop | scripts/bqs_benchmark.py:169-188 | count, minimum, maximum and sum equal those of the loop over every id, for every fixture accepted |
| FilteredIds.HalvingsAreExact | scripts/bqs_benchmark.py:174-176 | no halving in the closed form rounds |

## Left out

- ReadRows environment: replies, statuses, clock readings, memory admission, permits, decoding results and backoff jitter are inputs of each pass; how a gRPC status is classified, what decoding does and how long a backoff is are not modelled.
- Asynchronous cancellation: dropping a stream in the middle of a wait is not a step of the model, and no bound on decodes still running after a drop is claimed.
- Counters that saturate or wrap beyond 64 bits, other than the accepted offset, the progress rows, the response ordinal and the attempt number, are unbounded.
- Translation.PushdownPreservesMeaning: float literals are outside the model, because printing one is a shortest-decimal search and the query engine and the server order NaN differently.
- Pushdown.LiteralForReadsBack: float literals, for the same reason; the date library is taken to compute the Gregorian date of a day and to represent years -262143 to 262142.
- SqlSyntax reads the fragment filters are written in: boolean expressions over column paths and typed literals with line comments; a NUMERIC literal has at most 9 fraction digits there and a BIGNUMERIC one 38; functions, arithmetic, block comments, triple quotes and string escapes other than of quotes, backslashes and control letters are not in it, and names are compared with their case.
- Restriction.RestrictionKeepsMatches: an explicit restriction that uses more of the language than this fragment is outside the model, also where the server would accept it.
- SortText.Parse: lower case is that of ASCII letters; no other letter becomes one of the accepted words, so only the text of an error can differ.
- SortOrder.Compose: what the sort itself does is taken as its specification, a stream sorted by the full order.
- SchemaRefinement.ValidateBatchSchema: leaf types are compared by a name that stands for the whole type, and the error text is not modelled.
- PatternListing.ExpandUrlPattern: the store is a list of object paths and lists a prefix by whole segments; metadata is not modelled, and which prefixes parse and which matches have an acceptable rebuilt URL are functions given.
- LocationPattern.NoGlobNamesOneObject: paths are ASCII, as the canonical URL check in front of these functions requires; that check and the URL library are not modelled.
- PatternMeaning.PatternMeansExactly: escapes inside a bracket class are outside it, as the class is cut out of the text they have already been escaped in.
- Local file patterns and lexical normalisation of bare paths are not modelled.
- Glob.PinnedAhead: consecutive double stars, which the library collapses, keep one token each here; they accept the same paths.
- StorageSession.Session.PrepareOutputTarget: what a backend does to prepare an output, build a client or map a bare location is an outcome or a function of the settings; read-only wrapping of a client is not modelled.
- Application.ValidateCliKeyClaims: the keys of a contributor are given, not derived from a command parser.
- SourceIdentity.PreimageIsInjective: the digest itself is not modelled, so the result is about its input.
- Read session requests, response validation and session names: checks of single fields, which would only add easy members.
- TransferSafety.ReturnMeansComplete: the set of active reads and their cancellation appear only as the failures they cause; a file left behind by a failed run and its removal are not modelled.
- Format detection, sinks, inspection, terminal rendering, transport, credentials and command line definitions are not modelled.
