# Verified model of the benchmark harness

The harness runs SQL workloads on several engines, records every timed run, checks the engines
against each other and reports timings. This project models the parts of it where correctness is
algorithmic and proves what those parts are for.

- **SQL qualifier** (`Text`, `Letters`, `SqlTokens`, `Clauses`, `Qualifier`, `References`, `Requalify`,
  `Unqualify`). The lossless tokenizer with its backtracking quote pattern, the one-pass machine with
  flag, bracket stack and register, and a declarative rule of what a table reference is. The machine is
  the rule; a second pass changes nothing; and the prefixes can be found in the output and taken out
  again.
- **Script splitters** (`Splitters`, `SplitLaws`, `SplitText`, `RegisterScript`). The regular expression's
  matches, both splitters as loops, and the code that prints scripts. Splitting is a normal form, undoes
  printing, and the two splitters agree exactly on the scripts described by a condition on the text.
- **CRUD and MERGE workloads** (`Orders`, `Lineitems`, `CrudRows`). The SQL statements as steps on a table
  that is changed in place, with the engine's hash unknown. An invariant over every schedule, and MERGE
  idempotence.
- **Result hash** (`Sorting`, `Bags`, `Utf8`, `ResultHash`, `CellLooks`). The byte stream fed to SHA-256
  as a canonical form, and exactly when its documented contract holds.
- **Synthetic graph** (`Numbers`, `Graph`). Ids, endpoints, permutations, connectivity and the spread of
  the weak ties, for every node count.
- **Percentiles and the scale-out verdict** (`Percentiles`, `ScaleOut`, `Figures`). Two percentile
  functions and the median over reals, and the aggregator's loops, accounting and verdict.
- **Run loop and report** (`RunLoop`, `LoggedRuns`, `Cells`, `Report`, `CrossCheck`). Child processes that
  may die in any call, the log they leave at their paths, the parent's merge, and the report's grouping
  and cross-engine check over all logs.
- **Driver bench** (`CallLog`, `Handles`, `DriverPaths`, `WarmMedian`, `JsonEsc`). The handle protocol of
  the ADBC and ODBC paths against a world that answers any return code, and what the outcome says of those
  answers; the summary of iterations; and the JSON string printer against a reader after section 7 of RFC
  8259.

Foreign code (engines, drivers, processes, the operating system) is a parameter: a list of answers, a
function, or a `World` object whose calls return anything and whose ghost trace records what was done
and whose ghost log what was answered.

## Where code and documentation differ

The model follows the code.

- `df_qualify` says in its description that ON ends the FROM context; the code, and the comment above
  its keyword sets, leave ON out, and so does the model (`OnKeepsContext`).
- The DeltaForge splitter's comment promises not to match inside a quoted string. The pattern does not
  look at quotes, and neither does the model: a literal that holds a `;` and a line feed is cut in two
  (`CutLiteralExample`), and no literal is cut exactly when no `;` inside one terminates
  (`LiteralsAreWholeIff`).
- The Spark splitter says it mirrors the DeltaForge one. On `SELECT ';'` they differ
  (`SplittersDifferExample`); `SplittersAgreeOnText` says exactly when the results are the same.
- The contract above the result hash says IFF. Over cells that show no tab or line feed it holds exactly
  when no two different cells look alike (and, if rows without cells occur, no cell looks like nothing);
  over texts it holds exactly when neither character can occur (`ContractIff`, `TextContractIff`).
  `ContractNeedsItsConditions` has four pairs of different results with one stream.
- The multipliers of the random batch are called coprime. What spreads the edges is that each is
  coprime to the node count, and only then (`WeakTiesSpread`, `WeakTiesCollide`).
- `load_query_timings` says that missing queries are recorded as None; the code leaves them out.
- The offenders' section says that all queries stayed within 1.1 when it is empty. Since it compares the
  rounded ratio, it is empty exactly when all stayed within 1.1005 (`NoOffendersIff`); medians of 10000
  and 11004 are not listed (`NotFlatNotListed`).

Qualifying is idempotent for all tables, and for any identifiers as zone and schema, keywords and table
names among them. What can fail is that the output's tokens are the expected ones, and that its prefixes
can be found again: a table named by a single letter beyond ASCII can be rewritten right behind FROM or
JOIN, and the zone's name then runs into that word (`MergedWordExample`). Both hold for every text exactly
when no table is named so (`AlwaysApartIff`, `AlwaysUndoesIff`).

A workload that is named twice on the command line runs twice into one log, and its cells hold twice the
runs (`TwiceNamedExample`); the bounds of the report count how often a workload is named and how often a
step occurs in it (`CrashedCellsBounded`). That a cell is a prefix of its schedule needs distinct names.

Definitions that several proofs share (keyword sets, buckets, fields of a record, codes, escapes) are
each pinned by a lemma that spells them out in literals: `Letters`, `References`, `CrudRows`, `CellLooks`,
`LoggedRuns`, `CallLog` and `Figures`.

## Model

| member | source | states |
|---|---|---|
| SqlTokens.TokenizeLossless | workloads/_df_catalog.py:48 | the tokenizer covers every character: joining the tokens gives the text back, and each has one of the three shapes |
| SqlTokens.QuotedTokenIsLongest | workloads/_df_catalog.py:46-48 | a token starting with a quote is the longest quoted string there, doubled quotes inside included, found by backtracking; only if there is none is it the quote alone |
| SqlTokens.WordsAreApart | workloads/_df_catalog.py:48 | two identifier words are never neighbouring tokens |
| Clauses.BalancedIffTop | workloads/_df_catalog.py:76-82 | the bracket a stack machine would close next is the one from which the brackets are balanced, and no other |
| Clauses.ContextFollows | workloads/_df_catalog.py:37-45 | the declarative context (last visible clause keyword is FROM or JOIN) after a closed group is the one in which the group was opened, and changes otherwise only at clause keywords |
| Qualifier.FlagIsContext | workloads/_df_catalog.py:69-91 | after every token the flag is the declarative context, and the stack holds the contexts in which the brackets still open were opened |
| Qualifier.RegisterIsAnchor | workloads/_df_catalog.py:71-107 | the register holds an anchor exactly after one and white space only (which tokens are anchors: `QualifiedBehind`) |
| Qualifier.MachineIsRule | workloads/_df_catalog.py:66-108 | for every token list the one-pass machine rewrites exactly the tokens the declarative rule picks |
| Qualifier.DfQualify | workloads/_df_catalog.py:51-108 | the loop returns the rule's output for every text |
| Qualifier.OnKeepsContext | workloads/_df_catalog.py:37-45 | ON ends no FROM context |
| Qualifier.GroupRestores | workloads/_df_catalog.py:76-82 | a balanced group, read in any state, leaves context and stack as they were |
| Letters.LowerIs | workloads/_df_catalog.py:85-98 | a text lower-cases to a word exactly when it has the word's letters, each in either case |
| Letters.BlankIs | workloads/_df_catalog.py:104-107 | a token is blank exactly when all its characters are white space, by their code points |
| References.KeywordSteps | workloads/_df_catalog.py:76-91 | FROM and JOIN, in any letter case, turn the context on in every state, each of the twelve ending keywords turns it off, and a bracket saves it or gives it back |
| References.WhiteSteps | workloads/_df_catalog.py:104-107 | white space leaves the state as it is; any other token becomes the last significant one |
| References.OtherSteps | workloads/_df_catalog.py:72-107 | every other token leaves context and stack alone |
| References.QualifiedBehind | workloads/_df_catalog.py:92-102 | behind FROM, JOIN or a comma, and white space only, in a FROM clause, a bare table name without a dot behind it becomes zone, dot, schema, dot and the name; behind any other token, or elsewhere, every token is kept |
| References.FirstIsKept | workloads/_df_catalog.py:71-102 | the first significant token of a text is kept |
| Requalify.RetokenizeIff | workloads/_df_catalog.py:48-108 | re-tokenizing the output yields the expanded token list, no word merged and no literal changed, if and only if no rewritten token directly follows a word |
| Requalify.AlwaysApartIff | workloads/_df_catalog.py:48-108 | the condition holds for every text if and only if no table is named by a single letter beyond ASCII; other names, identifiers or not, do no harm |
| Requalify.RetokenizedIs | workloads/_df_catalog.py:48-108 | for every set of tables the output re-tokenizes to the expanded list, up to the keywords that the zone name ran into |
| Requalify.GluedSecondPass | workloads/_df_catalog.py:68-108 | on those tokens the machine changes nothing, even though the zone and schema words may be keywords and turn its flag off |
| Requalify.QualifyIdempotent | workloads/_df_catalog.py:51-108 | qualifying twice is qualifying once, for every text and every set of tables |
| Requalify.MergedWordExample | workloads/_df_catalog.py:84-100 | the concrete input on which a word is merged |
| Unqualify.UnqualifyUndoes | workloads/_df_catalog.py:72-108 | taking full table names back to bare ones, found in the text alone, gives the same for output and input when no rewritten token directly follows a word: qualifying inserts prefixes and changes nothing else |
| Unqualify.AlwaysUndoesIff | workloads/_df_catalog.py:48-108 | it does so for every text if and only if no table is named by a single letter beyond ASCII |
| Unqualify.UnqualifiedIsSameIff | workloads/_df_catalog.py:48-108 | a text is left alone by that exactly when no full name of a table occurs in it |
| Unqualify.UnqualifyRestoresIff | workloads/_df_catalog.py:51-108 | then the input comes back from its output exactly when it had no full name itself; literals, dotted columns, aliases and white space are unchanged |
| Splitters.SplitDf | engines/df_engine.py:525-551 | the loop returns the kept fragments between the pattern's matches |
| Splitters.SplitSpark | engines/spark_default_engine.py:213-239 | the loop returns the kept fragments between semicolons |
| SplitLaws.MatchIffTerminates | engines/df_engine.py:518-522 | the pattern matches, with backtracking, exactly at semicolons whose white space reaches a line feed or the end of the text |
| SplitLaws.SplitGivesStatements | engines/df_engine.py:525-551 | every statement returned is trimmed, holds code, and has no terminator inside |
| SplitLaws.SplitUndoesTerminated | engines/df_engine.py:522-551 | splitting a script of statements, each with its terminator, gives the statements back |
| SplitLaws.SplitUndoesTerminatedIff | engines/df_engine.py:522-551 | and gives a list back only if all of it are statements |
| SplitLaws.SplitIsNormalForm | engines/df_engine.py:525-551 | for every script, printing the statements of its split and splitting again gives the same list |
| SplitLaws.SplitUndoesJoin | engines/df_engine.py:418-422 | splitting undoes a join without final terminator if and only if all of the list are statements and the last does not itself end in a semicolon |
| SplitLaws.StatsSqlSplits | engines/df_engine.py:412-424 | the text sent for a measured query splits into its preamble and the wrapped query, exactly when the last statement does not end in a semicolon; a script without statements is an error |
| Figures.StatsTextIs | engines/df_engine.py:412-424 | the text sent is the preamble's statements, each with its semicolon and line end, and the last statement behind SHOW STATS ACTUAL |
| RegisterScript.DfRegisterSetup | workloads/_df_catalog.py:24-34 | the loop prints one statement for the zone, one for the schema and one per table |
| RegisterScript.RegisterScriptSplits | workloads/_df_catalog.py:24-34 | the registration script splits back into these statements if and only if no name holds a semicolon whose white space reaches a line feed, and the schema name does not end in white space nor, when it comes last, in a semicolon |
| SplitLaws.SparkByFragment | engines/spark_default_engine.py:210-239 | the Spark splitter works through a script DeltaForge fragment by fragment |
| SplitLaws.SplittersAgreeIff | engines/spark_default_engine.py:213-217 | the two splitters return the same list if and only if no fragment with a semicolon in it holds a statement for either |
| SplitLaws.SplittersAgree | engines/df_engine.py:518-551 | in particular they agree when every semicolon is a terminator |
| SplitText.HasCodeIff | engines/df_engine.py:536-542 | a fragment holds code exactly when some line's first visible character starts no comment |
| SplitText.SplittersAgreeOnText | engines/spark_default_engine.py:213-217 | the two splitters agree if and only if, in each stretch between terminators with a semicolon inside, every line is blank or a comment and so is what follows a semicolon up to the next one or the end of the line |
| SplitText.LiteralsAreWholeIff | engines/df_engine.py:518-522 | no fragment is cut out of a string literal if and only if no semicolon behind an odd number of quotes terminates |
| SplitText.CutLiteralExample | engines/df_engine.py:518-522 | the concrete literal that is cut in two |
| SplitText.SplittersDifferExample | engines/spark_default_engine.py:213-217 | the concrete script on which the splitters differ |
| SplitText.LostSemicolonExample | engines/df_engine.py:412-424 | the concrete script whose last statement ends in a semicolon: the text sent keeps it, and does not split back into the wrapped statement |
| Orders.FeedIsUnambiguous | workloads/crud.py:76-105 | the feed's keys are pairwise distinct, so a MERGE from it is never ambiguous, on any table |
| Orders.MergeMeaning | workloads/crud.py:187-202 | row by row: a matched row takes status and price from its update and keeps its place, an unmatched one stays, and exactly the inserts whose key was absent come in |
| Orders.MergeIdempotent | workloads/crud.py:183-202 | applying MERGE twice is applying it once, on every table |
| Orders.InsertKeeps | workloads/crud.py:144-162 | INSERT keeps the rows there are, and its rows' keys lie beyond every key of the table |
| Orders.InsertSampleIs | workloads/crud.py:148-162 | a row is added exactly for each row of one hash bucket, under its key plus the offset beyond the maximum and with status N |
| Orders.UpdateKeeps | workloads/crud.py:168-172 | UPDATE keeps every row's place, key and other columns; a row gets status P exactly in one hash bucket |
| Orders.DeletedIs | workloads/crud.py:178-181 | DELETE takes out exactly the rows of its bucket |
| Orders.StepKeepsInv | workloads/crud.py:148-202 | each statement keeps the invariant |
| Orders.RunKeepsInv | workloads/crud.py:76-202 | over every schedule from unique positive keys: keys stay unique and positive, and every row of the feed's update bucket stays, as it was loaded, with the feed's status exactly once a MERGE has run |
| Orders.OrdersTable.Execute | workloads/crud.py:148-202 | one statement in place: the new table, the invariant, and no change by a MERGE after a MERGE |
| Orders.OrdersTable.Measure | bench_runner.py:279-291 | the measured phase runs each step so many times in a row and keeps the invariant |
| CrudRows.InsertRows | workloads/crud.py:148-162 | column by column: INSERT adds exactly one row for each row whose hash is a multiple of 30, under its key plus the maximum plus 200000 and with status N, and keeps every row |
| CrudRows.UpdateRows | workloads/crud.py:168-172 | UPDATE sets status P exactly where the hash is 3 modulo 100, and changes nothing else |
| CrudRows.DeleteRows | workloads/crud.py:178-181 | DELETE takes out exactly the rows whose hash is 17 modulo 100 |
| CrudRows.FirstMerge | workloads/crud.py:76-202 | the first MERGE on the loaded table adds exactly one row for each loaded row whose hash is a multiple of 500: key plus maximum plus 100000, status F, price times 1.05, comment behind "new:", other columns as loaded; and sets status X exactly where the hash is 7 modulo 100 |
| CrudRows.MergeAdds | workloads/crud.py:183-202 | on any later table it adds exactly those of them whose key the table lacks |
| CrudRows.MergeUpdates | workloads/crud.py:183-202 | and gives exactly the rows with a key of the update bucket status X and the loaded price, keeping place and other columns |
| CrudRows.ScheduleAt | bench_runner.py:279-281 | the measured phase has so many places for each step, step after step |
| Lineitems.FeedIsUnambiguous | workloads/merge_cdc.py:31-44 | at most one change per key, and none with a NULL operation |
| Lineitems.MergeIsDirect | workloads/merge_cdc.py:46-53 | the first MERGE in closed form: one bucket's quantities go up by one, the other bucket's rows go, the rest stays in order |
| Lineitems.MergeIdempotent | workloads/merge_cdc.py:46-53 | applying the MERGE twice is applying it once, deletes included, for any feed |
| Lineitems.LineitemTable.MergeApply | workloads/merge_cdc.py:69-75 | however often the step runs, the table is the closed form |
| CrudRows.MergeLines | workloads/merge_cdc.py:31-53 | row by row: where the hash is not positive or a multiple of 100 the quantity goes up by one, where it is one more than a multiple the row goes, and every other row stays, each once |
| Utf8.EncodeInjective | workloads/spec.py:149 | different texts have different bytes |
| Utf8.CodePointBytes | workloads/spec.py:149 | the bytes of a code point by its range, in the shortest form, and how their bits make it up |
| Sorting.SortIsCanonical | workloads/spec.py:146 | two sequences sort alike exactly when they are equal as multisets |
| ResultHash.HashResultRows | workloads/spec.py:143-151 | the loop feeds the canonical stream and counts the rows |
| ResultHash.OrderDoesNotMatter | workloads/spec.py:120-151 | permuting rows never changes the stream |
| ResultHash.StreamIsCanonical | workloads/spec.py:112-122 | for readable rows two streams are equal if and only if the multisets of rendered rows are |
| ResultHash.StreamIsCanonicalOnRows | workloads/spec.py:112-114 | and if and only if the multisets of rows are, when no two different cells look alike |
| ResultHash.ContractIff | workloads/spec.py:112-122 | over any domain of cells that show no separator, the documented contract holds for all results if and only if no two different cells look alike (and, with rows without cells, no cell looks like nothing) |
| ResultHash.TextContractIff | workloads/spec.py:112-122 | over texts of an alphabet it holds for all results if and only if the alphabet has neither tab nor line feed |
| ResultHash.ContractNeedsItsConditions | workloads/spec.py:129-151 | four pairs of results that differ as multisets and have one stream |
| CellLooks.SameStreamIffAlike | workloads/spec.py:129-137 | two cells have one stream exactly when they print alike, over all cells: floats with equal repr texts, equal bytes, equal texts; and across kinds NULL with the text NULL, and bytes with a text of their hex digits |
| CellLooks.HexSpells | workloads/spec.py:134-135 | bytes print as two lower-case hex digits each, the higher four bits first |
| CellLooks.ContractIffAlike | workloads/spec.py:112-122 | over any domain of cells whose texts hold no tab or line feed, equal streams are equal multisets of rows if and only if no two different cells of it print alike and, if rows without cells occur, none is empty |
| CellLooks.FloatContract | workloads/spec.py:132-133 | over floats the contract holds as soon as no repr holds a tab or a line feed |
| CellLooks.BytesContract | workloads/spec.py:134-135 | over byte strings it always holds |
| CellLooks.LineOrderIs | workloads/spec.py:146 | lines are ordered by code point at their first difference, a prefix first |
| Graph.EndpointsAreNodes | workloads/graph_gpu_vs_cpu.py:204-249 | every edge runs between nodes, so the hub batch's range test never drops an edge |
| Graph.IdsAreUnique | workloads/graph_gpu_vs_cpu.py:204-278 | edge ids are unique across all six batches |
| Figures.EdgesAre | workloads/graph_gpu_vs_cpu.py:193-250 | id, source and target of every edge of the six batches: strides of 20, 40, 200 and 21, the hubs at the thousands with steps of 7, and the weak ties with multipliers and offsets |
| Figures.RowsAre | workloads/graph_gpu_vs_cpu.py:193-250 | how many rows each batch generates |
| Graph.StrideIsPermutation | workloads/graph_gpu_vs_cpu.py:193-209 | in a strided batch every node has exactly one edge out and one in, and edges are dropped only if the node count divides the stride, then all |
| Graph.ReachesSuccessor | workloads/graph_gpu_vs_cpu.py:193-209 | one edge of stride 21 and n-1 edges of stride 20 lead from any node to the next |
| Graph.StronglyConnected | workloads/graph_gpu_vs_cpu.py:193-276 | every node reaches every node, for every node count |
| Graph.WeakTiesSpread | workloads/graph_gpu_vs_cpu.py:233-250 | the kept edges of the random batch have pairwise distinct sources if and only if 104729 and n are coprime, and pairwise distinct targets if and only if 224737 and n are |
| Graph.WeakTiesCollide | workloads/graph_gpu_vs_cpu.py:233-250 | on node counts that are multiples of a multiplier, ends of kept edges collide |
| Numbers.DistinctIffCoprime | workloads/graph_gpu_vs_cpu.py:244-248 | the same for all generated rows, before self-loops are dropped |
| Percentiles.PercentilesAgree | scale_out/aggregate.py:105-118 | both percentile functions give the same value for all samples and all p in 0 to 100 |
| Percentiles.ReportIsAt | reports/generate_report.py:34-47 | the percentile is the linear interpolation of the sorted samples at its rank |
| Percentiles.PercentileMonotoneInP | reports/generate_report.py:34-47 | a percentile never falls as p grows |
| Percentiles.PercentileWithinSamples | reports/generate_report.py:34-47 | it lies between samples |
| Percentiles.SortedDominates | reports/generate_report.py:39 | samples that are slower one by one, in arrival order, are slower one by one once sorted |
| Percentiles.SlowerSamplesSlowerPercentile | reports/generate_report.py:34-47 | then no percentile drops |
| Percentiles.MedianIsFiftieth | driver-bench/src/bench_main.cpp:39-45 | the driver bench's median is the fiftieth percentile |
| Figures.PercentileIs | reports/generate_report.py:34-47 | a percentile whose place among the ascending samples is j and a fraction f lies that fraction of the way from sample j to the next, in both functions |
| Figures.PercentileEnds | reports/generate_report.py:34-47 | at 0 it is the least sample, at 100 the greatest, and without samples there is none |
| Figures.MedianIs | driver-bench/src/bench_main.cpp:39-45 | the median is the middle one of the ascending samples, or the mean of the two in the middle |
| ScaleOut.LoadQueryTimings | scale_out/aggregate.py:71-102 | exactly the queries with a successful record are kept, each with its last successful warm timing, or else its first successful cold one |
| ScaleOut.CollectStreams | scale_out/aggregate.py:395-421 | the samples of each query and the streams counted at each level |
| ScaleOut.SamplesWithinStreams | scale_out/aggregate.py:399-421 | a query has no more samples at a level than streams counted, and these are no more than the directories |
| ScaleOut.Aggregate | scale_out/aggregate.py:121-177 | one row for every query and level, as many as that, each at the place its query and level give |
| Figures.RowIs | scale_out/aggregate.py:141-176 | the columns of a row: counts, completion rate, 50th and 95th percentile, the 50th of level 1, the ratio of the medians, and flat when it is at most 1.1 |
| Figures.NearestIs | scale_out/aggregate.py:162-172 | rounding gives the nearest multiple, and the even one of two |
| ScaleOut.CountsAddUpIff | scale_out/aggregate.py:279-285 | full, partial and none never exceed the total, and make it up if and only if no row has more samples than streams attempted |
| ScaleOut.RowWithinStreams | scale_out/aggregate.py:399-421 | which holds for collected streams when a level has at most as many directories as it says |
| ScaleOut.LevelRows | scale_out/aggregate.py:141-142 | at each level there is exactly one row for each query |
| ScaleOut.LevelAddsUpIff | scale_out/aggregate.py:279-285 | full, partial and none of a level make up the query total if and only if no query has more samples there than streams attempted |
| ScaleOut.CollectedLevelAddsUp | scale_out/aggregate.py:279-285 | so they do for collected streams, given at most N directories for level N |
| ScaleOut.RoundedAboveThreshold | scale_out/aggregate.py:342-346 | rounded to three places a ratio exceeds 1.10 exactly when it exceeds 1.1005 |
| ScaleOut.BaselineIsFlat | scale_out/aggregate.py:153-172 | every ratable row at N = 1 has ratio 1 and is flat |
| ScaleOut.OffendersAre | scale_out/aggregate.py:342-346 | a row is listed as an offender exactly when N > 1 and its true ratio exceeds 1.1005; every offender is truly not flat; what is not flat and missing has a true ratio of at most 1.1005 |
| ScaleOut.NoOffendersIff | scale_out/aggregate.py:342-352 | the list is empty exactly when all true ratios at N > 1 are at most 1.1005 |
| ScaleOut.NotFlatNotListed | scale_out/aggregate.py:342-352 | concrete samples that are not flat and not listed |
| RunLoop.Child.RunWorkload | bench_runner.py:230-328 | wherever the process dies, the log holds exactly the records of the calls that came back (what is in them: `RecordsReportAnswers`) |
| RunLoop.Child.RunWorkloads | bench_runner.py:852-869 | a workload that raises or fails its setup does not stop the next; only death does |
| RunLoop.Results.RunChild | bench_runner.py:792-889 | what a child leaves: no log before it started, an empty one before its workloads, a fragment only if it got to its end |
| RunLoop.Results.RunAll | bench_runner.py:726-775 | the parent goes on whatever became of a child, and merges the fragments there are |
| RunLoop.PathsDiffer | bench_runner.py:244 | distinct names give distinct files, and no log is a fragment |
| RunLoop.EnginesAreIsolated | bench_runner.py:715-889 | with distinct names, for every fate of every child, the files at an engine's paths are those of a run where it is alone |
| RunLoop.MergedIs | bench_runner.py:761-775 | the merge takes the fragment at each engine's path, under its name, and nothing else |
| RunLoop.MergeIgnoresOrder | bench_runner.py:761-775 | the merge does not depend on the order |
| RunLoop.ManifestEntriesAreIsolated | bench_runner.py:761-775 | manifest entries of an engine are those of a run where it is alone |
| RunLoop.WorkloadIsPrefix | bench_runner.py:277-312 | what one workload leaves in the log is a prefix of its (step, run) schedule, all of it when it ends normally |
| LoggedRuns.StepsEnd | bench_runner.py:262-274 | setup, catalog and cleanup steps that apply to the engine take one call each, and end early at the first call that raises or kills the child, or, in a setup, that comes back with a failure |
| LoggedRuns.StepsFinish | bench_runner.py:262-274 | and they end normally exactly when no call does |
| LoggedRuns.RecordsReportAnswers | bench_runner.py:279-312 | the record at place k of a workload's log carries exit code, timing, row count and hash of the k-th measured answer, under the step, run number and temperature of that place; records stop only at the end of the schedule, at an exception or at death |
| LoggedRuns.NothingWithoutSetup | bench_runner.py:262-274 | a workload whose setup does not come through logs nothing |
| LoggedRuns.WorkloadEnds | bench_runner.py:262-328 | failed runs and cleanup steps stop nothing: if all calls come back, the next workload begins behind all of them |
| LoggedRuns.CatalogEnd | bench_runner.py:835-850 | a catalog step that fails stops nothing |
| LoggedRuns.ChildLeaves | bench_runner.py:796-889 | a log is there exactly when import, start and version came back; in the fragment the version is the third answer and the cold start the second |
| Cells.Cellize | reports/generate_report.py:83-105 | a cell for exactly the keys that occur, in the order of their first records, with timings, failures, row counts and hash of its records |
| Cells.CellsPartition | reports/generate_report.py:83-105 | every record is in its own cell as often as in the log and in no other, and cold, warm and failures make up the cell |
| Cells.FirstShaIs | reports/generate_report.py:95-99 | a cell's hash is that of its first successful record with one |
| Cells.NoFirstSha | reports/generate_report.py:95-99 | and there is none exactly when no successful record has one |
| Cells.RowCountsAre | reports/generate_report.py:94 | a cell's row counts are those of its records that have one, failed ones included |
| LoggedRuns.CellReportsAnswers | reports/generate_report.py:83-105 | a cell's failures are the step's measured answers with an exit code other than 0, and its cold and warm timings are the walls of the others, in the order of the runs |
| LoggedRuns.ChildCellReportsAnswers | reports/generate_report.py:83-105 | the same for the log of a whole child with whatever fate, from the answer on at which its workload began; a workload it did not come to, or whose setup did not come through, has empty cells |
| Cells.WorkloadPartIsPrefix | bench_runner.py:239-312 | with distinct workload names, each workload's part of a child's log is a prefix of its schedule |
| Cells.CellIsPrefix | bench_runner.py:279-312 | then each cell of it is a prefix of the step's runs, cold ones before warm ones |
| Cells.CrashedCells | bench_runner.py:239-312 | then, for every fate of the child, each cell has at most the cold and warm runs asked for, and with the failures they are all its records |
| Cells.WallsAreBounded | bench_runner.py:279-312 | however often a workload is named and a step occurs in it, a cell has at most as many timings as runs were asked for in all |
| Cells.CrashedCellsBounded | bench_runner.py:239-312 | so for every list of workloads and every fate of the child the cells are bounded and conserved |
| Cells.TwiceNamedExample | bench_runner.py:558 | the concrete list that names a workload twice: two cold timings for one cold run, and no prefix of the schedule |
| Report.AllLogsAreOwn | bench_runner.py:715-889 | each log holds records of the engine whose path it has, and of no other |
| Report.ReportedCell | reports/generate_report.py:70-87 | an engine's cell in the report over all logs is its cell in the log that its own child left |
| Report.ReportedCells | reports/generate_report.py:70-105 | so, with distinct workload names, for every fate of every child each cell of the report is a prefix of its schedule, bounded by the runs asked for, and conserved |
| Report.ReportedCellsBounded | reports/generate_report.py:70-105 | and for every list of workloads it is bounded by the runs asked for in all, and conserved |
| CrossCheck.CorrectnessCheck | reports/generate_report.py:134-149 | a message for exactly the steps at which two engines returned different hashes, in the order of the cells, each listing in ascending order exactly the engines that returned a hash, with its first twelve characters |
| CrossCheck.IssueIffDisagree | reports/generate_report.py:138-146 | more than one hash was collected for a step exactly when two engines returned different ones |
| Figures.ShortIs | reports/generate_report.py:147 | a hash is shown by its first twelve characters, a shorter one in full |
| Handles.OpenIsChain | driver-bench/include/adbc.h:859 | under the protocol open handles are distinct and each stands on its parent |
| Handles.OpenIsCounted | driver-bench/src/adbc_path.cpp:100-373 | a handle is open exactly when it was opened once more than released |
| Handles.EverythingReleased | driver-bench/src/adbc_path.cpp:346-366 | if nothing is left open, each handle was released as often as opened |
| Handles.UseOnlyWhileOpen | driver-bench/src/adbc_path.cpp:100-373 | no use, request or release after a release, and no opening of what is open |
| Handles.ChildrenFirst | driver-bench/include/adbc.h:1366 | what was opened on a handle is released before it, and a stream is asked for a batch only when the one before is released |
| CallLog.FirstFailureMeans | driver-bench/src/adbc_path.cpp:113-373 | the first failure of a log is the first call whose answer means failure, and there is none exactly when no answer does |
| CallLog.AdbcCodes | driver-bench/src/adbc_path.cpp:113-373 | a null pointer means failure, and a status other than 0; an option for credentials cannot fail |
| CallLog.OdbcCodes | driver-bench/src/odbc_path.cpp:156-354 | any code but 0 and 1 means failure, and for a fetch or a cell also 100 does not |
| DriverPaths.Unwind | driver-bench/src/adbc_path.cpp:217-222 | the releases of an early exit leave nothing open |
| DriverPaths.AdbcLoad | driver-bench/src/adbc_path.cpp:113-135 | the library and its driver table: the error is the first call that failed, none exactly when none did, and each failure leaves nothing open |
| DriverPaths.AdbcOpenDatabase | driver-bench/src/adbc_path.cpp:137-181 | the same for the database, of whose options only those for the address are checked; the calls are made in order |
| DriverPaths.AdbcOpenConnection | driver-bench/src/adbc_path.cpp:183-198 | the same for the connection |
| DriverPaths.AdbcConnect | driver-bench/src/adbc_path.cpp:113-201 | the whole connect phase either holds library, database and connection or has failed with nothing open |
| DriverPaths.AdbcPrepare | driver-bench/src/adbc_path.cpp:203-226 | the same for the statement |
| DriverPaths.AdbcExecute | driver-bench/src/adbc_path.cpp:228-268 | the same for the stream and its schema; the columns are what the schema answered |
| DriverPaths.AdbcDrain | driver-bench/src/adbc_path.cpp:279-308 | for any number of batches and any error: the rows counted are those of the batches that came, all of them if there was no error, and each batch is released |
| DriverPaths.AdbcRelease | driver-bench/src/adbc_path.cpp:346-366 | the releases go on whatever they answer, and the first complaint is reported |
| DriverPaths.AdbcWork | driver-bench/src/adbc_path.cpp:100-315 | the phases up to the drain: ended early at the first failure, or drained with the statement still open |
| DriverPaths.RunAdbcIter | driver-bench/src/adbc_path.cpp:100-373 | for every schedule of return codes: the error is the first call whose answer means failure, none exactly when no answer does; the calls are those of the protocol in order, up to the failing one; columns and rows are what came; each phase is the time between the clock readings around its calls, and the phases make up the total; what was opened is what the failure says, and nothing stays open |
| DriverPaths.FreeHandles | driver-bench/src/odbc_path.cpp:135-141 | whatever is allocated is freed, the latest first |
| DriverPaths.OdbcAllocate | driver-bench/src/odbc_path.cpp:156-176 | each failure up to the connection handle leaves nothing open, and what was opened is what the failure says |
| DriverPaths.OdbcConnect | driver-bench/src/odbc_path.cpp:178-202 | the same for the connection and the statement |
| DriverPaths.DescribeColumns | driver-bench/src/odbc_path.cpp:233-281 | each column is described once, and bound once unless cells are asked for one by one, up to the first call that fails |
| DriverPaths.GetRow | driver-bench/src/odbc_path.cpp:332-351 | each cell of a row is asked for once, up to the first call that fails; truncation is no error |
| DriverPaths.OdbcDrain | driver-bench/src/odbc_path.cpp:286-354 | one fetch per row and one more, and in the GetData mode one call per cell after each fetch, up to the first call that fails; without one the rows counted are the rows delivered |
| DriverPaths.OdbcBind | driver-bench/src/odbc_path.cpp:224-281 | the columns are those reported unless that call fails, and a failure leaves nothing open |
| DriverPaths.OdbcWork | driver-bench/src/odbc_path.cpp:145-359 | the phases up to the drain: ended at the first failure, or all rows there with the statement still open |
| DriverPaths.RunOdbcIter | driver-bench/src/odbc_path.cpp:145-370 | the ODBC analogue of the ADBC result |
| DriverPaths.CleanExitMeans | driver-bench/src/adbc_path.cpp:100-373 | what these exits mean for the trace: released exactly as often as opened, used only in between, children first, one batch at a time |
| WarmMedian.DriverResult.ComputeWarmMedian | driver-bench/src/bench_main.cpp:49-81 | the loop computes the medians of the measured iterations and both counts |
| Figures.SummaryIs | driver-bench/src/bench_main.cpp:71-80 | each phase of the summary is the median of that phase, and rows and columns are those of the first measured iteration |
| Figures.MeasuredAre | driver-bench/src/bench_main.cpp:55-59 | the measured iterations are exactly those behind the warm-ups without an error, in order |
| WarmMedian.IterationsAddUp | driver-bench/src/bench_main.cpp:55-59 | each iteration is a warm-up, a measurement or a failure |
| WarmMedian.OrderDoesNotMatter | driver-bench/src/bench_main.cpp:71-78 | the medians do not depend on the order of the measured iterations |
| WarmMedian.SlowerIterationsSlowerMedian | driver-bench/src/bench_main.cpp:71-78 | if every iteration gets slower in a phase, its median does not drop |
| JsonEsc.Esc | driver-bench/src/bench_main.cpp:234-255 | the loop appends the escape of every byte |
| Figures.EscapesAre | driver-bench/src/bench_main.cpp:234-255 | quote, backslash, line feed, return and tab get a letter, other control bytes four hexadecimal digits, and every other byte stays |
| JsonEsc.ReadUndoesEsc | driver-bench/src/bench_main.cpp:234-255 | wherever the output stands in a document, a reader after RFC 8259 finds the text back and stops right behind the closing quote |
| JsonEsc.LiteralRoundTrip | driver-bench/src/bench_main.cpp:262 | a printed literal reads back as the text, for every byte string and in every document |
| JsonEsc.EscInjective | driver-bench/src/bench_main.cpp:234-255 | no two texts are printed alike |
| JsonEsc.OutputIsPlain | driver-bench/src/bench_main.cpp:234-255 | the output holds no control byte and no quote that a backslash does not escape |

## Left out

- Engine adapters beyond the script code, samplers, cache purge, host facts, installers, menus and
  Markdown rendering: input and output with nothing to prove.
- SHA-256 itself; its input stream is what is modelled. `repr` and `str` of values are parameters.
- Float rounding: timings are reals, and NaN is the absence of a value. `round` is rounding to the
  nearest decimal multiple, ties to even. 64-bit overflow of counters and keys is not modelled.
- The SQL engines: INSERT, UPDATE, DELETE and MERGE are plain operations on snapshots of rows, `ABS(HASH(...))`
  is any function of the key, and column types are not modelled. `MAX` of an empty table is NULL.
- The statements that load, create and register tables, and Delta file layout.
- ADBC error structs and the driver table's own release callback, which the code never calls; the text
  of error messages; the per-batch instrumentation printed to stderr.
- ADBC: a stream or schema that a successful call hands out without a release callback. The code would
  then skip the release; the model takes both to need one.
- ODBC: column types and buffers, and a negative column count.
- Torn writes and fsync: appending one record to the log is one atomic step, and so is writing a
  fragment. A fragment that does not parse, and entries of it that are null, are not modelled.
- Records' other fields (purge flag, memory, processor, time stamps, descriptions), and the printing of
  reports: full lists are modelled, not their first forty or twenty lines.
- The graph's edge weights and types, node properties, and the OPTIMIZE and index statements.
- Splitters.SplitDf: Python's `splitlines`, `strip` and `\s` are modelled over code points; the regular expression
  is modelled by the one pattern used, not as an engine.
- Qualifier.DfQualify: `lower` is modelled on ASCII; which letters beyond ASCII `isalpha` knows is a parameter.
- CrossCheck.CorrectnessCheck: messages are records of their parts; the text around them is not modelled.
- Report.ReportedCell: the logs may come in any order; the sorting by path is not modelled.
- Percentiles.PercentilesAgree: stated for p in 0 to 100, as the functions' descriptions say.
- ScaleOut.Aggregate: takes the query ids and levels already sorted.
- DriverPaths.RunAdbcIter: the driver delivers a finite list of batches unless it fails before; an endless stream is
  not modelled. Diagnostics, the profiling call of the verbose mode and the releases of early exits are in the
  trace, but their answers, which nobody looks at, are not in the log.
- JsonEsc.LiteralRoundTrip: the reader rejects a lone surrogate escape, on which RFC 8259 leaves the behaviour open.
