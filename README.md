# Strix Halo benchmark tooling, modelled in Dafny

The benchmark tooling of the AMD Strix Halo toolboxes reads llama.cpp benchmark
logs. It turns them into result records and ranks GPU backends (Vulkan
RADV/AMDVLK and several ROCm builds) against each other. This project models
the deterministic core of those scripts and proves what they promise:

- **Extractor** (`benchmark/generate_results.json.py`).
  - Decodes the log-name convention `<model>__<env>[__fa1][__hblt0][__longctxN][__rpc]`.
  - Canonicalises legacy environment keys.
  - Parses the llama-bench pipe table and classifies failures (load, then hang, then runtime).
  - Emits one record per table row, or a single failure record when there are no rows.
  - Modules: `Identity`, `Table`, `Patterns`, `Extractor`.
- **Ranking engine** (`benchmark/generate_markdown_results.py`).
  - Margin-aware placements per (model, quant) group.
  - Head-to-head win counts, average ranks and winners.
  - The flash-attention, rocWMMA and hipBLASLt effect tables.
  - Modules: `Ranking`, `Pairwise`, `Effects`.
- **Transient-failure cleanup** (`benchmark/delete_transient_failures.py`).
  - Decides which failed logs are deleted and which Vulkan out-of-memory logs are kept.
  - Module: `Curation`.
- **Older table script** (`benchmark/parse_benchmark_results.py`).
  - Its own error order, the nested `data` dictionary, and `pick_winner`.
  - Module: `Legacy`.
- **Results viewer** (`docs/assets/index2.js`), the non-DOM logic only.
  - Tolerance winners, environment-name tags and reordering backend columns.
  - Model filtering, context ordering, and the in-place map updates of `ensureContext`/`ensureModel`.
  - Module: `Viewer`.
- **Small analyses.**
  - Tolerance winners per model (`Summary`).
  - The README summary table (`ReadmeSummary`).
  - The load-time table (`LoadTime`).
  - The host-entry log filter (`HostFilter`).
  - Modules `Pick`, `Dicts` and `Stats` hold the shared first-wins selection, ordered-dictionary and median/argmax helpers. `Basics` holds the string primitives.

Regexes are written out as predicates over positions (`Patterns`). Python
dictionaries whose order matters are association lists without repeated keys
(`Dicts`). Throughputs are `real`. A Python exception is modelled as an
`Option`/`None` result, so every error path is part of the model. Code that
loops and updates state is a `method` whose loop is proved against a
specification function. The properties are then proved about that function.

## Model

| member | source | states |
|---|---|---|
| Identity.ParseEnvFlags | benchmark/generate_results.json.py:65-97 | A basename without "__" gives no env, fa off, context "default", no tokens and no rpc; otherwise the env is set and the flags are those the suffix tokens decode |
| Identity.DecodeSuffixes | benchmark/generate_results.json.py:80-95 | The token loop produces exactly the counting/last-occurrence definition of the flags |
| Identity.FlagsSnoc | benchmark/generate_results.json.py:80-95 | The declarative flags agree with the token-by-token update of the loop |
| Identity.TokenCounts | benchmark/generate_results.json.py:80-95 | A word such as fa1, rpc or hblt0 is present iff some lowercased token equals it; its count (one "-hblt0" suffix per token) is at most the number of tokens and is 0 iff the word is absent |
| Identity.LastContextIsLast | benchmark/generate_results.json.py:86-87 | The context tag starts with "longctx" and is the lowercased form of a longctx token that no later longctx token follows; there is none (so "default") iff no token is a longctx token |
| Identity.LastContextTokensIsLast | benchmark/generate_results.json.py:86-93 | The token count comes from the last "longctx" token that carries digits; later tokens without digits do not reset it |
| Identity.UnknownSuffixIgnored | benchmark/generate_results.json.py:80-95 | A suffix that is none of fa1/hblt0/rpc/longctx changes nothing |
| Identity.CanonicalizeEnv | benchmark/generate_results.json.py:54-63 | Exact legacy keys map to their canonical names; a legacy key followed by "-" has its prefix rewritten and keeps the rest; anything else is unchanged |
| Identity.CanonicalizeIdempotent | benchmark/generate_results.json.py:45-63 | Canonicalising twice equals canonicalising once |
| Identity.EnvBaseAndVariant | benchmark/generate_results.json.py:99-104 | The base has no "-", base + "-" + variant is the env, and with no "-" the result is (env, None) |
| Patterns.WarnRuntimeIsRuntimeError | benchmark/generate_results.json.py:23 | The "⚠️ Runtime Error" alternative never matches where "runtime error" does not |
| Patterns.LegacyLoadImpliesLoad | benchmark/parse_benchmark_results.py:12-14 | The older load and generic patterns imply the newer ones |
| Patterns.TsAt | benchmark/generate_results.json.py:26 | A mean ± std match captures two digit-and-dot groups |
| Patterns.QuantAt | benchmark/generate_results.json.py:29 | A quantisation match is non-empty, lies within the text and captures one non-empty group |
| Patterns.AmountAt | benchmark/generate_results.json.py:31-32 | A size match captures a digits/dots/commas group before its unit |
| Patterns.NameBAt | benchmark/generate_results.json.py:35 | A "<n>B" match captures a number that starts with a digit and holds only digits and at most one dot |
| Patterns.LongctxAt | benchmark/generate_results.json.py:41 | A longctx match captures the digits after "longctx" |
| Patterns.BuildAt | benchmark/generate_results.json.py:18 | A build-line match is non-empty, lies within the text and captures two groups, the hash and the build number |
| Patterns.ShardAt | benchmark/generate_results.json.py:38 | A shard-marker match is non-empty and within the text |
| Patterns.TableRowAt | benchmark/parse_benchmark_results.py:8-9 | A pp512/tg128 row match captures its mean and std |
| Patterns.EnvTagAt | docs/assets/index2.js:670 | A tag match is "-" followed by its captured name, which is one of the four tag names up to case |
| Patterns.LoadOkAt | benchmark/parse_loadtime_results.py:15 | A success match is the literal line "✔ [env] model avg=Ts over N runs" built from its captures |
| Patterns.LoadFailAt | benchmark/parse_loadtime_results.py:16 | A failure match is the literal line "✖ [env] model all runs failed" built from its captures |
| Patterns.FindIterLast | benchmark/generate_results.json.py:193-194 | The last `finditer` match is a match after which nothing further matches; there is none iff the text has no match |
| Table.HeaderNames | benchmark/generate_results.json.py:129 | Header names are the stripped cells, lowercased |
| Table.Assign | benchmark/generate_results.json.py:132-133 | Filling col_idx adds exactly the header names and keeps other old entries |
| Table.AssignLast | benchmark/generate_results.json.py:132-133 | A repeated header name ends at the index of its last occurrence |
| Table.IndexColumns | benchmark/generate_results.json.py:132-133 | The enumerate loop computes Assign |
| Table.MakeRow | benchmark/generate_results.json.py:143-146 | A row maps every recorded column to its field; it raises (None) iff some stale index is out of range |
| Table.Step | benchmark/generate_results.json.py:126-149 | A line adds at most one row; an added row comes from a row line at least as wide as the header and maps every column to its field |
| Table.ParseTable | benchmark/generate_results.json.py:115-151 | The statement-by-statement parser, including its `break`, computes TableOf |
| Table.BlankLineSkipped | benchmark/generate_results.json.py:135-149 | After a header a blank line changes nothing, so the closing `break` can never fire |
| Table.NoHeaderNoRows | benchmark/generate_results.json.py:126-146 | Without a header no line produces a row |
| Table.PreambleIgnored | benchmark/generate_results.json.py:126-146 | Lines before the first header never affect the result |
| Table.NoHeaderEmptyTable | benchmark/generate_results.json.py:115-151 | Text without a header line yields no rows |
| Table.RowsFromRowLines | benchmark/generate_results.json.py:135-146 | Rows only grow, by at most one per row line; separators, blanks and other text add none |
| Table.StaleIndex | benchmark/generate_results.json.py:129-145 | Since col_idx is never reset, a wide header followed by a narrower one makes a row of the narrow width raise IndexError |
| Extractor.DetectError | benchmark/generate_results.json.py:106-113 | Load beats hang beats runtime; no error iff none of the three patterns matches |
| Extractor.DropShards | benchmark/generate_results.json.py:50-52 | Removing shard markers never lengthens a name; a name without markers is unchanged |
| Extractor.ShardSuffixRemoved | benchmark/generate_results.json.py:50-52 | A name ending in one shard marker loses exactly that marker |
| Extractor.ExtractQuant | benchmark/generate_results.json.py:159-161 | A quantisation is found iff the pattern matches, and it contains no lowercase letter |
| Extractor.ExtractQuantSpec | benchmark/generate_results.json.py:159-161 | The quantisation is the uppercased capture of the leftmost QUANT_RE match, and there is none iff no position of the name matches |
| Extractor.BFromName | benchmark/generate_results.json.py:163-165 | A size is found iff "<n>B" occurs, and it is non-negative |
| Extractor.AmountValue | benchmark/generate_results.json.py:237-244 | A parsed params/size amount is non-negative |
| Extractor.DigitField | benchmark/generate_results.json.py:271-272 | ngl/mmap are set iff the cell is a non-empty digit string, and then hold the value `int()` reads from it |
| Basics.ParseIntDigits | benchmark/generate_results.json.py:271-272 | `int()` reads every non-empty ASCII digit string as its decimal value |
| Extractor.FaRow | benchmark/generate_results.json.py:211-217 | The fa decision comes from the first row having an "fa" column, or from none iff no row has one |
| Extractor.FaFromTable | benchmark/generate_results.json.py:208-218 | The loop's fa flag is `int(fa) == 1` on the first row with an fa column, None when that cell is not an integer |
| Extractor.LastBuild | benchmark/generate_results.json.py:191-196 | The build loop keeps the last build-line match |
| Extractor.MakeRun | benchmark/generate_results.json.py:224-280 | A record has a test iff the table has rows, carries the file's error verdict, and prefers the table's params over the name's size |
| Extractor.MakeRunThroughput | benchmark/generate_results.json.py:224-232 | With table rows, tps_mean and tps_std are the two numbers of the first TS_RE match in the row's "t/s" cell, each None when `float()` rejects it. Both are None without rows or without a match, and never negative |
| Extractor.MakeRunCells | benchmark/generate_results.json.py:235-276 | backend is the row's cell as it is; ngl/mmap come from DigitField; params_b and file_size_gib are read from the first PARAMS_RE / GIB_RE match with commas dropped, and are None without the cell or the match; quant is the file's |
| Extractor.FactsOf | benchmark/generate_results.json.py:198-221 | A file's error is detect_error only without pp512/tg128 rows; fa is the table's value else the name's; rpc is the directory's or the name's |
| Extractor.SourceRows | benchmark/generate_results.json.py:224 | `table_rows or [{}]` has one element per row, or exactly one |
| Extractor.EmitRuns | benchmark/generate_results.json.py:223-281 | The emission loop yields one record per source row, in order |
| Extractor.ScanFile | benchmark/generate_results.json.py:176-281 | The per-file body computes FileRuns, including the IndexError of its table |
| Extractor.Scan | benchmark/generate_results.json.py:173-281 | The module-level loop computes ScanOf |
| Extractor.CrashIsFinal | benchmark/generate_results.json.py:199 | Once a table raises, the whole scan ends in that crash |
| Extractor.RunsCarryFacts | benchmark/generate_results.json.py:256-280 | Every record of a file carries the file's error, fa and rpc |
| Extractor.RunsPerFile | benchmark/generate_results.json.py:223-225 | One record per parsed row with its lowercased test, or exactly one record with no test |
| Extractor.ErrorOnlyWithoutPerf | benchmark/generate_results.json.py:198-206 | A record is an error only when the table has no pp512/tg128 row, and its type is then detect_error's |
| Extractor.FaAndRpcOfFile | benchmark/generate_results.json.py:210-278 | The first integer "fa" column overrides the name flag; rpc is the directory flag or the name flag |
| Extractor.SkippedFile | benchmark/generate_results.json.py:176-178 | A file whose name has no "__" contributes nothing |
| Curation.IsFailedRun | benchmark/delete_transient_failures.py:67-76 | False when a row is pp512/tg128; otherwise true iff load, hang or generic matches; None iff parse_table raises |
| Curation.FailedRun | benchmark/delete_transient_failures.py:67-76 | The method computes IsFailedRun |
| Curation.LogClass | benchmark/delete_transient_failures.py:109-116 | A failed log is transient iff it lacks the Vulkan out-of-memory pair of messages, non-transient iff it has it |
| Curation.PartitionSpec | benchmark/delete_transient_failures.py:101-116 | The loop raises iff some readable log raises; otherwise to_delete holds exactly the transient failures and the keep list exactly the non-transient ones |
| Curation.PartitionUnique | benchmark/delete_transient_failures.py:101-116 | With distinct paths the two lists are disjoint and each holds only its own class |
| Curation.SortingSpec | benchmark/delete_transient_failures.py:98-116 | main deletes exactly the failed logs without the Vulkan out-of-memory pair and keeps exactly the failed ones with it |
| Curation.SortingSparesVram | benchmark/delete_transient_failures.py:112-116 | No log with the Vulkan out-of-memory pair is ever deleted, given distinct paths |
| Curation.PartitionRaised | benchmark/delete_transient_failures.py:101-116 | An exception on one log ends the whole loop |
| Curation.SortLogs | benchmark/delete_transient_failures.py:98-116 | The loop of main computes Sorting |
| Legacy.PerfRow | benchmark/parse_benchmark_results.py:8-9 | A row is found iff the pattern matches, with mean and std as digit strings |
| Legacy.ErrType | benchmark/parse_benchmark_results.py:36-44 | Load beats hang beats runtime; runtime only when the pp512 and tg128 rows are not both present |
| Legacy.ErrTypeVersusDetectError | benchmark/parse_benchmark_results.py:36-44 | The newer classifier is never milder than the older one |
| Legacy.CellOf | benchmark/parse_benchmark_results.py:46-56 | error iff an error type is set; with an error there is no mean or std; otherwise a mean iff the row matched |
| Legacy.SplitOnce | benchmark/parse_benchmark_results.py:32 | `split('__', 1)`: the parts rejoin to the name and the first has no separator |
| Legacy.Identify | benchmark/parse_benchmark_results.py:29-32 | A log has a (model, env) iff its name contains "__" |
| Legacy.DropMarks | benchmark/parse_benchmark_results.py:22-23 | Removing shard markers never lengthens a name |
| Legacy.DropMarksUnmarked | benchmark/parse_benchmark_results.py:22-23 | A name without markers is unchanged |
| Legacy.DropMarksSuffix | benchmark/parse_benchmark_results.py:22-23 | A name ending in one marker loses exactly that marker |
| Legacy.PutInLookup | benchmark/parse_benchmark_results.py:57 | The nested setdefault store is read back at its place and changes no other |
| Legacy.StoreLookup | benchmark/parse_benchmark_results.py:50-57 | Storing a log's two cells sets exactly pp512 and tg128 of its (model, env) |
| Legacy.ScanLatest | benchmark/parse_benchmark_results.py:27-57 | After the scan every cell is the one the last log of its model and env gives |
| Legacy.DataLatest | benchmark/parse_benchmark_results.py:27-57 | data holds, per (model, test, env), the last such log's cell, and only pp512/tg128 cells |
| Legacy.BothCellsWritten | benchmark/parse_benchmark_results.py:50-57 | Every scanned log writes both its pp512 and tg128 cells |
| Legacy.ScanLogs | benchmark/parse_benchmark_results.py:26-57 | The module-level loop computes DataOf |
| Legacy.Scores | benchmark/parse_benchmark_results.py:61 | The scores raise iff float() rejects a scored mean; there are at most as many scores as cells |
| Legacy.ScoresSpec | benchmark/parse_benchmark_results.py:61 | The scores are exactly the non-error cells with a mean, with their parsed means |
| Legacy.OthersOf | benchmark/parse_benchmark_results.py:65 | The other scores are exactly the values of the other keys |
| Legacy.OthersEmpty | benchmark/parse_benchmark_results.py:65-67 | There are no others iff every key is the winner |
| Legacy.PickWinnerSpec | benchmark/parse_benchmark_results.py:60-64 | '—' iff no cell is scored; a named env has a scored cell |
| Legacy.PickOfMax | benchmark/parse_benchmark_results.py:64 | The named env has the largest score, strictly above every earlier one |
| Legacy.PickOfRaises | benchmark/parse_benchmark_results.py:62-68 | The dash iff no scores. The pick raises iff, besides the winner (the first env with the largest score), some env scores 0 and none scores above 0 |
| Legacy.PickOfGain | benchmark/parse_benchmark_results.py:65-69 | A gain is reported iff another env has a score; it is non-negative for non-negative scores |
| Legacy.Gain | benchmark/parse_benchmark_results.py:68 | The percentage gain over a positive smaller score is non-negative |
| Ranking.FaToFilter | benchmark/generate_markdown_results.py:61-69 | on/off/any (lowercased, stripped) map to True/False/None; anything else raises ValueError |
| Ranking.KeepEnvs | benchmark/generate_markdown_results.py:51-57 | A label key is kept iff it is present (or all are included) and allowed by the only-env list |
| Ranking.EnvsPresent | benchmark/generate_markdown_results.py:49-58 | envs_present lists exactly the labelled envs present in the runs, restricted to the requested ones |
| Ranking.KeepEnvsOrdered | benchmark/generate_markdown_results.py:53-57 | The listed envs have no repeats |
| Ranking.GroupedEligible | benchmark/generate_markdown_results.py:86-96 | Every grouped record passes the error/test/fa/env filters and sits under its own (model, quant) key |
| Ranking.GroupEligible | benchmark/generate_markdown_results.py:85-96 | The grouping loop computes GroupRuns |
| Ranking.IneligibleIgnored | benchmark/generate_markdown_results.py:86-94 | A record failing any filter changes neither placements nor samples |
| Ranking.EnvListMembers | benchmark/generate_markdown_results.py:104 | env_list holds exactly the requested envs the group has records for |
| Ranking.ErrsOf | benchmark/generate_markdown_results.py:112 | Every margin read from the extractor's records is 0 |
| Ranking.SummarizeValid | benchmark/generate_markdown_results.py:109-117 | The summary holds exactly the listed envs with a mean, once each, with their own intervals |
| Ranking.SummarizeEnvs | benchmark/generate_markdown_results.py:109-117 | The summary loop computes Summarize |
| Ranking.SummaryMeaning | benchmark/generate_markdown_results.py:109-117 | Each summarised env's interval is its median of means widened by its median margin |
| Ranking.SummaryIntervals | benchmark/generate_markdown_results.py:109-117 | Every summary key has a mean and its own interval |
| Ranking.ZeroMargins | benchmark/generate_markdown_results.py:112-117 | With zero margins an interval is the single point of its median |
| Ranking.OverlapIsEquality | benchmark/generate_markdown_results.py:112-133 | Two envs overlap, and so share a rank, iff their medians are equal |
| Ranking.SortDesc | benchmark/generate_markdown_results.py:124 | The sorted order is a permutation of the keys |
| Ranking.SortDescSorted | benchmark/generate_markdown_results.py:124 | The sorted order runs from highest median to lowest |
| Ranking.SortedKeys | benchmark/generate_markdown_results.py:124 | The sorted keys are the summary keys, without repeats |
| Ranking.OverlappingMembers | benchmark/generate_markdown_results.py:131-134 | tied holds exactly the remaining envs whose intervals overlap the pivot's |
| Ranking.TiedWith | benchmark/generate_markdown_results.py:128-134 | The tie loop computes the pivot plus the overlapping envs |
| Ranking.Round | benchmark/generate_markdown_results.py:135-136 | Every tied env receives the current rank |
| Ranking.AppendRound | benchmark/generate_markdown_results.py:135-136 | The assignment loop appends one round |
| Ranking.FilterOut | benchmark/generate_markdown_results.py:137 | The remaining list shrinks whenever its head is tied |
| Ranking.FilterOutMembers | benchmark/generate_markdown_results.py:137 | The remaining list keeps exactly the untied envs |
| Ranking.RankRounds | benchmark/generate_markdown_results.py:127-138 | Every rank lies between the starting rank and 3 |
| Ranking.RankRoundsMembers | benchmark/generate_markdown_results.py:127-138 | Only envs still to be ranked are placed |
| Ranking.RankRoundsDistinct | benchmark/generate_markdown_results.py:127-138 | Each env is placed at most once per group |
| Ranking.RoundAt | benchmark/generate_markdown_results.py:127-136 | In any round up to 3, the first env still to be ranked and exactly the other envs whose intervals overlap its interval get the current rank |
| Ranking.NextRound | benchmark/generate_markdown_results.py:127-138 | After a round, exactly the envs that neither led it nor overlapped its leader remain. They stay in falling-median order, so the next round's leader has the highest median not yet ranked. The later rounds' ranks are kept |
| Ranking.RestMembers | benchmark/generate_markdown_results.py:137 | The envs left for the next round are those neither equal to the leader nor overlapping it |
| Ranking.FilterOutDescending | benchmark/generate_markdown_results.py:137 | Dropping the tied envs keeps the others in falling order |
| Ranking.TwoEnvRanks | benchmark/generate_markdown_results.py:124-138 | With two envs, the higher median gets rank 1 (the first on equal medians). The other env shares rank 1 when the intervals overlap and gets rank 2 otherwise |
| Ranking.RanksOfTwo | benchmark/generate_markdown_results.py:127-138 | Rounds over two distinct envs give [(hi, 1), (lo, 1)] on overlap, else [(hi, 1), (lo, 2)] |
| Ranking.LoneRound | benchmark/generate_markdown_results.py:127-138 | A single remaining env gets the current rank |
| Ranking.AssignRanks | benchmark/generate_markdown_results.py:124-138 | The `while remaining and current_rank <= 3` loop computes RankRounds |
| Ranking.RankEntries | benchmark/generate_markdown_results.py:101-138 | The per-group body computes RankGroup |
| Ranking.RankSummarySpec | benchmark/generate_markdown_results.py:118-138 | A group is ranked iff at least two envs have a mean; ranks are 1..3, placed envs are summarised and distinct, and the highest median leads |
| Ranking.RankedOrder | benchmark/generate_markdown_results.py:124-138 | In falling-median order the first env leads, ranks are distinct and within the summary |
| Ranking.LeadHighest | benchmark/generate_markdown_results.py:124-129 | The pivot has the highest median |
| Ranking.LeadTies | benchmark/generate_markdown_results.py:128-136 | Rank 1 goes to the pivot and exactly the envs overlapping it |
| Ranking.BumpRanks | benchmark/generate_markdown_results.py:140-146 | The placement loop computes BumpAll |
| Ranking.BumpCounts | benchmark/generate_markdown_results.py:141-146 | One bump adds one to its own env's slot for rank 1, 2 or 3, and nothing else changes. An absent env starts at zero. The table stays a dictionary |
| Ranking.BumpAllCounts | benchmark/generate_markdown_results.py:140-146 | Each slot of an env grows by the number of times the ranks place it at that rank |
| Ranking.PlacedOnce | benchmark/generate_markdown_results.py:135-136 | In one group's ranks each placement occurs at most once |
| Ranking.OnePlace | benchmark/generate_markdown_results.py:135-136 | An env holds at most one of ranks 1, 2 and 3 in a group |
| Ranking.GroupRanksDistinct | benchmark/generate_markdown_results.py:101-138 | A ranked group places requested envs, without repeats, at ranks 1 to 3 |
| Ranking.TalliedCounts | benchmark/generate_markdown_results.py:120-146 | A ranked group adds one to an env's slot exactly when it places the env at that rank. It adds at most one placement per sample |
| Ranking.PlacementCounts | benchmark/generate_markdown_results.py:98-146 | An env's first, second and third counts are the numbers of groups whose ranking places it first, second and third |
| Ranking.PlacedWithinSamples | benchmark/generate_markdown_results.py:120-146 | An env's placements never outnumber the samples |
| Ranking.PlacementsSpec | benchmark/generate_markdown_results.py:98-146 | samples is the number of ranked groups. Each env's three counts are the numbers of groups placing it first, second and third. Their sum is at most samples |
| Ranking.SamplesBound | benchmark/generate_markdown_results.py:98-121 | The sample count equals the number of (model, quant) groups that were ranked, so it never exceeds the number of groups |
| Ranking.MarginAwarePlacements | benchmark/generate_markdown_results.py:72-148 | The function computes Placements. samples is the number of ranked (model, quant) groups. Each env's first, second and third counts are the numbers of groups that place it there, and sum to at most samples |
| Pairwise.LatestKeys | benchmark/generate_markdown_results.py:152-163 | The keys of A are exactly the (model, quant) of compared records of envA |
| Pairwise.LatestOverwrites | benchmark/generate_markdown_results.py:160-163 | A later record for the same key replaces the earlier mean, other keys unchanged |
| Pairwise.Shared | benchmark/generate_markdown_results.py:165 | The shared keys are exactly those both sides hold |
| Pairwise.CountWins | benchmark/generate_markdown_results.py:164-173 | total == winsA + winsB + ties == the number of keys. winsA counts the keys where A's mean > B's, winsB those where B's > A's, ties those with equal means. It raises iff some key is missing on a side (KeyError) or has a None mean (TypeError) |
| Pairwise.CountFromSpec | benchmark/generate_markdown_results.py:165-171 | Counting on from a key raises iff a later key is unreadable. Otherwise each key adds one to the total. winsA grows by the keys where A's mean is greater, winsB by those where B's is, ties by those with equal means |
| Pairwise.CountFromTotals | benchmark/generate_markdown_results.py:165-171 | Counting on raises iff a later key is unreadable; otherwise each key adds one to the total and one to the three counts together |
| Pairwise.CountFromCounts | benchmark/generate_markdown_results.py:166-171 | From a key on, winsA grows by the keys with A[k] > B[k], winsB by those with B[k] > A[k], ties by the rest |
| Pairwise.PositionsStep | benchmark/generate_markdown_results.py:165-171 | A key is counted exactly when it meets the comparison |
| Pairwise.PositionsAsKeys | benchmark/generate_markdown_results.py:165 | Over keys without repeats, counting positions is counting keys |
| Pairwise.SharedCounts | benchmark/generate_markdown_results.py:164-171 | Over the shared keys, winsA, winsB and ties are the numbers of shared keys where A's mean is greater, B's is greater, or they are equal |
| Pairwise.CountWinsSwap | benchmark/generate_markdown_results.py:164-171 | Exchanging the sides exchanges the win counts |
| Pairwise.CountShared | benchmark/generate_markdown_results.py:165-171 | The counting loop computes CountWins |
| Pairwise.PairwiseWinsSpec | benchmark/generate_markdown_results.py:151-173 | Only keys both envs have are counted, once each, and the counts add up to the total. winsA is the number of shared keys where A's latest mean > B's. winsB is the number where it is <. ties is the number where they are equal. The call raises iff a shared key has a None mean on either side |
| Pairwise.PairwiseWinCounts | benchmark/generate_markdown_results.py:151-173 | The function's loops compute PairwiseWins |
| Pairwise.AverageRank | benchmark/generate_markdown_results.py:179-183 | None iff an env has no placements; otherwise the average lies in [1, 3] |
| Pairwise.AverageRanks | benchmark/generate_markdown_results.py:176-184 | One average per env, same keys and order, None iff no placements, else in [1, 3] |
| Pairwise.PlacementsPlaced | benchmark/generate_markdown_results.py:140-146 | Every env in the placement table was placed at least once |
| Pairwise.AveragesDefined | benchmark/generate_markdown_results.py:176-184 | Averages of margin_aware_placements' table are never None |
| Pairwise.MaxCount | benchmark/generate_markdown_results.py:292 | The max count bounds every count and is attained, or is 0 |
| Pairwise.WithCount | benchmark/generate_markdown_results.py:293 | The list holds exactly the envs with the given positive count |
| Pairwise.Winners | benchmark/generate_markdown_results.py:291-294 | [] iff the best count is 0; otherwise exactly the envs with the maximal count |
| Pairwise.BestPresent | benchmark/generate_markdown_results.py:292-293 | Some env has a positive count m iff the list for m is non-empty |
| Effects.PairsKeys | benchmark/generate_markdown_results.py:193-201 | The (env, test) groups are exactly those of usable records |
| Effects.PairRuns | benchmark/generate_markdown_results.py:192-201 | The pairing loop computes PairsOf |
| Effects.DeltasMembers | benchmark/generate_markdown_results.py:206-208 | A delta exists exactly for each (model, quant) with both states and a positive off value |
| Effects.GroupDeltas | benchmark/generate_markdown_results.py:205-208 | The delta loop computes Deltas |
| Effects.EffectOf | benchmark/generate_markdown_results.py:209-215 | No entry iff no deltas; n_pairs is the delta count and min ≤ median ≤ max are bounds of the deltas |
| Effects.SummaryEntries | benchmark/generate_markdown_results.py:204-215 | The summary holds exactly the groups that yield an entry |
| Effects.SummarizePairs | benchmark/generate_markdown_results.py:203-215 | The summary loop computes Summary |
| Effects.FlashEntrySpec | benchmark/generate_markdown_results.py:187-216 | Every reported entry belongs to a usable (env, test) group, has n_pairs > 0 and min ≤ median ≤ max |
| Effects.FlashGroupReported | benchmark/generate_markdown_results.py:204-215 | Every group with a delta is reported with its effect |
| Effects.FlashAttentionEffect | benchmark/generate_markdown_results.py:187-216 | The function's loops compute FlashEffects |
| Effects.SampleMedianSpec | benchmark/generate_markdown_results.py:242-243 | The median raises iff the list is empty or holds a None among several; a value is the median of all means |
| Effects.RatioOfSpec | benchmark/generate_markdown_results.py:241-245 | A ratio needs all means present and a positive off median and is on/off − 1; a skip is a non-positive off median |
| Effects.KeyRatio | benchmark/generate_markdown_results.py:242-245 | The per-key body computes RatioOf |
| Effects.Ratios | benchmark/generate_markdown_results.py:240-245 | The ratios raise iff some common key raises; at most one ratio per key |
| Effects.RatiosMembers | benchmark/generate_markdown_results.py:240-245 | A ratio comes from exactly a common key that yields it |
| Effects.CommonRatios | benchmark/generate_markdown_results.py:241-245 | The ratio loop computes Ratios |
| Effects.OutcomeOf | benchmark/generate_markdown_results.py:237-247 | An emitted row names its pair and test and rests on at least one ratio |
| Effects.OutcomeSpec | benchmark/generate_markdown_results.py:237-247 | A row counts the ratios of the common keys, 0 < n_pairs ≤ common, and its median lies between the smallest and largest ratio |
| Effects.CompareStates | benchmark/generate_markdown_results.py:237-247 | The per-test body computes OutcomeOf |
| Effects.CollectSamples | benchmark/generate_markdown_results.py:228-236 | The sample loop fills data_on and data_off |
| Effects.TestRowsSpec | benchmark/generate_markdown_results.py:227-247 | Every row of one triple names that triple and a requested test |
| Effects.TripleRows | benchmark/generate_markdown_results.py:227-247 | The per-triple loop computes TestRows |
| Effects.EffectRowsSpec | benchmark/generate_markdown_results.py:219-248 | Every row names a requested triple and test and has n_pairs > 0 |
| Effects.EffectRowsRaised | benchmark/generate_markdown_results.py:226-248 | Once one triple raises, the whole call raises |
| Effects.RocwmmaEffect | benchmark/generate_markdown_results.py:219-248 | rocwmma_effect computes EffectRows |
| Effects.HipblasltEffect | benchmark/generate_markdown_results.py:251-280 | hipblaslt_effect computes the same EffectRows |
| Viewer.ValuesOf | docs/assets/index2.js:604-614 | At most one value per listed backend |
| Viewer.ValuesOfSpec | docs/assets/index2.js:605-614 | Values are exactly the measured cells of listed backends, with a missing std read as 0 |
| Viewer.ValuePositions | docs/assets/index2.js:605-614 | Values keep the order of the backends: each value's backend sits at a strictly increasing position among the backends |
| Viewer.CollectValues | docs/assets/index2.js:604-614 | The first loop computes ValuesOf |
| Viewer.FindBest | docs/assets/index2.js:616-617 | The running maximum is the first index of the largest mean |
| Viewer.Within | docs/assets/index2.js:618-623 | At most one winner per value |
| Viewer.WithinSpec | docs/assets/index2.js:619-623 | A value is a winner iff best − mean ≤ max(0.25, pooled σ) |
| Viewer.KeepWithin | docs/assets/index2.js:618-623 | The third loop computes Within |
| Viewer.WinnersEmpty | docs/assets/index2.js:603-615 | No winners iff no listed backend has a measured cell |
| Viewer.BestWins | docs/assets/index2.js:616-623 | The first largest mean is a winner, since the tolerance is positive |
| Viewer.WinnersWithin | docs/assets/index2.js:603-624 | Every winner is a listed measured backend within tolerance of the best |
| Viewer.WinnerPositions | docs/assets/index2.js:618-624 | Winners keep the order of the values: each winner sits at a strictly increasing position among the values |
| Viewer.WinnerBackendPositions | docs/assets/index2.js:603-624 | Winners appear in the order of the backends: each winner sits at a strictly increasing position among the backends |
| Viewer.ComputeWinners | docs/assets/index2.js:603-625 | computeWinners computes WinnersOf |
| Viewer.Canonical | docs/assets/index2.js:669 | Every "_" becomes "." and nothing else changes |
| Viewer.TagsFrom | docs/assets/index2.js:670-675 | Every tag is one of the four lowercased tag names |
| Viewer.TagsSearch | docs/assets/index2.js:673-675 | Tags are collected match by match, each search resuming after the previous one |
| Viewer.NoTags | docs/assets/index2.js:670-675 | No tags iff the pattern matches nowhere |
| Viewer.BaseFrom | docs/assets/index2.js:676 | The base only holds characters of the name |
| Viewer.NoTagsBase | docs/assets/index2.js:676 | Without a match the base is the name itself |
| Viewer.SplitAccounts | docs/assets/index2.js:669-676 | The base plus the removed matches account for every character |
| Viewer.SplitEnvName | docs/assets/index2.js:668-678 | The exec loop and the replace compute the base and the tags |
| Viewer.SplitEnvNameSpec | docs/assets/index2.js:668-678 | No "_" in the base, lowercase tag names only, an empty tag list iff no match, and then the base is the canonical name |
| Viewer.FirstIndex | docs/assets/index2.js:579-580 | indexOf finds the first position, or none iff absent |
| Viewer.RelocateSpec | docs/assets/index2.js:582-583 | The two splices keep the length and the elements and put the moved one at the target |
| Viewer.MovedSpec | docs/assets/index2.js:577-583 | A move is a permutation of the same length with `from` at toIdx and the others in order; unchanged if either env is absent |
| Viewer.Viewer.constructor | docs/assets/index2.js:148-149 | The backend order starts as the env list and no size is known |
| Viewer.Viewer.MoveBackend | docs/assets/index2.js:577-586 | moveBackend leaves the order as Moved of the old order and changes nothing else |
| Viewer.Viewer.NoteSize | docs/assets/index2.js:201-204 | The size range widens to include a known size |
| Viewer.MinOr | docs/assets/index2.js:202 | Math.min against the running minimum |
| Viewer.MaxOr | docs/assets/index2.js:203 | Math.max against the running maximum |
| Viewer.UpdateRow | docs/assets/index2.js:196-210 | The update keeps the model, quant and backends |
| Viewer.UpdateRowSpec | docs/assets/index2.js:196-210 | A set size is kept; isRpc never reverts; "rpc" is appended at most once; re-applying changes nothing |
| Viewer.TestEntry.constructor | docs/assets/index2.js:173-177 | A new test entry has its name and no models |
| Viewer.TestEntry.EnsureModel | docs/assets/index2.js:182-212 | ensureModel creates or updates exactly the model's row and widens the size range by its size |
| Viewer.Passing | docs/assets/index2.js:590-598 | Exactly the rows passing the search, quant and size filters are kept |
| Viewer.SortBy | docs/assets/index2.js:599 | Sorting is a permutation |
| Viewer.SortBySorted | docs/assets/index2.js:599 | The result is in key order |
| Viewer.SortByNameSpec | docs/assets/index2.js:599 | The sorted rows are the same rows in name order |
| Viewer.FilterModelsSpec | docs/assets/index2.js:588-601 | filterModels returns exactly the passing rows, sorted by name |
| Viewer.FilterModels | docs/assets/index2.js:588-601 | The loop and sort compute that list |
| Viewer.LabelOf | docs/assets/index2.js:632-636 | "Default window" iff the default key; a token label only for a non-zero count |
| Viewer.TouchContextSpec | docs/assets/index2.js:156-170 | A context's token count is set only when unset; touching twice equals touching once |
| Viewer.ContextMap.constructor | docs/assets/index2.js:114 | The context map starts empty |
| Viewer.ContextMap.EnsureContext | docs/assets/index2.js:156-170 | ensureContext returns the touched entry and stores it under its key |
| Viewer.CompareContextsSpec | docs/assets/index2.js:140-147 | Default first, then contexts with tokens ascending, then the rest by key; antisymmetric |
| Viewer.BackendValue | docs/assets/index2.js:661-666 | A measured cell sorts by its mean |
| Viewer.UnmeasuredLast | docs/assets/index2.js:661-666 | An unmeasured backend sorts last in both directions |
| Viewer.NormalizeTest | docs/assets/index2.js:627-630 | None iff the name is missing or empty; otherwise the lowercased key and the original |
| Viewer.NormalizeKey | docs/assets/index2.js:627-630 | Normalising a normalised key gives it back |
| Summary.WithinToleranceSpec | benchmark/summarize_results.py:9-11 | Tolerance is monotone in the contender's mean, ignores its std, and admits the best iff its std is non-negative |
| Summary.BenchmarksSpec | benchmark/summarize_results.py:19-25 | Only pp512 and tg128 are keys, each holding exactly its successful runs |
| Summary.GroupBenchmarks | benchmark/summarize_results.py:20-25 | The first loop computes Benchmarks |
| Summary.GroupBySpec | benchmark/summarize_results.py:34-36 | Grouping yields each key once, holding exactly its elements in order |
| Summary.GroupBySizes | benchmark/summarize_results.py:34-36 | Every element lands in exactly one list |
| Summary.GroupByNonEmpty | benchmark/summarize_results.py:34-36 | No list is empty |
| Summary.GroupModels | benchmark/summarize_results.py:34-36 | The model loop computes the grouping by model |
| Summary.BestIndex | benchmark/summarize_results.py:40 | max raises iff the list is empty or holds a None mean among several; otherwise it gives the first largest mean |
| Summary.Counted | benchmark/summarize_results.py:45-50 | At most one label per entry |
| Summary.CountedSpec | benchmark/summarize_results.py:45-50 | A label is counted iff a measured entry with it is within tolerance |
| Summary.CountWithin | benchmark/summarize_results.py:45-50 | The inner loop bumps exactly the counted labels |
| Summary.ModelWinnersSpec | benchmark/summarize_results.py:38-50 | A model adds at most one count per entry, and its best entry is counted when its std is non-negative |
| Summary.BumpAllTotal | benchmark/summarize_results.py:50 | Each bump adds one to the total |
| Summary.TallyBound | benchmark/summarize_results.py:38-50 | The winner counts add up to at most the number of entries |
| Summary.SummaryOfSpec | benchmark/summarize_results.py:29-62 | total_models is the number of distinct models, and the counts add up to at most the number of runs |
| Summary.SummarizeBench | benchmark/summarize_results.py:29-62 | The per-test body computes SummaryOf |
| Summary.Summarize | benchmark/summarize_results.py:19-62 | The script's loops compute SummarizeAll of Benchmarks |
| ReadmeSummary.EnvOrderDistinct | benchmark/generate_readme_summary.py:8-15 | ENV_ORDER has no repeats |
| ReadmeSummary.FilterRuns | benchmark/generate_readme_summary.py:59-63 | filter_runs returns the first run whose model starts with the prefix on the env, None iff there is none |
| ReadmeSummary.FirstWithTest | benchmark/generate_readme_summary.py:104-105 | The `next(...)` lookup returns the first such run measuring the test, None iff there is none |
| ReadmeSummary.FormatCell | benchmark/generate_readme_summary.py:65-72 | "—" when a run is missing or, without errors, a mean is None; an error label when either errored, chosen by the first error type; otherwise both means |
| ReadmeSummary.CellForSpec | benchmark/generate_readme_summary.py:104-106 | A cell shows numbers only from successful first pp512 and tg128 runs; no pp512 run gives "—" |
| Pick.Collect | benchmark/generate_readme_summary.py:75-79 | vals holds only qualifying envs with their means, in ENV_ORDER order |
| ReadmeSummary.WinnerOfSpec | benchmark/generate_readme_summary.py:74-82 | find_winner is None iff no env qualifies; otherwise a qualifying env with the maximal mean |
| ReadmeSummary.WinnerOfFirst | benchmark/generate_readme_summary.py:76-82 | On ties the env earliest in ENV_ORDER wins |
| ReadmeSummary.WinnerOfFirstMatchOnly | benchmark/generate_readme_summary.py:77-78 | An env whose first matching run errored or measured another test never wins |
| ReadmeSummary.FindWinner | benchmark/generate_readme_summary.py:74-82 | The loop and max compute WinnerOf |
| ReadmeSummary.WinnerByTestSpec | benchmark/generate_readme_summary.py:104-105 | The corrected winner is None iff no env's first run of the test succeeded; otherwise the env with the largest such mean |
| ReadmeSummary.WinnerByTestCovers | benchmark/generate_readme_summary.py:104-105 | A backend whose first run of the test succeeded is never overlooked by the corrected winner |
| ReadmeSummary.WinnerByTestCoversCells | benchmark/generate_readme_summary.py:104-110 | When a cell shows numbers, both corrected winners exist and are at least that cell's means |
| ReadmeSummary.PpBeforeTgCell | benchmark/generate_readme_summary.py:104-106 | A pp512 run listed before a tg128 run gives a cell with both numbers |
| ReadmeSummary.PpBeforeTgAsWritten | benchmark/generate_readme_summary.py:77-78 | For those same runs find_winner(…, "tg128") is None |
| ReadmeSummary.PpBeforeTgCorrected | benchmark/generate_readme_summary.py:104-105 | For those runs the corrected tg128 winner is the backend |
| Pick.CollectComplete | benchmark/generate_readme_summary.py:76-79 | Every measured env has an entry in vals |
| Pick.MaxKeySpec | benchmark/generate_readme_summary.py:80-82 | No key iff nothing is measured; otherwise a measured env with the maximal value |
| Pick.MaxKeyFirst | benchmark/generate_readme_summary.py:82 | On ties the env listed first wins |
| Pick.MinKeySpec | benchmark/parse_loadtime_results.py:49-54 | No key iff nothing is measured; otherwise a measured env with the minimal value |
| Pick.MinKeyFirst | benchmark/parse_loadtime_results.py:51 | On ties the env listed first is chosen |
| LoadTime.EnvOrderDistinct | benchmark/parse_loadtime_results.py:12 | ENV_ORDER has no repeats |
| LoadTime.ClassifySpec | benchmark/parse_loadtime_results.py:22-36 | The success pattern is tried first from the stripped line's start and records env, model and the parsed average; a failure line records a failure; other lines record nothing |
| LoadTime.RecordLookup | benchmark/parse_loadtime_results.py:30 | Recording sets exactly one (model, env) entry |
| LoadTime.RecordValid | benchmark/parse_loadtime_results.py:30 | Recording keeps keys unique |
| LoadTime.LastFor | benchmark/parse_loadtime_results.py:22-36 | The reference: the last recording line for a (model, env), none iff no line records it |
| LoadTime.ParseFails | benchmark/parse_loadtime_results.py:29 | The script stops iff some average is rejected by float() |
| LoadTime.ParseLast | benchmark/parse_loadtime_results.py:22-36 | Every (model, env) holds what its last recording line stores; later lines overwrite earlier ones |
| LoadTime.ParseLinesWith | benchmark/parse_loadtime_results.py:23-36 | The line loop computes ParseWith |
| LoadTime.ParseLines | benchmark/parse_loadtime_results.py:22-36 | The script's loop computes ParseLog |
| LoadTime.FastestSpec | benchmark/parse_loadtime_results.py:49-54 | "—" iff no ENV_ORDER env has a time; otherwise an ENV_ORDER env with the smallest time |
| LoadTime.FastestFirst | benchmark/parse_loadtime_results.py:49-51 | On ties the env earliest in ENV_ORDER is chosen |
| LoadTime.CellOf | benchmark/parse_loadtime_results.py:55-63 | "—" iff the env is absent, "Fail" iff its time is None, otherwise its time |
| LoadTime.FastestCell | benchmark/parse_loadtime_results.py:49-63 | The fastest env's cell shows a time no larger than any other cell's |
| LoadTime.Models | benchmark/parse_loadtime_results.py:45 | One row per model |
| LoadTime.ModelsSpec | benchmark/parse_loadtime_results.py:45 | Models are listed once each, in case-insensitive order |
| LoadTime.CellsOf | benchmark/parse_loadtime_results.py:55-64 | One cell per ENV_ORDER env |
| LoadTime.RowCells | benchmark/parse_loadtime_results.py:55-64 | The cell loop computes CellsOf |
| LoadTime.BuildRows | benchmark/parse_loadtime_results.py:45-66 | The per-model loop builds one row per model, exactly the rows RowsFrom lists for the models in sorted order |
| LoadTime.RowsFromAt | benchmark/parse_loadtime_results.py:45-64 | The row at position k of the listing is the row built for the k-th sorted model, with its cells and its fastest backend |
| HostFilter.SkipBody | benchmark/temp.py:39-40 | The scan stops at the first blank line or the end, passing only non-blank lines |
| HostFilter.BlockShape | benchmark/temp.py:36-43 | A removed block is the start line, the following non-blank lines, and at most one blank line |
| HostFilter.SkipNonBlank | benchmark/temp.py:39-40 | The inner loop computes SkipBody |
| HostFilter.RemoveHostEntries | benchmark/temp.py:29-47 | The filter loop computes Kept |
| HostFilter.KeptPositions | benchmark/temp.py:29-47 | The kept lines are an order-preserving subsequence of the input |
| HostFilter.KeptNoHost | benchmark/temp.py:36-46 | No kept line, stripped, starts with "▶ [host]" |
| HostFilter.KeptWithoutHost | benchmark/temp.py:44-47 | Input without a host line passes through unchanged |
| HostFilter.KeptShorter | benchmark/temp.py:29-47 | Kept lines plus removed blocks never outnumber the input |
| HostFilter.PreviewHostEntries | benchmark/temp.py:89-105 | The preview loop computes PreviewFrom |
| HostFilter.PreviewCountsBlocks | benchmark/temp.py:92-105 | The preview counts exactly as many entries as the filter removes blocks |

## Left out

- File and directory I/O are not modelled: `glob`, reading and writing files, backups, `os.remove`, JSON loading and dumping, `argparse`, `input()` and printing. Inputs arrive as sequences of texts or records in listing order. The scripts' `main` functions are modelled only as far as they compute something.
- Markdown and HTML rendering is not modelled: table headers, `md_row`, `render_table`, README sections and all DOM, event and resize code in the viewer.
  - A table cell is a datatype holding the numbers it would print.
  - The title-cased header names are left out.
- Floating point is not modelled. `round`, `toFixed` and f-string formatting are left out, and throughputs are exact reals.
  - `float()` is modelled only on the digit-and-dot strings the patterns capture.
  - `int()` is modelled on the strings the scripts pass to it.
- `statistics.mean` and the `avg_perf` table of `benchmark/summarize_results.py` are not modelled.
- Summary.SummaryOfSpec: the re-ordering of the winner counts by count (`benchmark/summarize_results.py:60`) is not modelled. The counts are modelled in first-seen order.
- Pairwise.AverageRank: states the average before `round(…, 2)`.
- Effects.EffectOf: states the median, min and max before rounding to one decimal.
- Viewer.WithinSpec: `Math.sqrt` is replaced by the equivalent comparison of squares, valid for a gap above the 0.25 minimum tolerance.
- Viewer.SortByNameSpec: `localeCompare` is taken as plain code-unit order.
- Case folding is ASCII only. This covers Python's `lower()`, `upper()` and `re.IGNORECASE`, and the viewer's JavaScript `toLowerCase` (Viewer.NormalizeTest, the tag names of Viewer.SplitEnvName, the search filter of Viewer.Passing). The Unicode case mapping of other letters is not modelled.
- Digits are the ASCII digits `0`-`9` only (Basics.IsDigit and the `Digit`, `DigitDot` and `DigitDotComma` classes). Python 3's `\d` also matches every other Unicode decimal digit, and `float()` and `int()` accept those digits. So matches of TS_RE, NAME_B_RE, LONGCTX_RE, BUILD_RE, SHARD_RE, PARAMS_RE, GIB_RE, QUANT_RE, PP_RE/TG_RE and the `exit \d+` error pattern on non-ASCII digits are not modelled.
- Extractor.DigitField: reads only ASCII digit strings. Python's `str.isdigit()` is also true for other digit characters such as `²`, on which `int()` then raises ValueError and stops the script. The model gives None there instead of a crash.
- Ranking.RankSummarySpec: its own contract states the first round in full, and the rank bounds and distinctness for every round. Rounds 2 and 3 are stated round by round in Ranking.RoundAt and Ranking.NextRound, and the two-environment case in Ranking.TwoEnvRanks. There is no single closed form of all three rounds, because each round depends on who the previous rounds removed.
- Ranking.ErrsOf: the margin key `tps_err` is never written by the extractor, whose records carry `tps_std`. Every margin is therefore the default 0, and the record datatype has no `tps_err` field.
- The viewer's `prepareData` loop is not modelled as a whole. Its pieces are: `ensureContext`, `ensureModel`, the test entry `ensureTest` creates, and the context comparator. Left out are the `row.backends[env]` write, the environment and quant sets, and the initial filter state.
- The viewer's `sortBackendsByModel` is modelled only through `backendValue`. The JavaScript sort itself is not modelled.
- `remove_host_files` in `benchmark/temp.py` only globs and deletes files, so it is left out. So are the existence checks and prompts in its `main`.
- The extractor's `meta` block (timestamp, kernel string, sorted builds and environments) is left out. The scan's builds and environments are modelled as sets.
- `ggml/src/ggml-cuda/hip_shfl_fix.h` is not part of this model. It only aliases GPU intrinsics.

## Findings

| source | as written | input that shows it | evidently intended | confidence | as-written member | corrected member |
|---|---|---|---|---|---|---|
| benchmark/generate_readme_summary.py:77-78 | `find_winner` qualifies a backend only through `filter_runs`, which returns the first run of the model family on that backend whatever its test | runs [a, b] of one family on one backend of ENV_ORDER, both without error: a measured pp512 and is listed first, b measured tg128. The cell shows both numbers, but `find_winner(…, "tg128")` is None, so the "Best TG" column shows "—" | pick, per backend, the first run that measured the requested test, as the cell lookup at :104-105 does | not executed | ReadmeSummary.PpBeforeTgAsWritten | ReadmeSummary.PpBeforeTgCorrected |
