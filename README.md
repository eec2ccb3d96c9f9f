# TerminalCheats.Cli core, modelled in Dafny

The `terminal-cheats` tool reads shell history and builds a personal cheat sheet from it. Its pipeline has these stages:

- **Sanitise.** Each history line is cleaned: home directories become `~/`, long tokens become `<TOKEN>`, and `user@host` becomes `user`.
- **Parse.** The line is parsed into a command event: command, subcommand, flags, options and arguments.
- **Aggregate.** The events are folded into a per-command *pattern inventory*. A pattern is identified by a signature that keeps the flags and option keys but reduces values and arguments to their shapes (`url`, `path`, `number`, `addr`, `word`).
- **Filter.** Commands are dropped by configured regular expressions.
- **Diff.** The inventory is compared with the recorded state. Each command's patterns hash yields a regeneration plan of `new_command` and `patterns_changed` items.
- **Update state.** The plan is recorded in the state.
- **Write output.** Placeholder cheat-sheet entries are written, along with a text report of usage counts.

The command-line option parser and the name utilities complete the core.

The project has one module per service:
- `Sanitizer`, `CommandParser`, `ArgShape` (the argument-shape classifier), `Aggregator`, `DiffService`, `StateUpdater`, `PatternFilter`, `OptionParser`, `NameUtil`, `ReportWriter` and `EntryWriter`.
- `Models` holds the records passed between the stages.
- `Text`, `Dict` and `Ordering` are supporting modules:
  - `Text`: .NET string operations (`Trim`, `StartsWith`, `Split(c, 2)`, LINQ `Distinct` and `Take`);
  - `Dict`: `Dictionary<string, T>` with its comparer, kept as an insertion-ordered list of entries so that enumeration order is explicit;
  - `Ordering`: LINQ's stable `OrderBy` as an insertion sort, with its sortedness, stability and permutation lemmas.

Where the source works step by step, the model keeps the loop:
- the tokenizer's character loop;
- the parser's cursor loop;
- the snapshot fold;
- the diff loop;
- the state update;
- the filter loop;
- the option loop;
- the safe-file-name builder;
- the report's counting loops;
- the entry writer's loop.

Each of these becomes a `method` whose `ensures` ties the result to a specification function. The lemmas state what the source promises about those functions.

## Model

| member | source | states |
|---|---|---|
| Sanitizer.Sanitize | src/TerminalCheats.Cli/Services/Sanitizer.cs:7-14 | `SanitizeLine`: trim, then the home, token and host rewrites in that order. Its properties are the `Sanitize…` lemmas below |
| Sanitizer.HomePass | src/TerminalCheats.Cli/Services/Sanitizer.cs:19-20 | The `/home/[^/]+/` to `~/` replacement: a left-to-right scan that rewrites each match and copies every other character (`HomePassRewrites`, `HomePassNeedsSegment`, `HomePassNoHome`) |
| Sanitizer.TokenPass | src/TerminalCheats.Cli/Services/Sanitizer.cs:16-17 | The `\b[a-zA-Z0-9]{24,}\b` to `<TOKEN>` replacement, a scan that remembers whether the previous character was a word character (`TokenPassRewrites`, `TokenPassKeepsShortRun`, `TokenPassNeedsBoundary`, `TokenPassNoLongRun`) |
| Sanitizer.HostPass | src/TerminalCheats.Cli/Services/Sanitizer.cs:22-23 | The `([a-zA-Z0-9_.-]+)@[a-zA-Z0-9_.-]+` to user-part replacement (`HostPassCollapses`, `HostPassUnmatchedAt`, `HostPassNoAt`) |
| Sanitizer.SanitizeOnlyTrims | src/TerminalCheats.Cli/Services/Sanitizer.cs:7-14 | A line with no `/home/`, no `@` and no run of 24 letters and digits comes back only trimmed |
| Sanitizer.SanitizeOrder | src/TerminalCheats.Cli/Services/Sanitizer.cs:10-12 | The rewrites run in order: in `user@<long token>` the token is replaced first, after which the host rule no longer applies; the host rule alone would have collapsed it to `user` |
| Sanitizer.SanitizeUnpadded | src/TerminalCheats.Cli/Services/Sanitizer.cs:9-12 | The sanitised line neither starts nor ends with white space |
| Sanitizer.SanitizeBlankIff | src/TerminalCheats.Cli/Services/Sanitizer.cs:9-12 | The sanitised line is blank exactly when the input is |
| Sanitizer.SanitizeTrimmed | src/TerminalCheats.Cli/Services/Sanitizer.cs:9 | A line and its trimmed form sanitise alike |
| Sanitizer.HomePassRewrites | src/TerminalCheats.Cli/Services/Sanitizer.cs:19-20 | `/home/<segment>/` with a non-empty, slash-free segment becomes `~/` |
| Sanitizer.HomePassNeedsSegment | src/TerminalCheats.Cli/Services/Sanitizer.cs:19-20 | `/home/` followed by an empty segment, or by one not closed by `/`, is not rewritten there |
| Sanitizer.HomePassNoHome | src/TerminalCheats.Cli/Services/Sanitizer.cs:10 | Text without `/home/` passes the home rewrite unchanged |
| Sanitizer.TokenPassRewrites | src/TerminalCheats.Cli/Services/Sanitizer.cs:16-17 | A run of at least 24 letters and digits, with a word boundary on both sides, becomes `<TOKEN>` |
| Sanitizer.TokenPassKeepsShortRun | src/TerminalCheats.Cli/Services/Sanitizer.cs:16-17 | A shorter run between word boundaries is copied unchanged |
| Sanitizer.TokenPassNeedsBoundary | src/TerminalCheats.Cli/Services/Sanitizer.cs:16-17 | A long run glued to `_` on either side has no word boundary there and is kept |
| Sanitizer.TokenPassNoLongRun | src/TerminalCheats.Cli/Services/Sanitizer.cs:11 | Text without a long alphanumeric run passes the token rewrite unchanged |
| Sanitizer.HostPassCollapses | src/TerminalCheats.Cli/Services/Sanitizer.cs:22-23 | `user@host`, with both sides maximal runs of `[a-zA-Z0-9_.-]`, collapses to `user` |
| Sanitizer.HostPassNoAt | src/TerminalCheats.Cli/Services/Sanitizer.cs:12 | Text without `@` passes the host rewrite unchanged |
| Sanitizer.HostPassUnmatchedAt | src/TerminalCheats.Cli/Services/Sanitizer.cs:22-23 | A run followed by `@` and then a character outside the class is no match anywhere along the run |
| CommandParser.Lex | src/TerminalCheats.Cli/Services/CommandParser.cs:104-153 | The tokenizer's state machine over the rest of the line, the quote state and the token so far (`LexNoEmpty`, `LexQuotedRun`, `LexQuotedSpan`, `LexEscape`, `LexTrailingBackslash`, `LexUnterminatedQuote`) |
| CommandParser.Tokens | src/TerminalCheats.Cli/Services/CommandParser.cs:97-156 | `Tokenize` on a whole line: the lexer from outside any quote with an empty token (`TokensOfJoin`, `TokensEmptyQuotes`) |
| CommandParser.ParseLine | src/TerminalCheats.Cli/Services/CommandParser.cs:9-82 | `Parse`: the null cases, the `sudo`/`doas` drop, command, subcommand and the split of the rest (`ParseNoneIff`, `ParseCommand`, `ParseRawAndSource`) |
| CommandParser.SplitRest | src/TerminalCheats.Cli/Services/CommandParser.cs:39-65 | The cursor loop's classification of the remaining tokens into flags, option assignments and arguments (`SplitRestByRole`, `ValueFollowsOption`, `LongOptionTakesValue`, `ShortFlagTakesNoValue`) |
| CommandParser.Tokenize | src/TerminalCheats.Cli/Services/CommandParser.cs:97-156 | The character loop, with its quote state and backslash look-ahead, yields exactly the tokens of the lexer function |
| CommandParser.LexNoEmpty | src/TerminalCheats.Cli/Services/CommandParser.cs:131-139 | No token is ever empty |
| CommandParser.TokensOfJoin | src/TerminalCheats.Cli/Services/CommandParser.cs:131-139 | Words joined by any white space tokenize back to the same words |
| CommandParser.LexQuotedRun | src/TerminalCheats.Cli/Services/CommandParser.cs:107-122 | Inside a quote, every character except the closing quote and `\` is taken literally, white space and the other quote included |
| CommandParser.LexQuotedSpan | src/TerminalCheats.Cli/Services/CommandParser.cs:107-129 | A closed quoted span adds its body, without the delimiters, to the current token |
| CommandParser.LexUnterminatedQuote | src/TerminalCheats.Cli/Services/CommandParser.cs:150-153 | A quote that is never closed still flushes what it accumulated |
| CommandParser.LexEscape | src/TerminalCheats.Cli/Services/CommandParser.cs:113-116 | A backslash and the following character add that character, inside or outside quotes |
| CommandParser.LexTrailingBackslash | src/TerminalCheats.Cli/Services/CommandParser.cs:141-147 | A backslash at the very end of the line is kept literally |
| CommandParser.TokensEmptyQuotes | src/TerminalCheats.Cli/Services/CommandParser.cs:124-129 | An empty quoted pair alone yields no token |
| CommandParser.SplitLongOption | src/TerminalCheats.Cli/Services/CommandParser.cs:86-95 | `--key=value` splits at the first `=`; the key keeps its `--` |
| CommandParser.Parse | src/TerminalCheats.Cli/Services/CommandParser.cs:9-82 | The parser method gives exactly the event of the parse function |
| CommandParser.ClassifyRest | src/TerminalCheats.Cli/Services/CommandParser.cs:39-65 | The cursor loop fills the flags, options and arguments the split function describes |
| CommandParser.SplitRestByRole | src/TerminalCheats.Cli/Services/CommandParser.cs:39-65 | Every token lands in exactly one place: each role's tokens stay in order, and nothing is lost or duplicated |
| CommandParser.ValueFollowsOption | src/TerminalCheats.Cli/Services/CommandParser.cs:51-56 | A consumed value always directly follows a long option |
| CommandParser.LongOptionTakesValue | src/TerminalCheats.Cli/Services/CommandParser.cs:51-56 | `--name value` with a non-flag `value` becomes one option assignment |
| CommandParser.ShortFlagTakesNoValue | src/TerminalCheats.Cli/Services/CommandParser.cs:49-61 | `-x value` gives a flag; the next token is an argument |
| CommandParser.OptionsLastWins | src/TerminalCheats.Cli/Services/CommandParser.cs:42-56 | For a repeated key the last value wins; a key never assigned is absent |
| CommandParser.ParseNoneIff | src/TerminalCheats.Cli/Services/CommandParser.cs:13-25 | No event exactly when the line is blank, tokenizes to nothing, or is only `sudo` or `doas` |
| CommandParser.ParseCommand | src/TerminalCheats.Cli/Services/CommandParser.cs:20-37 | One leading `sudo`/`doas` is dropped and the next token is the command; the subcommand is the following token exactly when it is not a flag |
| CommandParser.ParseRawAndSource | src/TerminalCheats.Cli/Services/CommandParser.cs:67-75 | The event's raw text is the sanitised line, and it carries no timestamp |
| ArgShape.Classify | src/TerminalCheats.Cli/Services/ArgShapeClassifier.cs:7-16 | `Classify`: the five tests in source order (`ClassifyTable`, `NumberWins`, `UrlWins`) |
| ArgShape.MatchesNumber | src/TerminalCheats.Cli/Services/ArgShapeClassifier.cs:18-19 | The language of `^-?\d+(\.\d+)?$`, stated as a decomposition of the string, independent of the scanner `Classify` uses (`ScanNumberIff`) |
| ArgShape.ScanNumberIff | src/TerminalCheats.Cli/Services/ArgShapeClassifier.cs:18-19 | The hand-written scanner accepts exactly the strings described by `^-?\d+(\.\d+)?$` |
| ArgShape.ClassifyTable | src/TerminalCheats.Cli/Services/ArgShapeClassifier.cs:7-16 | First match wins: each shape is given exactly when its own test holds and no earlier test does |
| ArgShape.ClassifyName | src/TerminalCheats.Cli/Services/ArgShapeClassifier.cs:9-15 | The strings written are exactly the five shape names |
| ArgShape.NumberTextChars | src/TerminalCheats.Cli/Services/ArgShapeClassifier.cs:18 | A number starts with a digit or a minus and holds only digits, minus signs and dots |
| ArgShape.NumberWins | src/TerminalCheats.Cli/Services/ArgShapeClassifier.cs:10-13 | Whatever the number pattern describes is a `number`; no earlier test fires on it |
| ArgShape.NumberExamples | src/TerminalCheats.Cli/Services/ArgShapeClassifier.cs:13 | Example of `NumberWins`: `123` and `-4.5` are numbers |
| ArgShape.DotNeedsDigits | src/TerminalCheats.Cli/Services/ArgShapeClassifier.cs:18 | `1.` and `.5` are words |
| ArgShape.NumberBeforeLineFeed | src/TerminalCheats.Cli/Services/ArgShapeClassifier.cs:18 | The .NET end anchor also matches before a final line feed, so `12` followed by a line feed is a number |
| ArgShape.UrlWins | src/TerminalCheats.Cli/Services/ArgShapeClassifier.cs:10-11 | An `http://` or `https://` prefix, in any letter case, beats the slashes it contains |
| ArgShape.UrlExamples | src/TerminalCheats.Cli/Services/ArgShapeClassifier.cs:10-11 | Example of `UrlWins`: strings opening with `https://` or `HTTP://` are classified as `url` |
| ArgShape.SlashBeatsAt | src/TerminalCheats.Cli/Services/ArgShapeClassifier.cs:12-14 | Example of `ClassifyTable`: `a@b/c` is a path, as the slash test comes before the at-sign test |
| ArgShape.AtIsAddr | src/TerminalCheats.Cli/Services/ArgShapeClassifier.cs:14 | Example of `ClassifyTable`: `a@b.com` is an address |
| Aggregator.HistoryLine | src/TerminalCheats.Cli/Services/Aggregator.cs:88-104 | What one history line contributes: the trimmed command of a zsh extended-history line, or a non-blank plain line as it is (`ZshLineGivesCommand`, `ZshLineShape`, `PlainHistoryLine`) |
| Aggregator.SignatureOf | src/TerminalCheats.Cli/Services/Aggregator.cs:152-169 | The canonical tuple a signature is the hash of (`SignatureInvariance`, `ArgumentOrderMatters`) |
| Aggregator.BuildSignature | src/TerminalCheats.Cli/Services/Aggregator.cs:152-180 | `BuildSignature`: a fresh, uncounted pattern for an event (`BuildSignatureSpec`, `SignatureFlags`, `SignatureOptions`) |
| Aggregator.Touch | src/TerminalCheats.Cli/Services/Aggregator.cs:143-146 | One more use of a pattern: frequency, example, first and last seen |
| Aggregator.Record | src/TerminalCheats.Cli/Services/Aggregator.cs:134-146 | One event recorded on its command: one more use, then the matching pattern found or appended, then touched (`RecordAllDescribes`) |
| Aggregator.Step | src/TerminalCheats.Cli/Services/Aggregator.cs:128-146 | One turn of the loop of `BuildSnapshot`: find or create the command case-insensitively, then record the event |
| Aggregator.Fold | src/TerminalCheats.Cli/Services/Aggregator.cs:126-147 | The inventory after all events, in order (`GetFold`, `SnapshotCommand`, `TotalUsesCountEvents`, `FoldKeys`) |
| Aggregator.ZshLineGivesCommand | src/TerminalCheats.Cli/Services/Aggregator.cs:90-99 | `: <digits>:<digits>;cmd` gives `cmd` trimmed, or nothing when `cmd` is blank |
| Aggregator.ZshLineShape | src/TerminalCheats.Cli/Services/Aggregator.cs:90-99 | Every `: ` line that gives a command has the zsh shape, and gives the trimmed capture |
| Aggregator.PlainHistoryLine | src/TerminalCheats.Cli/Services/Aggregator.cs:101-104 | Other lines are kept verbatim unless blank |
| Aggregator.SignatureFlags | src/TerminalCheats.Cli/Services/Aggregator.cs:154 | The signature's flags are the event's flags in ordinal order, duplicates kept |
| Aggregator.SignatureOptions | src/TerminalCheats.Cli/Services/Aggregator.cs:155-157 | The signature's options are the event's keys in ordinal order, with value shapes |
| Aggregator.BuildSignatureSpec | src/TerminalCheats.Cli/Services/Aggregator.cs:152-180 | A fresh pattern holds the command, the subcommand, the sorted flags and options, one shape per argument in order, and no statistics |
| Aggregator.SignatureInvariance | src/TerminalCheats.Cli/Services/Aggregator.cs:154-169 | The signature depends on the flags only as a multiset, on the options only through their keys and value shapes, and on the arguments only through their shapes |
| Aggregator.ArgumentOrderMatters | src/TerminalCheats.Cli/Services/Aggregator.cs:158 | Swapping two arguments of different shapes changes the signature |
| Aggregator.RecordUse | src/TerminalCheats.Cli/Services/Aggregator.cs:134-146 | Recording one event on its command updates the record as the record function says |
| Aggregator.Apply | src/TerminalCheats.Cli/Services/Aggregator.cs:128-146 | One loop turn finds or creates the event's command, then records the use |
| Aggregator.BuildSnapshot | src/TerminalCheats.Cli/Services/Aggregator.cs:118-150 | The snapshot has version `0.1`, the clock reading, and the fold of all events |
| Aggregator.GetFold | src/TerminalCheats.Cli/Services/Aggregator.cs:126-147 | Looking a command up finds nothing when no event had it (in any case), and otherwise the record of exactly those events, in order |
| Aggregator.RecordAllDescribes | src/TerminalCheats.Cli/Services/Aggregator.cs:134-146 | Recording events one by one keeps the description: one pattern per distinct signature, each counting, exemplifying and time-stamping its own events |
| Aggregator.SnapshotCommand | src/TerminalCheats.Cli/Services/Aggregator.cs:126-147 | A command is present exactly when some event had it. Its entry keeps the first spelling and counts one use per event. It has one pattern per distinct signature, in first-seen order, and pattern frequencies add up to the uses |
| Aggregator.TotalUsesCountEvents | src/TerminalCheats.Cli/Services/Aggregator.cs:134 | The uses of all commands add up to the number of events |
| Aggregator.FoldKeys | src/TerminalCheats.Cli/Models/PatternInventory.cs:17 | No two commands in the inventory differ only in letter case, and each is keyed by its own name |
| Aggregator.NoTimestampsNoSeen | src/TerminalCheats.Cli/Services/Aggregator.cs:145-146 | Events without timestamps leave first and last seen unset |
| Aggregator.LastSeenFollowsArrival | src/TerminalCheats.Cli/Services/Aggregator.cs:146 | Example of `SnapshotCommand`: a pattern seen at 5 and then at 3 was last seen at 3, since last seen follows arrival order rather than the largest time |
| Aggregator.SpellingsShareEntry | src/TerminalCheats.Cli/Services/Aggregator.cs:128-139 | Two spellings of one command share one entry named as first written; their patterns stay apart |
| DiffService.Project | src/TerminalCheats.Cli/Services/DiffService.cs:58-65 | What of one pattern the hash covers, with its options in ordinal key order (`HashIgnoresStatsAndOptionOrder`) |
| DiffService.PatternsHash | src/TerminalCheats.Cli/Services/DiffService.cs:50-69 | `ComputePatternsHash`, as the canonical value hashed (`HashIgnoresPatternOrder`, `HashIgnoresStatsAndOptionOrder`) |
| DiffService.Considered | src/TerminalCheats.Cli/Services/DiffService.cs:26-28 | The stable descending sort by uses, cut to the limit (`ConsideredOrder`) |
| DiffService.Decide | src/TerminalCheats.Cli/Services/DiffService.cs:32-43 | The item one considered command calls for, if any (`PlanItemFacts`, `LeftOutIffUnchanged`) |
| DiffService.PlanItems | src/TerminalCheats.Cli/Services/DiffService.cs:30-44 | The items the loop of `RunAsync` appends (`PlanShape`, `PlanMembers`, `MissingStateAllNew`) |
| DiffService.HashIgnoresPatternOrder | src/TerminalCheats.Cli/Services/DiffService.cs:57 | The hash does not depend on the order of the pattern list |
| DiffService.HashIgnoresStatsAndOptionOrder | src/TerminalCheats.Cli/Services/DiffService.cs:58-65 | The hash ignores frequency, example, first and last seen, and the insertion order of options |
| DiffService.ConsideredOrder | src/TerminalCheats.Cli/Services/DiffService.cs:26-28 | The considered commands are a prefix of a stable descending sort by uses, which is a permutation of the inventory. Exactly min(limit, count) are taken with a limit (none for a limit of 0 or less), and all of them without one |
| DiffService.Judge | src/TerminalCheats.Cli/Services/DiffService.cs:32-43 | One loop turn gives the item the decision function calls for |
| DiffService.PlanFor | src/TerminalCheats.Cli/Services/DiffService.cs:30-44 | The loop collects exactly the items of the plan function |
| DiffService.Run | src/TerminalCheats.Cli/Services/DiffService.cs:15-48 | The plan has version `0.1`, the clock reading, and the items for the considered commands against the state (an empty one when the file is missing) |
| DiffService.PlanShape | src/TerminalCheats.Cli/Services/DiffService.cs:26-44 | The plan is drawn in order from the considered commands, with no command twice and at most `maxCommands` items |
| DiffService.PlanMembers | src/TerminalCheats.Cli/Services/DiffService.cs:30-44 | An item is in the plan exactly when some considered command calls for it |
| DiffService.PlanItemFacts | src/TerminalCheats.Cli/Services/DiffService.cs:33-43 | Every item carries its command's current hash. It is `new_command` exactly when the state has no entry, and `patterns_changed` only when the stored hash differs |
| DiffService.LeftOutIffUnchanged | src/TerminalCheats.Cli/Services/DiffService.cs:34-43 | A considered command is left out exactly when the state has an entry whose hash is the current one |
| DiffService.MissingStateAllNew | src/TerminalCheats.Cli/Services/DiffService.cs:17-18 | Without a state file every considered command is `new_command`, in order |
| DiffService.LookupIgnoresCase | src/TerminalCheats.Cli/Models/PatternInventory.cs:38 | The stored entry is found whatever the letter case of the stored name |
| StateUpdater.Combine | src/TerminalCheats.Cli/Services/StateUpdater.cs:21 | `Path.Combine` with `/` as the separator (`EntryPathShape`) |
| StateUpdater.EntryPath | src/TerminalCheats.Cli/Services/StateUpdater.cs:21 | The entry path recorded for a command (`EntryPathShape`) |
| StateUpdater.Applied | src/TerminalCheats.Cli/Services/StateUpdater.cs:19-28 | The indexer writes of the loop of `UpdateAsync`, one per plan item (`UpdateReadsLastItem`, `UpdateKeepsOthers`, `LaterItemWins`) |
| StateUpdater.Updated | src/TerminalCheats.Cli/Services/StateUpdater.cs:14-33 | The state after `UpdateAsync` (`UpdateStamp`, `PlannedIsCurrent`, `UnplannedStaysCurrent`, `RoundTrip`) |
| StateUpdater.Update | src/TerminalCheats.Cli/Services/StateUpdater.cs:14-33 | The loop writes one entry per plan item, then stamps the state, as the update function says |
| StateUpdater.EntryPathShape | src/TerminalCheats.Cli/Services/StateUpdater.cs:21 | The entry path is the entries directory, a separator and `<command>.json` |
| StateUpdater.UpdateReadsLastItem | src/TerminalCheats.Cli/Services/StateUpdater.cs:19-28 | A planned command reads the entry built from its last plan item: that item's hash, its entry path and the clock reading after it |
| StateUpdater.UpdateKeepsOthers | src/TerminalCheats.Cli/Services/StateUpdater.cs:16-28 | A command no item names keeps its entry, or has none when the state file was missing |
| StateUpdater.UpdateStamp | src/TerminalCheats.Cli/Services/StateUpdater.cs:16-30 | The state is stamped after the last item and keeps its version; a new state has version `0.1` |
| StateUpdater.LaterItemWins | src/TerminalCheats.Cli/Services/StateUpdater.cs:22 | Of two items for one command, in any letter case, the later one's hash is kept |
| StateUpdater.PlannedIsCurrent | src/TerminalCheats.Cli/Services/StateUpdater.cs:19-28 | A considered command that was planned is up to date afterwards |
| StateUpdater.UnplannedStaysCurrent | src/TerminalCheats.Cli/Services/StateUpdater.cs:19-28 | A considered command that was not planned is untouched |
| StateUpdater.RoundTrip | src/TerminalCheats.Cli/Services/StateUpdater.cs:14-33 | Diffing, recording the plan, then diffing the same inventory again with the same limit plans nothing |
| PatternFilter.Compiled | src/TerminalCheats.Cli/Services/PatternFilter.cs:14-17 | The filters that compile, in order (`CompiledMembers`) |
| PatternFilter.Kept | src/TerminalCheats.Cli/Services/PatternFilter.cs:30-41 | The commands the loop copies into the filtered inventory (`KeptIsUnmatched`, `DroppedIffMatched`) |
| PatternFilter.Removed | src/TerminalCheats.Cli/Services/PatternFilter.cs:30-38 | The commands the loop counts as filtered (`KeptIsUnmatched`, `FilterCounts`) |
| PatternFilter.ApplyFilters | src/TerminalCheats.Cli/Services/PatternFilter.cs:10-44 | `Apply`: the early returns, then the filtered inventory and its two counters (`NothingToApply`, `FilterCounts`, `FilterKeepsStamp`) |
| PatternFilter.FilterCommands | src/TerminalCheats.Cli/Services/PatternFilter.cs:27-41 | The loop keeps the unmatched commands, counts the removed ones and sums their uses |
| PatternFilter.Apply | src/TerminalCheats.Cli/Services/PatternFilter.cs:10-44 | The method gives exactly the filter function's result |
| PatternFilter.CompiledMembers | src/TerminalCheats.Cli/Services/PatternFilter.cs:14-18 | A configured pattern is used exactly when it compiles; the valid ones keep their order |
| PatternFilter.NothingToApply | src/TerminalCheats.Cli/Services/PatternFilter.cs:12-18 | With no filters, or none that compiles, the inventory comes back as it is and nothing is counted |
| PatternFilter.FilterKeepsStamp | src/TerminalCheats.Cli/Services/PatternFilter.cs:20-25 | The version and generation time are kept |
| PatternFilter.KeptIsUnmatched | src/TerminalCheats.Cli/Services/PatternFilter.cs:30-41 | The kept commands are the unmatched ones, unchanged and in inventory order; the removed ones are the others |
| PatternFilter.FilterCounts | src/TerminalCheats.Cli/Services/PatternFilter.cs:10-44 | Once some pattern compiles, `CommandsFiltered` counts matched commands and `UsesFiltered` sums their uses; kept plus removed accounts for all commands and uses |
| PatternFilter.DroppedIffMatched | src/TerminalCheats.Cli/Services/PatternFilter.cs:33 | A command is dropped exactly when some compiled pattern matches its name |
| OptionParser.Scan | src/TerminalCheats.Cli/Services/OptionParser.cs:10-36 | The loop of `Parse` as a recursion over the arguments: what it assigns and what it sets aside (`InlineValue`, `ConsumesNext`, `DefaultsToTrue`, `ScanByRole`, `RolesMeaning`) |
| OptionParser.Parse | src/TerminalCheats.Cli/Services/OptionParser.cs:5-39 | The loop gives the options and the rest of the scan function |
| OptionParser.ParseOne | src/TerminalCheats.Cli/Services/OptionParser.cs:12-35 | One loop turn advances by one or two arguments, assigning at most one option |
| OptionParser.InlineValue | src/TerminalCheats.Cli/Services/OptionParser.cs:13-20 | `--key=value` splits at the first `=`: the key holds no `=` and the value keeps any further `=` |
| OptionParser.ConsumesNext | src/TerminalCheats.Cli/Services/OptionParser.cs:22-26 | `--key value` takes the next argument when it does not start with `--` |
| OptionParser.DefaultsToTrue | src/TerminalCheats.Cli/Services/OptionParser.cs:27-30 | A bare `--key` at the end, or before another `--` argument, gets `"true"` |
| OptionParser.SingleDashIsValue | src/TerminalCheats.Cli/Services/OptionParser.cs:22 | Example of `ConsumesNext`: `--out -x` assigns `-x` to `--out` |
| OptionParser.LastValueWins | src/TerminalCheats.Cli/Services/OptionParser.cs:7-30 | Keys compare case-insensitively, and of repeated keys the last value wins |
| OptionParser.ScanByRole | src/TerminalCheats.Cli/Services/OptionParser.cs:10-36 | The rest is the arguments with the rest role, in order, and there is one assignment per option token |
| OptionParser.RolesMeaning | src/TerminalCheats.Cli/Services/OptionParser.cs:13-35 | Option tokens start with `--`. A consumed value follows an option without `=` and does not start with `--`. The rest holds no `--` argument |
| NameUtil.FileName | src/TerminalCheats.Cli/Services/NameUtil.cs:13 | `Path.GetFileName` with `/` as the only separator: the suffix after the last `/` |
| NameUtil.NormalizeCommandName | src/TerminalCheats.Cli/Services/NameUtil.cs:7-16 | A normalised name is not blank and at most 128 characters |
| NameUtil.NormalizedIsLastSegment | src/TerminalCheats.Cli/Services/NameUtil.cs:10-15 | A normalised name is the last `/` segment of the trimmed input and holds no control character |
| NameUtil.NormalizeNoneIff | src/TerminalCheats.Cli/Services/NameUtil.cs:9-14 | Null exactly for blank input, a trimmed length over 128, a control character, or a blank last segment |
| NameUtil.TrailingSlashIsNull | src/TerminalCheats.Cli/Services/NameUtil.cs:13-14 | A trailing `/` gives null |
| NameUtil.PathReducedToLastSegment | src/TerminalCheats.Cli/Services/NameUtil.cs:13-15 | A path with a non-blank last segment normalises to that segment |
| NameUtil.SafeFileName | src/TerminalCheats.Cli/Services/NameUtil.cs:18-34 | What `ToSafeFileName` returns (`ReplacedAt`, `SafeFileNameShape`, `BlankIsFallback`, `SafeFileNameIsSafe`, `CutCanEndInSpace`) |
| NameUtil.ToSafeFileName | src/TerminalCheats.Cli/Services/NameUtil.cs:18-34 | The builder loop gives the safe-file-name function's result |
| NameUtil.ReplacedAt | src/TerminalCheats.Cli/Services/NameUtil.cs:23-29 | Invalid characters, `:` and `\` become `_`; every other character is kept, position by position |
| NameUtil.SafeFileNameShape | src/TerminalCheats.Cli/Services/NameUtil.cs:20-33 | The result is never blank, does not start with white space, and is at most 80 characters |
| NameUtil.BlankIsFallback | src/TerminalCheats.Cli/Services/NameUtil.cs:20 | Blank input gives `"command"` |
| NameUtil.SafeFileNameIsSafe | src/TerminalCheats.Cli/Services/NameUtil.cs:18-34 | When `_` and the letters of `command` are valid, no unsafe character survives |
| NameUtil.CutCanEndInSpace | src/TerminalCheats.Cli/Services/NameUtil.cs:30-32 | Trimming comes before the 80-character cut, so the result can end in white space |
| ReportWriter.ReportOf | src/TerminalCheats.Cli/Services/ReportWriter.cs:26-98 | The values `BuildReport` prints: limits, command count, total uses, unique patterns and the three listings (`DefaultLimits`, `TotalUsesOfBuiltInventory`) |
| ReportWriter.TopCommands | src/TerminalCheats.Cli/Services/ReportWriter.cs:44-48 | The top commands listing (`TopCommandsOrder`) |
| ReportWriter.Tally | src/TerminalCheats.Cli/Services/ReportWriter.cs:56-72 | The counts the nested loops accumulate (`CountsMeaning`, `TallyDistinct`) |
| ReportWriter.TopCounts | src/TerminalCheats.Cli/Services/ReportWriter.cs:75-91 | The top flags and top options listings (`TopCountsOrder`, `TopCountsIgnoreInsertionOrder`, `ListedCounts`, `LeftOutRankLower`) |
| ReportWriter.BuildReport | src/TerminalCheats.Cli/Services/ReportWriter.cs:26-98 | The method gives the report function's values: totals, top commands, top flags and top options |
| ReportWriter.DefaultLimits | src/TerminalCheats.Cli/Services/ReportWriter.cs:29-31 | Without limits each listing holds at most 20 entries |
| ReportWriter.TopCommandsOrder | src/TerminalCheats.Cli/Services/ReportWriter.cs:44-48 | Top commands are a prefix of all commands sorted by uses, most first, ties in ordinal name order. Each listed command ranks at or above each left out, and `limit` are listed when there are enough |
| ReportWriter.AddOccurrences | src/TerminalCheats.Cli/Services/ReportWriter.cs:62-70 | The innermost loop adds a pattern's frequency for each of its keys |
| ReportWriter.CountPatterns | src/TerminalCheats.Cli/Services/ReportWriter.cs:60-71 | The loop over one command's patterns tallies flags and option keys |
| ReportWriter.CountAll | src/TerminalCheats.Cli/Services/ReportWriter.cs:56-72 | The loop over all commands gives the flag and option tallies |
| ReportWriter.CountsMeaning | src/TerminalCheats.Cli/Services/ReportWriter.cs:56-72 | A key has a count exactly when some pattern lists it; the count is the sum of the listing patterns' frequencies, once per listing |
| ReportWriter.TallyDistinct | src/TerminalCheats.Cli/Services/ReportWriter.cs:56-57 | Each key is counted in one entry |
| ReportWriter.TopCountsOrder | src/TerminalCheats.Cli/Services/ReportWriter.cs:75-91 | A listing is a prefix of all counts sorted highest first, ties in ordinal key order; listed entries rank at or above the rest |
| ReportWriter.TopCountsIgnoreInsertionOrder | src/TerminalCheats.Cli/Services/ReportWriter.cs:75-79 | With one entry per key, a listing does not depend on the order keys were first counted in |
| ReportWriter.ListedCounts | src/TerminalCheats.Cli/Services/ReportWriter.cs:62-79 | Every listed key is listed by some pattern and carries its occurrence count |
| ReportWriter.LeftOutRankLower | src/TerminalCheats.Cli/Services/ReportWriter.cs:75-79 | A key a pattern lists but the listing omits has a count no higher than any listed one |
| ReportWriter.TotalUsesOfBuiltInventory | src/TerminalCheats.Cli/Services/ReportWriter.cs:33 | For an inventory built from events, the total uses is the number of events |
| EntryWriter.BuildSyntaxPattern | src/TerminalCheats.Cli/Services/EntryWriter.cs:83-90 | `BuildSyntaxPattern` (`CleanSignatureJoined`, `MissingSubcommandDropped`) |
| EntryWriter.TopPatterns | src/TerminalCheats.Cli/Services/EntryWriter.cs:37-41 | The patterns an entry shows syntax for (`TopPatternsOrder`) |
| EntryWriter.SortedNames | src/TerminalCheats.Cli/Services/EntryWriter.cs:43-55 | The distinct flags or option keys of the patterns, in ordinal order (`SortedNamesShape`) |
| EntryWriter.ExamplePatterns | src/TerminalCheats.Cli/Services/EntryWriter.cs:59-64 | The patterns an entry takes examples from (`ExamplesShape`) |
| EntryWriter.BuildPlaceholderEntry | src/TerminalCheats.Cli/Services/EntryWriter.cs:35-81 | `BuildPlaceholderEntry`, without its constant empty fields (`EntryShape`) |
| EntryWriter.WrittenAll | src/TerminalCheats.Cli/Services/EntryWriter.cs:15-33 | What `WritePlaceholderAsync` writes, in plan order (`WrittenArePresent`, `PathMatchesStateWhenSafe`, `ColonNamesDifferentFile`) |
| EntryWriter.CleanSignatureJoined | src/TerminalCheats.Cli/Services/EntryWriter.cs:83-90 | For clean subcommand, flags and option keys, the syntax pattern is the non-empty parts joined by single spaces, in order, with nothing to trim |
| EntryWriter.MissingSubcommandDropped | src/TerminalCheats.Cli/Services/EntryWriter.cs:85-89 | A missing subcommand contributes an empty part, which is dropped |
| EntryWriter.TopPatternsOrder | src/TerminalCheats.Cli/Services/EntryWriter.cs:37-41 | Syntax patterns come from the most frequent patterns, descending, ties in inventory order, at most the limit |
| EntryWriter.SortedNamesShape | src/TerminalCheats.Cli/Services/EntryWriter.cs:43-55 | The flags (and the option keys) listed are exactly those some pattern has, each once, in strictly increasing ordinal order |
| EntryWriter.ExamplesShape | src/TerminalCheats.Cli/Services/EntryWriter.cs:59-64 | The examples come from the patterns with a non-blank example: a prefix of their stable sort by frequency, most frequent first, exactly min(8, their number) of them. Each listed pattern ranks at or above each left out, and each is shown by its representative example |
| EntryWriter.EntryShape | src/TerminalCheats.Cli/Services/EntryWriter.cs:57-80 | An entry names its command and version `0.1`. Its syntax patterns are those of the top patterns, in order, and its examples those of the example patterns. It lists flags before option keys and records the hash as both patterns hash and input hash |
| EntryWriter.WriteOne | src/TerminalCheats.Cli/Services/EntryWriter.cs:23-26 | One loop turn builds the entry, its safe file name and its path |
| EntryWriter.WritePlaceholders | src/TerminalCheats.Cli/Services/EntryWriter.cs:15-33 | The loop writes exactly the entries the writing function describes, in order |
| EntryWriter.WrittenArePresent | src/TerminalCheats.Cli/Services/EntryWriter.cs:18-22 | Entries are written for the plan items whose command the snapshot holds, in plan order; other items are skipped |
| EntryWriter.PathMatchesStateWhenSafe | src/TerminalCheats.Cli/Services/EntryWriter.cs:24-25 | When the command is already a safe file name, the entry goes where the state update records it |
| EntryWriter.ColonNamesDifferentFile | src/TerminalCheats.Cli/Services/EntryWriter.cs:24-25 | A `:` in the command is replaced in the written file name but kept in the recorded path, so the two differ |
| Ordering.SortBySorted | src/TerminalCheats.Cli/Services/ReportWriter.cs:44-46 | A stable sort's result is sorted under the comparison |
| Ordering.SortByStable | src/TerminalCheats.Cli/Services/DiffService.cs:26-27 | Elements with equal keys come out in input order |
| Ordering.SortByPermutation | src/TerminalCheats.Cli/Services/ReportWriter.cs:75-77 | Sorting by a comparison under which distinct elements never tie does not depend on input order |

## Left out

- File reading and writing, and JSON: the history files, `state.json`, the plan, the entries and `report.txt` are not modelled. The state file is a parameter, `None` when missing. The writers return what they would write. The catch-all handlers and warning messages around I/O are not modelled either.
- SHA-256: a signature is its canonical tuple. A patterns hash is its canonical digest, with the patterns as a multiset of projections. Hash collisions are therefore not modelled. The source lists a command's patterns sorted by signature with a stable sort; the multiset digest matches that listing when no two patterns share a signature, which `Aggregator.SnapshotCommand` proves for every inventory `BuildSnapshot` makes.
- The .NET regular-expression engine: the three sanitiser patterns, the zsh line pattern and the number pattern are written out as scanners over ASCII (`\d`, `\w` and `\b` are ASCII here). Filter patterns are parameters: whether each compiles, and whether it matches a name.
- Clock readings (`DateTimeOffset.UtcNow`) are parameters: `now`, or a `Clock` giving one reading per loop turn in `StateUpdater.Update`.
- `OrdinalIgnoreCase` is ASCII case folding. Culture-sensitive `StartsWith` calls are treated as ordinal.
- Strings are sequences of Unicode scalar values, not of UTF-16 code units as in .NET. A character outside the Basic Multilingual Plane is one `char` here and two code units in the source. Three consequences follow, on the lines below.
- NameUtil.NormalizeCommandName: the 128 limit counts characters, not UTF-16 code units, so a name of 65 such characters is accepted here but rejected by the source.
- NameUtil.ToSafeFileName: the 80 cut counts characters, so it never splits a surrogate pair. The source's cut can split one, and it keeps fewer characters when the name holds such characters.
- Ordering.StrLe: ordinal order here is order of code points. .NET compares UTF-16 code units, which puts U+E000 to U+FFFF after the supplementary characters rather than before them.
- `int` counters are unbounded (`nat`); overflow of `TotalUses`, `Frequency` and the report's sums is not modelled. `int.MaxValue` as the default take count is kept as a constant.
- Objects updated in place (`CommandPatterns`, `PatternSignature`, the snapshot's and the state's dictionaries) are modelled as values rebuilt by each loop turn. Aliasing between them is therefore not modelled.
- `Dictionary` is modelled as an insertion-ordered list of entries. Re-assigning a key keeps its first spelling and position, as .NET does for a key already present.
- `Path.Combine` and `Path.GetFileName` are the Unix forms, with `/` as the only separator. `Path.GetInvalidFileNameChars()` is a parameter set.
- JSON round trip of the dictionaries: after deserialisation .NET would build them with the default case-sensitive comparer. The model keeps the declared `OrdinalIgnoreCase` (`Models/PatternInventory.cs:17,38`) throughout.
- The placeholder entry's constant fields: `when_i_use_it`, `subcommands`, `pitfalls` and `related_commands` (always empty), the empty descriptions and `why` texts, and `run_id` (null). The summary text is kept as the generator mode only.
- `EntryWriter.WritePlaceholders` gives all entries of one run the same `regenerated_at` reading; the source reads the clock once per entry.
- `EnsureBaseFolders`, `Program.cs`, the prompt writers, `async` and cancellation are not part of this model. The report's text layout (line formats, column widths) is not modelled; `ReportWriter.BuildReport` stops at the values printed.
- `StateUpdater.Update` takes the `patterns` argument of `UpdateAsync` but, like the source, never consults it.
- DiffService tie-break: `RunAsync` orders the commands by `OrderByDescending(TotalUses)` alone (`DiffService.cs:26-28`), with no tie-break, so commands with equal use counts stay in inventory order. `DiffService.ConsideredOrder` states this.
