# Automated bot pipeline: a verified model

This project models the deterministic core of a pipeline that builds
training data for a question-answering bot. The pipeline has four stages.

1. **Generate paraphrases** (`generate_paraphrases.py`). A generation service
   is asked for 200 paraphrases of each tag's example questions. The run
   resumes from a progress checkpoint. Each tag's questions are written to an
   artifact file of its own.
2. **Merge** (`merge_results.py`). The artifact files are merged into one
   dataset, and the result is validated.
3. **Tag queries** (`query_tag_processor.py`, with a second copy of the
   loader in `bot_automate.py`). A query/answer/id table is grouped by id.
   Each group gets a tag that is cleaned and made unique. The query→tag and
   tag→answer files are then derived.
4. **Analyse accuracy** (`wrong_tag_analysis.py`). Evaluation results are
   counted per expected tag. The best and worst tags are chosen, and a
   sorted, optionally truncated table is produced.

## Modules

- `Common` (common.dfy): shared types.
  - `Option` and `Result`.
  - A two-column CSV file (`CsvFile`).
  - `Dict`, a Python `dict` with its insertion order: a key sequence plus a
    map.
  - Python's `s[:n]`.
- `Strings` (strings.dfy): the parts of `str` the pipeline uses. These are
  `strip`, `strip(chars)`, `lower`, `replace`, `split`/`join` on one
  character, `str(n)` and the order `<`.
- `Sorting` (sorting.dfy): Python's stable `sort`/`sorted` with a key. It is
  proved sorted, a permutation and stable. A descending sort
  (`reverse=True`) is modelled as the same stable sort with the comparison
  reversed.
- `Paths` (paths.dfy): `os.path.join` and `os.path.dirname`.
- Modules for `generate_paraphrases.py`:
  - `ExampleStore` (example_store.dfy): the tag work list, the tag→questions
    index, the tag→answer lookup and the bounded random draw of examples.
  - `GenerationClient` (generation_client.dfy): reading a reply into
    questions, and the bounded retry loop.
  - `Orchestrator` (orchestrator.dfy): the resumable main loop. It is a
    class whose fields are the checkpoint, the artifact directory and a call
    counter. The services are oracles.
- `Merge` (merge.dfy): `merge_results.py`. Files live in a `Disk` class whose
  one field maps paths to CSV files.
- `Grouping` (grouping.dfy): the row-filtering and grouping loop of
  `load_csv`, which both copies of the processor share.
- `QueryTags` (query_tags.dfy): `QueryTagProcessor` of
  `query_tag_processor.py`, as a class with the source's six fields.
- `BotAutomate` (bot_automate.dfy): the `QueryTagProcessor.load_csv` of
  `bot_automate.py`.
- `TagAnalysis` (tag_analysis.dfy): `TagAnalyzer` of `wrong_tag_analysis.py`,
  as a class whose field holds the per-tag counters.

### How the outside world is modelled

- The generation service is a function `service: nat -> Response` from the
  global call number to a transport fault or a reply text. The tagging
  service is `replies: nat -> TagReply`.
- `random.sample` is a choice function `choose: nat -> nat`. The model
  proves that any choice gives a valid sample.
- CSV input is a `Table`: optional field names plus records, each a
  `map<string, string>`.
- The directory listing for merging is a parameter. So is today's date.
- Whether the OpenAI client could be set up is the `clientReady` flag.
- Exceptions become `Result`/`Option` error values. These are
  `IndexError` for a negative start index, `KeyError` for a missing column
  or a stale group, `ValueError` for a missing column and `RuntimeError`
  for "no data" or "no tags".

### Reloading keeps earlier tags

`load_csv` resets only `data`, `id_to_queries` and `id_to_answer`
(`query_tag_processor.py:58-60`, and `bot_automate.py:47-49` in the
second copy). `id_to_tag`, `query_tag` and `tag_answer` keep what an
earlier `generate_tags` put there. A second `generate_tags` then walks the
old ids of `id_to_tag` as well, and line 200 raises `KeyError` on
`id_to_answer` for an old id that the new table does not have
(`QueryTags.ReloadKeepsStaleGroup`). The model follows the code. A crash
on the second load-and-tag cannot be what the authors wanted from a
reusable processor, so the reset of all six fields is taken as the intent
and modelled as `LoadCsvClearingTags` (second finding below).

### Where the code and the documentation disagree

The questions the parser reads may still begin with a digit. The parser
strips one leading run of digits, then enumeration marks, so
`"1. 2024 budget"` is read as `"2024 budget"`.
`GenerationClient.CleanLineKeepsLeadingNumber` proves this, and the model
does not claim that parsed questions never start with a digit.

## Model

| member | source | states |
|---|---|---|
| Common.Dict.PutValid | query_tag_processor.py:185 | Assigning `d[k] = v` keeps the dictionary well formed: its listed keys stay distinct and are exactly the keys of its map |
| Common.PyPrefix | wrong_tag_analysis.py:92 | `s[:n]` has length `min(n, len)` for `n >= 0`, and drops `-n` elements from the end for negative `n`; the result is always a prefix of `s` |
| Strings.StripEnds | query_tag_processor.py:74-76 | What `str.strip()` returns neither starts nor ends with whitespace |
| Strings.StripIdempotent | generate_paraphrases.py:196-201 | Stripping twice is the same as stripping once |
| Strings.SplitJoin | generate_paraphrases.py:194 | Splitting on a separator undoes joining with it when no part contains the separator |
| Strings.JoinSplit | generate_paraphrases.py:194 | Joining the parts of a split gives back the original text |
| Strings.NatToStringInjective | query_tag_processor.py:181 | Different counters render to different decimal strings |
| Sorting.SortSorted | generate_paraphrases.py:54 | The modelled `sorted` puts any input in order under any strict weak order; it is also a permutation of its input |
| Sorting.SortStable | wrong_tag_analysis.py:152 | Elements with equal sort keys keep their original relative order |
| Sorting.SortDeterminedByElements | merge_results.py:26 | When the order tells every two different elements apart, the result depends only on which elements there are, not on their input order |
| Sorting.LowerOrder | generate_paraphrases.py:54 | Comparing by `str.lower` is a strict weak order, so sorting with `key=str.lower` is well defined |
| Sorting.SortOfSorted | generate_paraphrases.py:54 | Sorting a list that is already in order gives it back unchanged |
| Paths.DirnameOfJoin | merge_results.py:128 | `dirname(join(dir, name))` is `dir` for a name without a slash, whenever `dir` is a value `dirname` can return |
| Paths.DirnameShaped | merge_results.py:128 | What `os.path.dirname` returns is empty, all slashes, or does not end in a slash |
| ExampleStore.CollectTags | generate_paraphrases.py:47-53 | The loop collects exactly the stripped tags of the rows that are non-empty and not `fraction` |
| ExampleStore.ListSet | generate_paraphrases.py:54 | `list(set)` lists every member of the set once, in some order |
| ExampleStore.UniqueTagsAsWritten | generate_paraphrases.py:45-54 | The work list from any listing of the set is duplicate-free and holds exactly the kept tags: none empty, none `fraction`, each stripped. It is ordered by the lowered spelling |
| ExampleStore.GetUniqueTagsAsWritten | generate_paraphrases.py:45-54 | The method returns the sorted work list of whichever listing order the set happened to give |
| ExampleStore.TagOrder | generate_paraphrases.py:54 | The corrected key, lowered spelling then raw spelling, is a strict weak order |
| ExampleStore.UniqueTags | generate_paraphrases.py:45-54 | The corrected work list has every property of the as-written one |
| ExampleStore.UniqueTagsDeterministic | generate_paraphrases.py:54 | With the corrected key, every listing order of the set sorts to the same work list |
| ExampleStore.CorrectedOrderIsOneOutcome | generate_paraphrases.py:45-54 | The corrected work list is a listing of the tag set that the as-written sort leaves as it is, so it is one of the work lists the code as written can produce |
| ExampleStore.GetUniqueTags | generate_paraphrases.py:45-54 | The method computes the corrected work list |
| ExampleStore.UniqueTagsAgreeWithoutCaseTies | generate_paraphrases.py:54 | When no two kept tags lower-case alike, the as-written and corrected work lists are equal |
| ExampleStore.CaseTiesFollowHashOrder | generate_paraphrases.py:54 | For two tags that lower-case alike, the as-written work list is in whatever order the set listed them, so the two listing orders give two different work lists |
| ExampleStore.VoteTie | generate_paraphrases.py:51-54 | `"Vote"` and `"vote"` are such a pair |
| ExampleStore.QuestionsForEmpty | generate_paraphrases.py:77-83 | A tag's question list is empty exactly when no row stores a question under it |
| ExampleStore.LoadExampleQuestions | generate_paraphrases.py:65-85 | A tag is a key exactly when some row is not `fraction` and has a non-blank question. Its list is those rows' stripped questions in file order, and it is never empty |
| ExampleStore.PaddedTagListedWithoutExamples | generate_paraphrases.py:51-53 | A tag written with a leading space is in the work list in stripped form, but the index has no entry for the stripped tag (it keys on the raw tag, lines 77 and 83) |
| ExampleStore.LoadAnswersLookup | generate_paraphrases.py:56-63 | The lookup's keys are exactly the tags of the rows. Each tag maps to the answer of the last row carrying it |
| ExampleStore.GetRandomExamples | generate_paraphrases.py:87-102 | An unknown tag gives `[]`. At most `k` stored questions are returned unchanged. Otherwise exactly `k` questions come back, taken from distinct positions of the stored list |
| GenerationClient.CleanLineSteps | generate_paraphrases.py:196-201 | Cleaning a line is strip, then lstrip digits, then lstrip `. )-`, then strip |
| GenerationClient.ParseQuestions | generate_paraphrases.py:194-203 | Parsing yields at most one question per line, and no question is empty |
| GenerationClient.ParsedQuestionsClean | generate_paraphrases.py:194-203 | Every parsed question is one line with no leading or trailing whitespace |
| GenerationClient.CleanNumberedLine | generate_paraphrases.py:200 | A line `"<n>. <question>"` cleans to exactly the question for any well-formed question |
| GenerationClient.CleanLineKeepsLeadingNumber | generate_paraphrases.py:200 | A question that itself starts with a digit keeps that digit after cleaning |
| GenerationClient.ParseRender | generate_paraphrases.py:194-203 | A reply made of numbered lines of well-formed questions parses back to exactly those questions |
| GenerationClient.GenerateQuestions | generate_paraphrases.py:175-224 | Makes at most `max(max_retries, 0)` calls. Only the last call can be accepted, and it is accepted exactly when the result is present. A missing result means all retries were used. A present result is the first 200 questions of the accepted reply |
| GenerationClient.AcceptedYieldsTarget | generate_paraphrases.py:206-215 | An accepted reply yields exactly 200 non-empty single-line questions |
| GenerationClient.RenderedReplyAccepted | generate_paraphrases.py:206-215 | A reply of at least 200 numbered well-formed questions is accepted, and its first 200 are returned |
| Orchestrator.ScheduleCovers | generate_paraphrases.py:305-312 | An index is visited exactly when it lies after the checkpoint, or the checkpoint is reset |
| Orchestrator.ResumeContinues | generate_paraphrases.py:104-111 | Resuming from a checkpoint left mid-run visits exactly the rest of the schedule |
| Orchestrator.FinishedRunStartsOver | generate_paraphrases.py:305-312 | Resuming after a complete run starts over from index 0 |
| Orchestrator.AcceptedArtifact | generate_paraphrases.py:226-238 | The artifact of an accepted reply has the header `question,tag` and 200 rows, each a non-empty question with the tag |
| Orchestrator.CountsAddUp | generate_paraphrases.py:337-380 | Successes, failures and skips together count every visit once |
| Orchestrator.FailedIffExhausted | generate_paraphrases.py:366-380 | An item fails exactly when it used all three calls and none of their replies was accepted |
| Orchestrator.LastSuccessArtifact | generate_paraphrases.py:366-372 | After a run, the artifact of a tag's last success holds exactly the header and the questions accepted from that success's last reply, each with the tag |
| Orchestrator.FirstCallAccepted | generate_paraphrases.py:175-224 | An attempted item whose first reply is accepted succeeds with that one call |
| Orchestrator.OneSuccessOneFailure | generate_paraphrases.py:323-391 | For the work list `voting`, `nid_card` from a fresh start, both with an answer and examples, where `voting`'s first reply is accepted and none of the next three is: the summary is one success, one failure, no skip; four calls are made; the only artifact written is `voting.csv` with the accepted questions, so with no earlier artifacts it is the only one (and `Run` leaves the checkpoint at 1). The writes are `voting.csv`, then checkpoint 0, then checkpoint 1 |
| Orchestrator.ParaphraseGenerator.constructor | generate_paraphrases.py:104-111 | A generator starts from the stored checkpoint and artifacts, with no calls made and no items visited |
| Orchestrator.CheckpointsCloseItems | generate_paraphrases.py:367-379 | In the writes of a run, each checkpoint closes one item. The writes up to and including it are exactly those of the items visited so far, ending with that item's index. When the item succeeded, the write just before the checkpoint is the item's artifact, so a crash never leaves a checkpoint ahead of the artifact it covers |
| Orchestrator.TwoWrites | generate_paraphrases.py:367-379 | A success on `voting` at index 0 followed by a failure at index 1 writes `voting.csv`, then checkpoint 0, then checkpoint 1 |
| Orchestrator.ParaphraseGenerator.UpdateProgress | generate_paraphrases.py:113-116 | The checkpoint becomes the index, and the write log gains exactly that checkpoint; nothing else changes |
| Orchestrator.ParaphraseGenerator.SaveIndividualCsv | generate_paraphrases.py:226-240 | The artifact `<tag>.csv` is (over)written with the header and one `(question, tag)` row per question, and the write log gains exactly that artifact; nothing else changes |
| Orchestrator.ParaphraseGenerator.ProcessItem | generate_paraphrases.py:337-380 | An item is skipped with no call made exactly when its tag has no answer or no examples. A failure made all three calls, none accepted, and writes nothing. A success's last call was accepted, and `<tag>.csv` then holds the questions of that reply. The checkpoint becomes the index in every case. The write log gains the artifact (a success only) and then the checkpoint, so the checkpoint is written last, after the artifact |
| Orchestrator.ParaphraseGenerator.SkipItem | generate_paraphrases.py:343-362 | A skip moves the checkpoint to the index and makes no call; the artifacts stay, and the only write is that checkpoint |
| Orchestrator.ParaphraseGenerator.AttemptItem | generate_paraphrases.py:365-380 | Never a skip. The replies to the item's own calls decide it: among them only a success's last is accepted, a failure used all three, and a success writes the artifact of the accepted questions. The write log gains that artifact (a success only) and then the item's checkpoint |
| Orchestrator.ParaphraseGenerator.LoadWork | generate_paraphrases.py:283-297 | The work list is the corrected tag order, cut to `test_tag_count` tags in test mode. Tags with an answer and tags with examples are exactly those the files list |
| Orchestrator.ParaphraseGenerator.ProcessFrom | generate_paraphrases.py:323-380 | A start below `-len(tags)` fails with nothing changed. Otherwise each index from the start is visited once, in order. An item is skipped exactly when its tag lacks an answer or examples; otherwise the replies to its own calls, which follow those of the item before, decide success or failure as `ServedBy` states. The counters count the outcomes and the checkpoint ends at the last index. The artifacts are the earlier ones with each success's file written from its accepted reply. The write log gains each item's writes in visiting order, each ending with that item's checkpoint |
| Orchestrator.ParaphraseGenerator.Run | generate_paraphrases.py:242-391 | Without a client nothing happens and the summary is zero (lines 267-268). Otherwise the loaded work list is processed as `Resume` states, write log included |
| Orchestrator.ParaphraseGenerator.Resume | generate_paraphrases.py:302-391 | The loop starts after the checkpoint, or at 0 with the checkpoint reset to -1 once it has run past the list, and from there has the guarantees of `ProcessFrom` over exactly that schedule. The write log first gains the reset checkpoint -1 when there is a reset, and then the writes of the items in order |
| Merge.DefaultOutputInParent | merge_results.py:126-128 | Without an explicit output file, the merged file sits in `os.path.dirname(input_dir)`, for any input directory |
| Merge.SortedCsvFilesSpec | merge_results.py:17-27 | The listed paths are exactly the joined `.csv` names, as a permutation, sorted ascending |
| Merge.JoinPathOrder | merge_results.py:22-26 | Joining the same directory keeps the order of file names |
| Merge.SortedCsvFilesIgnoreListingOrder | merge_results.py:17-27 | The result does not depend on the order `os.listdir` returns names in |
| Merge.ValidateRows | merge_results.py:67-113 | Computes the report: the row count, whether it matches, the number of distinct tags, the tags whose count is not the per-tag target, and the number of rows with an empty field |
| Merge.InvalidCountZero | merge_results.py:103-106 | No row is invalid exactly when every row has a non-empty question and tag |
| Merge.FirstTagsSpec | merge_results.py:86-91 | The distinct tags are duplicate-free and are exactly the tags that occur |
| Merge.WrongCountTagsSpec | merge_results.py:89-94 | A tag is reported exactly when it occurs and its count differs from the target |
| Merge.MergedArtifactsCounts | merge_results.py:38-65 | Merging one artifact per distinct tag gives 200 rows per tag, tags in file order, and no invalid row |
| Merge.FullArtifactsPassValidation | merge_results.py:94 | Validation against the generator's 200 per tag reports no wrong-count tag and no invalid row for a complete set of artifacts |
| Merge.AsWrittenFlagsEveryTag | merge_results.py:94 | Validation against the hard-coded 10 flags every tag of a complete set of artifacts |
| Merge.Disk.MergeCsvFiles | merge_results.py:38-65 | If every file can be read, the output file gets the concatenated rows, with a header only when there is a row, and their number is returned. Otherwise the first unreadable file is reported and nothing is written |
| Merge.Disk.ValidateMergedFile | merge_results.py:67-113 | Reads the output file and returns its report against the given per-tag target, or an error when it is absent |
| Merge.Disk.RunMerge | merge_results.py:115-153 | No `.csv` file gives no output and writes nothing. Otherwise the merged rows are written at the default or explicit output path and validated against the hard-coded 10 per tag; the report always matches the count. Validation never blocks the output |
| Grouping.FirstIdsSpec | query_tag_processor.py:84-87 | The group ids are listed once each, in order of first appearance. They are exactly the ids with an answer and with queries |
| Grouping.FirstAnswerIsFirst | query_tag_processor.py:86-87 | A group's answer is that of its first kept row; an id without rows has none |
| Grouping.QueriesOfMembers | query_tag_processor.py:84 | A group's queries are exactly the queries of the kept rows with that id |
| Grouping.KeptItemsFromRows | query_tag_processor.py:73-83 | Every kept item comes from a row whose three stripped cells are non-empty |
| Grouping.KeptRowsIncluded | query_tag_processor.py:78-83 | Every row with three non-empty stripped cells is kept |
| Grouping.KeptItemsAppend | query_tag_processor.py:73-83 | Filtering works row by row, so kept rows keep their input order |
| Grouping.KeptItemsStripped | query_tag_processor.py:74-76 | Every kept cell is stripped and non-empty |
| Grouping.GroupStep | query_tag_processor.py:84-87 | Adding one kept row keeps the id→queries and id→answer dictionaries equal to their definitions over the rows so far |
| Grouping.ReadRecords | query_tag_processor.py:73-87 | The loop keeps the filtered rows and their grouping. A row missing a column stops it with the rows before it loaded |
| Grouping.LoadRows | query_tag_processor.py:62-87 | No header or a missing column is an error with nothing loaded, the query column checked first. Otherwise the rows are read as above |
| QueryTags.CleanTagShape | query_tag_processor.py:137-141 | A cleaned tag has only lower-case letters, digits and `_`, and does not start or end with `_` |
| QueryTags.CleanTagIdempotent | query_tag_processor.py:137-141 | Cleaning a cleaned tag changes nothing |
| QueryTags.TagForGroup | query_tag_processor.py:137-151 | The tag is never empty. It is the cleaned reply when that is non-empty, and `tag_<id>` when the reply cleans to nothing or the call fails |
| QueryTags.TagCandidateInjective | query_tag_processor.py:178-182 | Different counters give different candidates |
| QueryTags.TriedBound | query_tag_processor.py:178-182 | Each failed candidate is a used tag, so the loop tries at most as many candidates as there are used tags and ends |
| QueryTags.FreshTagSpec | query_tag_processor.py:178-182 | The tag found is unused; it is the tag itself when that is unused, and otherwise `<tag>_<k>` for the least `k ≥ 1` that is unused |
| QueryTags.UniqueTag | query_tag_processor.py:178-182 | The `while tag in used_tags` loop computes that tag |
| QueryTags.AssignTagsDistinct | query_tag_processor.py:168-185 | The tags given to the groups are pairwise distinct |
| QueryTags.AssignTagsFresh | query_tag_processor.py:168-185 | Each group's tag is its generated tag made unique against the tags of the groups before it |
| QueryTags.PutAllKeys | query_tag_processor.py:185 | Recording tags adds exactly the recorded ids as keys |
| QueryTags.PutAllValues | query_tag_processor.py:185 | Each recorded id maps to its own tag |
| QueryTags.PutAllFreshKeys | query_tag_processor.py:170-185 | Into an empty dictionary, the ids are recorded in group order |
| QueryTags.QueryTagsKeys | query_tag_processor.py:191-195 | The query→tag keys are exactly the loaded queries |
| QueryTags.QueryTagsLast | query_tag_processor.py:191-195 | A query maps to the tag of the group of its last row |
| QueryTags.TagAnswersOnePerGroup | query_tag_processor.py:198-200 | With distinct tags, the tag→answer map has one entry per group, in group order, each tag with its group's answer |
| QueryTags.AssignAll | query_tag_processor.py:170-185 | The loop records the unique tags of the groups in the id→tag dictionary |
| QueryTags.BuildQueryTags | query_tag_processor.py:191-195 | The loop builds the query→tag dictionary |
| QueryTags.BuildTagAnswers | query_tag_processor.py:198-200 | The loop builds the tag→answer dictionary, or fails with `KeyError` at the first id that has no answer |
| QueryTags.QueryTagRows | query_tag_processor.py:232-236 | One `(query, tag)` row per loaded row in order, or `KeyError` for a row whose id has no tag |
| QueryTags.TagAnswerRows | query_tag_processor.py:244-245 | One `(tag, answer)` row per entry of the tag→answer dictionary, in its order |
| QueryTags.TaggedGroups | query_tag_processor.py:170-200 | After tagging, the id→tag dictionary is well formed and every loaded row's id has a tag. When every id tagged earlier has an answer, every tagged id has one |
| QueryTags.TagGroups | query_tag_processor.py:164-200 | Tagging computes the new id→tag, query→tag and tag→answer dictionaries, or fails with `KeyError` |
| QueryTags.QueryTagProcessor.constructor | query_tag_processor.py:26-33 | All six fields start empty |
| QueryTags.QueryTagProcessor.LoadCsv | query_tag_processor.py:47-91 | The rows are loaded and grouped as `Grouping.LoadRows` states. The three tag dictionaries are left as they were |
| QueryTags.QueryTagProcessor.LoadCsvClearingTags | query_tag_processor.py:58-60 | The corrected load: the same rows and groups, with the three tag dictionaries emptied |
| QueryTags.QueryTagProcessor.GenerateTags | query_tag_processor.py:153-204 | With no data it raises and changes nothing. Otherwise it stores the results of tagging the loaded groups; the loaded rows and groups are untouched |
| QueryTags.QueryTagProcessor.Store | query_tag_processor.py:185-200 | The three tag dictionaries take the new values; the loaded rows and groups stay |
| QueryTags.QueryTagProcessor.SplitToCsvFiles | query_tag_processor.py:206-250 | With no tags it raises. Otherwise `queries_tags.csv` has the header and one row per loaded row, and `tags_answers.csv` has the header and one row per tag→answer entry. A row whose id has no tag fails |
| QueryTags.FreshTagDict | query_tag_processor.py:168-185 | Tagging distinct groups from no tags records each group's tag, in group order, all distinct |
| QueryTags.FreshTaggingOnePerGroup | query_tag_processor.py:164-200 | After the corrected load, tagging succeeds and the tag→answer file has one entry per group with its answer |
| QueryTags.ReloadKeepsStaleGroup | query_tag_processor.py:58-60 | After a reload whose ids differ from those already tagged, the stale id is still in id→tag, and `generate_tags` fails with `KeyError` at line 200 |
| QueryTags.OneItemGroups | query_tag_processor.py:84-87 | The concrete one-row table groups into one group with its query and answer |
| QueryTags.StaleTagKept | query_tag_processor.py:185 | Tagging a new group leaves an older id's tag in id→tag ahead of it |
| BotAutomate.QueryTagProcessor.constructor | bot_automate.py:16-23 | All six fields start empty |
| BotAutomate.QueryTagProcessor.LoadCsv | bot_automate.py:37-79 | The rows are loaded and grouped as `Grouping.LoadRows` states, and the tag dictionaries are left as they were |
| TagAnalysis.Tally | wrong_tag_analysis.py:37-40 | A prediction adds one to exactly one counter: `right` when it was right, `wrong` otherwise |
| TagAnalysis.StatsValid | wrong_tag_analysis.py:33-40 | The per-tag statistics form a well-formed dictionary |
| TagAnalysis.StatsCounts | wrong_tag_analysis.py:33-40 | Each tag's counters are the numbers of rows expecting it that were predicted right and wrong |
| TagAnalysis.StatsKeys | wrong_tag_analysis.py:37-40 | The tags with statistics are exactly the expected tags; a tag that was only predicted has none |
| TagAnalysis.StatsPositive | wrong_tag_analysis.py:37-40 | Every tag with statistics has a positive total |
| TagAnalysis.StatsTotals | wrong_tag_analysis.py:95-97 | Summed over all tags, the counters are the numbers of right and wrong predictions |
| TagAnalysis.HitsMisses | wrong_tag_analysis.py:42 | Right plus wrong predictions count every row once |
| TagAnalysis.AccuracyRange | wrong_tag_analysis.py:72 | Accuracy lies between 0 and 100. It is 100 exactly when all predictions were right and 0 exactly when none were (or there were none) |
| TagAnalysis.AccuracyOrder | wrong_tag_analysis.py:149 | Comparing accuracies is comparing the cross-multiplied ratios |
| TagAnalysis.WorstTagsSpec | wrong_tag_analysis.py:144-153 | The worst tags are the first `min(n, #tags)` entries of a permutation sorted by non-decreasing accuracy, with ties in insertion order |
| TagAnalysis.BestTagsSpec | wrong_tag_analysis.py:162-171 | The best tags are the same but sorted by non-increasing accuracy, ties again in insertion order |
| TagAnalysis.OrderPrecedence | wrong_tag_analysis.py:76-88 | The accuracy flag takes precedence over count, and count over name. With no flag the default is count descending, and name order is reversed relative to `descending` |
| TagAnalysis.RowOrder | wrong_tag_analysis.py:76-88 | Every order the table can be sorted by is a strict weak order |
| TagAnalysis.ShownRowsSpec | wrong_tag_analysis.py:76-92 | The shown rows are a prefix of a sorted permutation of all rows, ties in insertion order. They are all of them unless `show_top_n` is truthy, and then at most that many |
| TagAnalysis.SortedRowsMeaning | wrong_tag_analysis.py:77-87 | Each sorted order means what it says: totals or accuracies never increase when descending, names never decrease A-Z or increase Z-A |
| TagAnalysis.NameLabelReversed | wrong_tag_analysis.py:82-84 | As written, name sort with `descending=True` lists A-Z but is labelled "Name (Z-A)", and the other way round |
| TagAnalysis.SortLabelMatchesOrder | wrong_tag_analysis.py:76-88 | The corrected label names the order the rows are actually in |
| TagAnalysis.LoadStep | wrong_tag_analysis.py:33-40 | Reading one more row updates one tag's counters as the statistics of the longer file prescribe |
| TagAnalysis.LoadedTotals | wrong_tag_analysis.py:42 | After loading, the totals count every row once, with the right predictions as hits |
| TagAnalysis.TagAnalyzer.constructor | wrong_tag_analysis.py:14-15 | The analyzer starts with no statistics |
| TagAnalysis.TagAnalyzer.LoadEvaluationCsv | wrong_tag_analysis.py:17-43 | Loading replaces the statistics with those of the file. The first row missing one of the two cells stops it, holding the statistics of the rows before. If the header lacks the column, that is the first row (`KeyError`); otherwise it is a short row whose missing cell `DictReader` fills with `None` (`AttributeError` on `.strip()`, lines 34-35) |
| TagAnalysis.TagAnalyzer.Entries | wrong_tag_analysis.py:144-150 | The loop builds one entry per tag in insertion order |
| TagAnalysis.TagAnalyzer.GetWorstTags | wrong_tag_analysis.py:137-153 | Returns the worst tags of the current statistics |
| TagAnalysis.TagAnalyzer.GetBestTags | wrong_tag_analysis.py:155-171 | Returns the best tags of the current statistics |
| TagAnalysis.TagAnalyzer.TagAnalysis | wrong_tag_analysis.py:45-98 | No statistics gives no table (lines 61-63). Otherwise it returns the shown rows in the selected order, the label as written (reversed for name sorts, fourth finding), the column totals and the overall accuracy |

## Left out

- QueryTags.QueryTagProcessor.SplitToCsvFiles: when a row's id has no
  tag, Python has already opened `queries_tags.csv` and written its header
  and the rows before (lines 227-236) when the `KeyError` comes. The model
  returns the error and writes no file, because a partly written file is a
  side effect of the failed call.
- File and CSV I/O is not modelled. Files are in-memory maps of row
  sequences. `csv.DictReader` is a `Table` of records keyed by field name.
  A short row's missing cells are absent from its record (`DictReader`
  stores `None` there). Quoting, encodings and extra trailing fields are
  not modelled.
- The OpenAI client setup, the prompt text (its first-5 and 500-character
  truncations included) and the calls themselves are not modelled. They
  are oracles or the `clientReady` flag, because they are foreign network
  code.
- `log_message`, `print`, `time.sleep`, the ETA and percentage display and
  the box and table formatting of `print_tag_analysis`
  (wrong_tag_analysis.py:100-135) are output only.
- `datetime.now()` is the `today` parameter. The module-level default
  output name (merge_results.py:14-15) is not used by `run_merge` and is
  not modelled.
- `os.listdir` is a parameter and `os.makedirs` is a no-op, because both
  touch the file system.
- Artifacts are keyed by `<tag>.csv` alone, without `OUTPUT_DIR`. The
  directory is a constant of the script.
- `random.sample` is only required to return `k` elements from distinct
  positions. Which ones it picks depends on a random source.
- `process`, `run_full_pipeline` and every `main()` are argument parsing and
  glue code.
- `read_individual_csv` only reads a file, and is folded into the
  `MergeCsvFiles` lookup.
- Floating-point accuracy is modelled as an exact `real` ratio times 100.
  Rounding is not modelled.
- `Strings.IsAlnum` and `Strings.Lower` cover ASCII only. Python's
  `str.isalnum` and `str.lower` also accept and fold non-ASCII letters
  (Bengali script, for example). This affects `QueryTags.CleanTag` and the
  `str.lower` sort key.
- Exceptions are modelled as error values, so a crash is a returned error
  and no state changes after it.
- Orchestrator.ParaphraseGenerator.LoadWork: builds the work list with the
  corrected key (lowered spelling, then raw spelling), not with the
  as-written `sorted(set, key=str.lower)`, whose order of case-alike tags
  depends on set iteration (third finding). The corrected list is one of the
  as-written outcomes (`ExampleStore.CorrectedOrderIsOneOutcome`) and the
  same for every listing (`ExampleStore.UniqueTagsDeterministic`).
- GenerationClient.ParsedQuestionsClean: does not state that a question
  never starts with a digit or one of `. )-`, because a question that itself
  begins with a number keeps it (`GenerationClient.CleanLineKeepsLeadingNumber`).

## Findings

| source | as written | input that shows it | evidently intended | confidence | as-written member | corrected member |
|---|---|---|---|---|---|---|
| merge_results.py:94 | Each tag must appear exactly 10 times | Any complete run: generation writes 200 questions per tag (generate_paraphrases.py:206-215), so every tag is reported as wrong | Validate against the 200 questions per tag that generation writes | high (not executed) | Merge.AsWrittenFlagsEveryTag | Merge.FullArtifactsPassValidation |
| query_tag_processor.py:58-60 | `load_csv` resets only `data`, `id_to_queries` and `id_to_answer` | Tag a table with group id `1`, then load a table with only group id `2`: `id_to_tag` still holds `1`, and line 200 raises `KeyError` on `id_to_answer['1']` | Loading resets all state, the tag dictionaries included | high (not executed) | QueryTags.ReloadKeepsStaleGroup | QueryTags.FreshTaggingOnePerGroup |
| generate_paraphrases.py:54 | `sorted(set, key=str.lower)` keeps tags that lower-case alike in set iteration order | Tags `Vote` and `vote`: their order in the work list, and so which of them a resumed checkpoint index names, depends on string hash randomisation | A deterministic work list, for example with ties broken by the raw spelling | medium (not executed) | ExampleStore.CaseTiesFollowHashOrder | ExampleStore.UniqueTagsDeterministic |
| wrong_tag_analysis.py:82-84 | Sorting by name uses `reverse=not descending` but labels the result with `descending` | `sort_by_name=1, descending=True` (the default): rows are A-Z, the label says "Name (Z-A)" | The label names the order shown | medium (not executed) | TagAnalysis.NameLabelReversed | TagAnalysis.SortLabelMatchesOrder |
