# Klever core in Dafny

This project models six parts of the Klever verification framework and proves properties of
them:

- **Verification object generator** (`lkvog.dfy`, module `Lkvog`). It turns build commands of
  the Linux kernel into verification object descriptions:
  - a raw build command is normalised and forwarded;
  - descriptions are indexed by output file, and the `.ko` modules selected by the `modules`
    filters are forwarded;
  - each module is resolved backwards to the full description files of its CC commands,
    skipping `.mod.o` glue objects;
  - one description is emitted per module (separate modules) or per cluster (closure, scotch).

  The two `while True` loops are methods of the class `Lkvog.Generator`. They are proved
  against pure functions of the queue contents: `Ingest`, `SelectedNames` and `EmitAll`.
- **Environment model processes** (`process.dfy`, module `EmgProcess`).
  - Actions and processes are classes, and `Process.actions` is a map field that
    `RenameAction` and `InsertAction` re-key in place.
  - Process texts are rewritten with a search function that stands for the regular
    expression engine.
  - The unmatched receive and dispatch queries are read-only functions over the action table.
  - `export_process` is modelled down to which dictionary keys are present.
- **Mark access rules** (`marks.dfy`, module `Marks`). These are the `MarkAccess`
  permission checks and the verdict, status and tag comparisons of two mark versions, as pure
  functions over records.
- **Report serializers** (`serializers.dfy`, module `Serializers`):
  - the validation of computer properties;
  - the verdict summary with its total row;
  - the grouping of unknowns;
  - the merge of mark associations into the safes, unsafes and unknowns of a decision.

  The query results are inputs given as sequences of rows.
- **Character device rule model** (`char_dev.dfy`, module `CharDev`) and **environment test
  model** (`test_model.dfy`, module `TestModel`). These are the two C models.
  - Each global variable is a field of a class `Model`.
  - A failed `ldv_assert` sets a flag that is never cleared, and the function returns at once.
  - Nondeterministic values are method parameters, constrained as `ldv_undef_int_nonpositive`
    and `ldv_assume` constrain them.
  - Every method is proved equal to one step of a pure `Step` function, and the rule
    properties are lemmas about `Run`, a sequence of steps.

Shared modules:

- `Wrappers`: Option and Result.
- `Ordering`: Python's ordering of strings, pairs and naturals, and sorting a finite set.
- `Text`: prefix, suffix, substring, replace-all and join on strings.

Behaviour of the code that the model keeps as written:

- **Unsupported strategy.** The generation loop tests only separate modules and the
  partitioning strategies. With any other strategy name it drains the module names queue and
  emits nothing (`Lkvog.UnsupportedStrategyEmitsNothing`). The `NotImplementedError` at
  `Psi/psi/lkvog/__init__.py:209-211` is reached only by a direct call to
  `generate_verification_obj_desc` (`Lkvog.GenerateVerificationObjDesc`).
- **Swapped comments in the test model.** The comments above `ldv_deregister` and
  `ldv_register` are swapped relative to their code. The model follows the code:
  `ldv_deregister` sets `non_deregistered`.
- **The insert guard of `add_declaration` and `add_definition`.** It tests the outer
  dictionary, not the entry of the file. The model keeps that:
  - an existing declaration of the same name in the same file is overwritten;
  - a name that equals some file name is never inserted.

## Model

| member | source | states |
|---|---|---|
| Lkvog.NormaliseRawBuildCmd | Psi/psi/lkvog/__init__.py:29-52 | The forwarded copy keeps the type, input files and output file. It has a full description file exactly when the command is CC, has an input, its first input is neither "-" nor an absolute path, and it has an output file. That file is the output file followed by ".json". |
| Lkvog.BuildCmdDescsQueue | Psi/psi/lkvog/__init__.py:50-57 | A consumer that reads the queue up to its sentinel gets back exactly one normalised description per raw command, in order. The sentinel is the last entry, so the consumer stops there. |
| Lkvog.FullDescFilesDistinct | Psi/psi/lkvog/__init__.py:37-38 | Two eligible CC commands with different output files get different full description files. |
| Lkvog.UpToSentinel | Psi/psi/lkvog/__init__.py:216-224 | The items a loop handles are exactly the queue entries before the first sentinel, in order. The entry after them is the sentinel. |
| Lkvog.UpToSentinelStops | Psi/psi/lkvog/__init__.py:216-224 | A queue that holds a sentinel stops the loop before its end. |
| Lkvog.MatchesAnyFilter | Psi/psi/lkvog/__init__.py:244-247 | The filter loop finds a match exactly when some configured entry is a prefix of the output file. |
| Lkvog.SelectedNamesMembers | Psi/psi/lkvog/__init__.py:238-253 | A name is forwarded exactly when some description with that output file is an LD command producing a ".ko" file whose `modules` setting holds "all" or a prefix of it. |
| Lkvog.SelectedNamesAppend | Psi/psi/lkvog/__init__.py:216-226 | Module names are forwarded in the arrival order of their descriptions. |
| Lkvog.SelectedNamesAreModules | Psi/psi/lkvog/__init__.py:238-250 | Every forwarded name ends in ".ko". Without a `modules` setting nothing is forwarded. |
| Lkvog.SelectedNamesSnoc | Psi/psi/lkvog/__init__.py:252-253 | One more description adds its output file to the names exactly when it is a selected module. |
| Lkvog.IngestKeepsLast | Psi/psi/lkvog/__init__.py:236 | After ingesting, an output file maps to the last description that named it. |
| Lkvog.IngestLeavesOthers | Psi/psi/lkvog/__init__.py:236 | Keys that no ingested description names keep their earlier entries, and no key is added. |
| Lkvog.IngestSnoc | Psi/psi/lkvog/__init__.py:236 | Ingesting one more description overwrites the entry of its output file. |
| Lkvog.FindCcFullDescFiles | Psi/psi/lkvog/__init__.py:255-269 | A CC entry resolves to exactly its full description file, or fails when it has none. Any other entry resolves as its inputs do, one level deeper. A missing output file raises `KeyError`. Every file returned is the full description file of a CC command in the index. |
| Lkvog.FindInFiles | Psi/psi/lkvog/__init__.py:264-267 | Every file of the concatenated resolution of the inputs is a CC full description file. |
| Lkvog.FindInFilesAppend | Psi/psi/lkvog/__init__.py:264-267 | Resolving a list of inputs is resolving its two halves and concatenating the results in order. A failure in the first half wins. |
| Lkvog.FindInFilesOne | Psi/psi/lkvog/__init__.py:264-267 | A ".mod.o" glue input contributes nothing. Any other input contributes exactly its own resolution. |
| Lkvog.FindMonotone | Psi/psi/lkvog/__init__.py:255-269 | A resolution that succeeds within some depth gives the same files at any larger depth. The recursion limit can only turn a result into a `RecursionError`. |
| Lkvog.FindInFilesMonotone | Psi/psi/lkvog/__init__.py:264-267 | The same as `FindMonotone`, for a list of inputs. |
| Lkvog.FindSucceedsWhenAcyclic | Psi/psi/lkvog/__init__.py:255-269 | Resolution succeeds when all three hold: every followed input is indexed, every CC command has a full description file, and a rank decreases along inputs with the depth above that rank. |
| Lkvog.FindInFilesSucceeds | Psi/psi/lkvog/__init__.py:264-267 | Under the same conditions, the inputs of a link command all resolve. |
| Lkvog.FindFailsOnSelfLoop | Psi/psi/lkvog/__init__.py:265-267 | A link command that is its own input never resolves, because there is no cycle guard. |
| Lkvog.ResolutionSkipsGlue | Psi/psi/lkvog/__init__.py:262-267 | Resolving a module built from an object and a ".mod.o" glue file gives exactly the object's CC full description file. |
| Lkvog.SeparateModuleDesc | Psi/psi/lkvog/__init__.py:158-168 | The description has id "linux/"+name and `deps` {name: []}. Its one group is the module, holding exactly the module's resolved files. It fails exactly when resolving the module fails, with that failure. |
| Lkvog.ClusterGroups | Psi/psi/lkvog/__init__.py:187-192 | There is one group per cluster module, in order, with the module's id and exactly its resolved files. `deps` has a key for each module id, holding the predecessors of the last module with that id. It fails exactly when some module fails to resolve. |
| Lkvog.ClusterDesc | Psi/psi/lkvog/__init__.py:180-192 | A cluster description has id "linux/" + root + hash. Its groups are the cluster's modules in order, each with its resolved files. `deps` maps each module id to the predecessors of its last module, and its keys equal the group ids. It fails exactly when the triggering module or some cluster module fails to resolve. |
| Lkvog.GenerateVerificationObjDesc | Psi/psi/lkvog/__init__.py:152-211 | An unsupported strategy raises `NotImplementedError`. Every generated description has `deps` keys equal to its group ids. |
| Lkvog.EmittedDescsWellFormed | Psi/psi/lkvog/__init__.py:131-150 | Every description the generation loop emits has `deps` keys equal to its group ids. |
| Lkvog.EmitClustersWellFormed | Psi/psi/lkvog/__init__.py:146-150 | The descriptions of a module's clusters keep that well-formedness. |
| Lkvog.UnsupportedStrategyEmitsNothing | Psi/psi/lkvog/__init__.py:141-150 | With an unsupported strategy the loop emits nothing, records nothing and raises nothing. |
| Lkvog.FirstOccurrencesProperties | Psi/psi/lkvog/__init__.py:139-145 | The first occurrences of the names not yet seen are exactly those names, without repetition. |
| Lkvog.SeparateModulesEmitsFirstOccurrences | Psi/psi/lkvog/__init__.py:139-145 | Under separate modules, the i-th description is that of the i-th distinct new name. All arrived names end up recorded. |
| Lkvog.ExactlyOneDescPerModule | Psi/psi/lkvog/__init__.py:139-145 | Under separate modules, each module name that arrives yields exactly one description with id "linux/"+name, however often it arrives. |
| Lkvog.ClusterGroupsFailurePersists | Psi/psi/lkvog/__init__.py:189-191 | A module whose files cannot be found makes the whole cluster fail with that exception. |
| Lkvog.EmitClustersStopsAtFailure | Psi/psi/lkvog/__init__.py:148-150 | An exception for one cluster ends the loop over the clusters of that module. |
| Lkvog.EmitAllStopsAtFailure | Psi/psi/lkvog/__init__.py:131-150 | After an exception, later module names change nothing. |
| Lkvog.Generator.constructor | Psi/psi/lkvog/__init__.py:61-69 | The index, the module names queue, the dedup set and the output all start empty. |
| Lkvog.Generator.ProcessBuildCmdDesc | Psi/psi/lkvog/__init__.py:228-253 | The description is stored under its output file, and its name is queued exactly when it is a selected module. |
| Lkvog.Generator.IngestNext | Psi/psi/lkvog/__init__.py:226 | Handling one more description keeps the index and queue equal to the ingest functions of everything taken so far. |
| Lkvog.Generator.ProcessAllBuildCmdDescs | Psi/psi/lkvog/__init__.py:213-226 | After the loop, the index is the ingest of the descriptions before the sentinel. The module names queue gains the selected names in order, then one sentinel. |
| Lkvog.Generator.GenerateVerificationObjDescFor | Psi/psi/lkvog/__init__.py:152-211 | The method computes `GenerateVerificationObjDesc` for the current strategy and index. |
| Lkvog.Generator.CollectGroups | Psi/psi/lkvog/__init__.py:187-192 | The group loop computes `ClusterGroups` and stops at the first failing module. |
| Lkvog.Generator.HandleModuleName | Psi/psi/lkvog/__init__.py:139-150 | Handling one module name appends and records exactly what `EmitModule` says, and returns its exception. |
| Lkvog.Generator.ClusterDescsFor | Psi/psi/lkvog/__init__.py:146-150 | The cluster loop yields the descriptions `EmitClusters` gives, up to the first exception. |
| Lkvog.Generator.GenerateAllVerificationObjDescs | Psi/psi/lkvog/__init__.py:131-150 | After the loop, the output and dedup set are those of `EmitAll` over the names before the sentinel, with its exception. |
| Lkvog.RunPipeline | Psi/psi/lkvog/__init__.py:61-80 | Running ingestion and then generation gives the ingested index and the queued names. The output is `EmitAll` of the selected names from an empty dedup set. |
| EmgProcess.RegexSet | core/core/vtg/emg/common/process.py:23-40 | Four expressions for the same name, one per action kind, in the order subprocess, dispatch, receive, condition. |
| EmgProcess.FirstMatch | core/core/vtg/emg/common/process.py:171-187 | No match is found exactly when no expression matches. Otherwise the match comes from the first expression that matches. |
| EmgProcess.NextExpr | core/core/vtg/emg/common/process.py:176-184 | The replacement is new.m for "before", m.new for "after", new alone for "instead", and (m \| new) for any other position. It always contains the new expression, and it contains the old match unless the position is "instead". |
| EmgProcess.InsertRewriteFirstMatch | core/core/vtg/emg/common/process.py:170-187 | A text no expression matches is unchanged. Otherwise every occurrence of the first match is replaced, and the result contains the replacement. |
| EmgProcess.RenameRewriteIdentity | core/core/vtg/emg/common/process.py:209-215 | Renaming a name to itself leaves a text unchanged. |
| EmgProcess.RenameRewriteNoMatch | core/core/vtg/emg/common/process.py:209-215 | A text that none of the expressions matches is unchanged by a rename. |
| EmgProcess.RenameRewriteKeepsForeignMatch | core/core/vtg/emg/common/process.py:213-215 | A match that does not contain the old name is left as it is. |
| EmgProcess.AddEntry | core/core/vtg/emg/common/process.py:230-242 | The file's entry is always present, and other files' entries are unchanged. The name is stored exactly when it is neither a key of the outer map nor the file itself. Otherwise an earlier value stays. |
| EmgProcess.AddEntryOverwrites | core/core/vtg/emg/common/process.py:234-235 | An existing declaration of the same name in the same file is overwritten. |
| EmgProcess.AddEntrySkipsFileNames | core/core/vtg/emg/common/process.py:234-235 | A name that equals some file name is not inserted. |
| EmgProcess.AddEntryFound | core/core/vtg/emg/common/process.py:230-235 | When the guard passes, the stored value is the one given. |
| EmgProcess.Action.constructor | core/core/vtg/emg/common/process.py:245-292 | A new action has no comment, no condition, empty parameters, peers and statements, and no broadcast or replicative flag. |
| EmgProcess.Action.Export | core/core/vtg/emg/common/process.py:56-79 | Each key of the exported action is present exactly under the source's conditions, with the action's value: comment and condition when non-empty, process for subprocesses, parameters for dispatches and receives, peers when non-empty, broadcast or replicative only when true, statements for non-empty conditions. |
| EmgProcess.Process.constructor | core/core/vtg/emg/common/process.py:127-140 | A new process has no actions, headers, declarations or definitions. |
| EmgProcess.Process.UnmatchedNames | core/core/vtg/emg/common/process.py:143-150 | It keeps exactly the keys of the given kind with no peers, and keeps them in sorted order. |
| EmgProcess.Process.UnmatchedSound | core/core/vtg/emg/common/process.py:143-150 | Every listed action is in the table, has the kind, and has no peers. |
| EmgProcess.Process.UnmatchedComplete | core/core/vtg/emg/common/process.py:143-150 | Every action of the kind with no peers is listed. |
| EmgProcess.Process.UnmatchedOrdered | core/core/vtg/emg/common/process.py:143-150 | The listed actions come in strictly ascending name order. |
| EmgProcess.Process.UnmatchedActions | core/core/vtg/emg/common/process.py:143-150 | Exactly the actions of a kind with no peers, in ascending name order. |
| EmgProcess.Process.UnmatchedReceives | core/core/vtg/emg/common/process.py:143-145 | Exactly the receives with no peers, in ascending name order. |
| EmgProcess.Process.UnmatchedDispatches | core/core/vtg/emg/common/process.py:148-150 | Exactly the dispatches with no peers, in ascending name order. |
| EmgProcess.Process.SubprocessNames | core/core/vtg/emg/common/process.py:168-169 | Exactly the subprocess keys, without repetition. |
| EmgProcess.Process.SubprocessesListed | core/core/vtg/emg/common/process.py:167-169 | Every subprocess action of the table is among the processes rewritten. |
| EmgProcess.Process.SubprocessActions | core/core/vtg/emg/common/process.py:205-207 | It lists each subprocess action of the table exactly once. |
| EmgProcess.Process.RewriteTexts | core/core/vtg/emg/common/process.py:209-216 | The process text and every subprocess text are rewritten. Other actions' texts are unchanged. |
| EmgProcess.Process.RewriteEach | core/core/vtg/emg/common/process.py:209-216 | Each listed action's text is rewritten once. |
| EmgProcess.Process.RenameAction | core/core/vtg/emg/common/process.py:190-216 | A missing name raises `KeyError` and changes nothing. Otherwise the same action object moves from the old key to the new one with its name changed, and other entries stay. An action that was filed under the new name is dropped from the table and keeps its name and text. The process and subprocess texts are rewritten by every matching expression. |
| EmgProcess.Process.InsertAction | core/core/vtg/emg/common/process.py:158-188 | An empty or missing name raises `KeyError` and changes nothing. "instead" removes the old action. The process and subprocess texts are rewritten at their first match. |
| EmgProcess.Process.AddDeclaration | core/core/vtg/emg/common/process.py:230-235 | The declarations become `AddEntry` of the old ones, so the file's entry is present and is exported. |
| EmgProcess.Process.AddDefinition | core/core/vtg/emg/common/process.py:237-242 | The definitions become `AddEntry` of the old ones, so the file's entry is present and is exported. |
| EmgProcess.Process.Export | core/core/vtg/emg/common/process.py:81-95 | For a process whose every action is filed under its own name, the export has the identifier, comment, process and every action exported under that name. Headers, declarations and definitions are present exactly when non-empty. |
| Ordering.SortStrings | bridge/marks/utils.py:296 | `sorted` of a set of strings: the same elements, strictly ascending. |
| Ordering.SortPairs | bridge/reports/serializers.py:63 | `sorted` of a set of pairs: the same elements, strictly ascending by component and then problem. |
| Ordering.SortNats | bridge/reports/serializers.py:146 | `sorted` of a set of report ids: the same ids, strictly ascending. |
| Text.ReplaceAllPlants | core/core/vtg/emg/common/process.py:186 | Replacing a text that occurs puts the replacement into the result. |
| Text.ReplaceAllAbsent | core/core/vtg/emg/common/process.py:186 | Replacing a text that does not occur changes nothing. |
| Text.ReplaceAllIdentity | core/core/vtg/emg/common/process.py:214-215 | Replacing a text by itself changes nothing. |
| Text.JoinContains | bridge/marks/utils.py:296 | Every joined part occurs in the joined string. |
| Marks.Earliest | bridge/marks/utils.py:78-84 | `order_by('version').first()` finds a version exactly when there is one, and it is one of them with the least number. Used for mark versions and for job versions. |
| Marks.JobVersionNumbered | bridge/marks/utils.py:87 | A version with the job's current number is found exactly when one exists. |
| Marks.CanEdit | bridge/marks/utils.py:68-96 | Visitors may not edit and managers may. Others may not when the mark is frozen or its version is 0, and experts may otherwise. A plain user may not edit a mark of another table. On an editable mark, a plain user may edit exactly when they wrote the first version or the job lets them edit. A mark with no versions raises. When the user did not write the first version, the result is the job's answer (`JobGrants`, which raises only for a job without versions or without its current version), or a refusal when the mark has no job. Errors arise only for signed-in users on mark tables. |
| Marks.FirstAuthorMayEdit | bridge/marks/utils.py:77-82 | The author of the first version of an editable mark may edit it. |
| Marks.JobEditorMayEdit | bridge/marks/utils.py:83-93 | On an editable mark, a user whose job's current version lets everyone, or this user, edit marks may edit it. |
| Marks.MissingJobVersionRaises | bridge/marks/utils.py:81-87 | When the job has no version with its current number, a plain user who wrote neither the mark's first version nor the job's first version gets the lookup's `DoesNotExist`. |
| Marks.CanCreate | bridge/marks/utils.py:98-123 | Visitors may not create marks. Nobody may create a safe mark for a job with safe marks disabled. Managers and experts may otherwise. On a report, a plain user may exactly when the job lets them edit, and a job with no versions raises. Without a report, only managers and experts may. |
| Marks.Authors | bridge/marks/utils.py:134 | The known authors are exactly the users who wrote some version. |
| Marks.CanDelete | bridge/marks/utils.py:125-137 | Only signed-in users may delete, and managers always may. Non-managers may not on a frozen mark or version 0. Experts may otherwise. A plain user may exactly when they are the only known author. |
| Marks.CanRemoveVersion | bridge/marks/utils.py:139-157 | Removal needs a signed-in user and a mark table. Version 1, the current version, and any version while the mark is at 0 are never removed. Otherwise managers may remove a version. On a modifiable mark, experts and the version's author may too. Nobody else may. |
| Marks.CanFreeze | bridge/marks/utils.py:159-162 | Exactly managers may freeze. |
| Marks.FreezerMayEditAndDelete | bridge/marks/utils.py:159-162 | Whoever may freeze a mark may also edit and delete it (lines 71-72 and 128-129). |
| Marks.PromotionKeepsPermissions | bridge/marks/utils.py:68-157 | Making a user a manager takes no edit, create, delete or version-removal permission away. |
| Marks.SoleAuthorMayDelete | bridge/marks/utils.py:134-136 | A plain user who wrote every version of an editable mark may delete it. |
| Marks.ChangePair | bridge/marks/utils.py:277-287 | Both sides are coloured from the table exactly when both codes are in it. Otherwise the first missing code raises. |
| Marks.VerdictChange | bridge/marks/utils.py:273-281 | There is no change for unknown marks or equal verdicts. Otherwise, when both verdicts are in the safe or unsafe colour table, the change is the two titles in order, each with its verdict's colour. It fails exactly when a verdict is missing from that table. |
| Marks.StatusChange | bridge/marks/utils.py:283-287 | There is no change for equal statuses. Otherwise, when both statuses are in the status table, the change is the two titles in order, each with its status's colour. It fails exactly when one is missing. |
| Marks.TagsChange | bridge/marks/utils.py:289-296 | There is no change exactly for unknown marks or equal tag sets. Otherwise the change is two lines, each the sorted tags of one version joined by "; ", so each mentions every tag of its version. |
| Marks.TagLineMentionsEveryTag | bridge/marks/utils.py:296 | The sorted, joined tag line mentions every tag. |
| Marks.ChangesSwap | bridge/marks/utils.py:273-296 | Comparing the versions the other way round swaps the two sides of each change. |
| Serializers.ValidateProperty | bridge/reports/serializers.py:255-262 | A property validates exactly when it is a dict of one entry whose value is a string or an integer. The result is that entry. Otherwise it fails with `prop_wrong`. |
| Serializers.FailingIndices | bridge/reports/serializers.py:267-271 | Exactly the positions of the items that fail, in ascending order. |
| Serializers.ValidatedPrefixAll | bridge/reports/serializers.py:267-273 | With no failures, the result holds one validated pair per item, in input order. |
| Serializers.ErrorsOfFailing | bridge/reports/serializers.py:270-274 | Errors listed for the failing positions are the field's error: keyed by exactly those positions, each `prop_wrong`. |
| Serializers.NoFailures | bridge/reports/serializers.py:272-273 | With no failing item, the validated pairs are the field's value. |
| Serializers.RunChildValidation | bridge/reports/serializers.py:264-274 | With no failure it returns the pairs in input order. Otherwise it raises with errors keyed by exactly the failing positions, ascending. |
| Serializers.ToInternalValue | bridge/reports/serializers.py:245-250 | A value that is not a list fails with `not_a_list` naming its type. A list is validated item by item. |
| Serializers.CountAll | bridge/reports/serializers.py:26-30 | Counting without the confirmation filter counts every report. |
| Serializers.VerdictsData | bridge/reports/serializers.py:26-36 | There is one row per verdict that occurs, in strictly ascending order. Each row holds the number of reports with that verdict and the number of them with confirmed marks. The last row is "total", with the number of reports and the number with confirmed marks. |
| Serializers.VerdictRowsFacts | bridge/reports/serializers.py:26-36 | The query rows are one per occurring verdict, strictly ascending, each with its own positive count and confirmed count. Their sums are the number of reports and of confirmed reports. |
| Serializers.GroupRowsOf | bridge/reports/serializers.py:27-30 | Grouping the occurring verdicts in ascending order gives exactly the verdict rows: each row counts the reports with its verdict, and the confirmed ones. |
| Serializers.GroupRowsCover | bridge/reports/serializers.py:27-30 | Every occurring verdict has a row, and every row counts some report. |
| Serializers.CountOfPositive | bridge/reports/serializers.py:28 | A verdict that occurs counts at least one report. |
| Serializers.SumsOfRows | bridge/reports/serializers.py:33-34 | The sums of the rows are the sums of the per-verdict counts. |
| Serializers.SumCountsAll | bridge/reports/serializers.py:33-34 | Summing per-verdict counts over distinct verdicts that cover every report counts every report once. |
| Serializers.GroupedSums | bridge/reports/serializers.py:56-59 | The keys are exactly those of the rows. An unconfirmed row or one without a problem goes under "Without marks". Each key holds the sum of its rows' numbers. |
| Serializers.GroupUnknowns | bridge/reports/serializers.py:56-59 | The grouping loop builds the dictionary `Grouped` describes. |
| Serializers.KeyEntries | bridge/reports/serializers.py:60-63 | There is one entry per key, in sorted key order, with that key's number. |
| Serializers.TotalEntries | bridge/reports/serializers.py:69-70 | There is one "Total" entry per component total, in the given order. |
| Serializers.KeyEntriesOfRows | bridge/reports/serializers.py:56-63 | The grouped entries are strictly ascending by (component, problem), come from the rows, and hold the sum of the numbers under their key. |
| Serializers.GetUnknowns | bridge/reports/serializers.py:44-71 | The result is the grouped entries in key order followed by the per-component totals. |
| Serializers.Described | bridge/reports/serializers.py:135-139 | Every recorded mark keeps its fields. It gets a description exactly when its current version has one, and then that description. |
| Serializers.InIdOrder | bridge/reports/serializers.py:146 | The reports are listed once each, in ascending report id. |
| Serializers.AddAssociation | bridge/reports/serializers.py:118-133 | One association step extends both dictionaries as the loop functions say. |
| Serializers.CollectAssociations | bridge/reports/serializers.py:118-133 | The association loop builds the report and mark dictionaries of all rows. |
| Serializers.AddUnmarked | bridge/reports/serializers.py:141-144 | The loop over unmarked reports adds them as `WithUnmarked` says. |
| Serializers.MergeResults | bridge/reports/serializers.py:111-146 | The marks are those first recorded, with current descriptions. The reports are all associated and unmarked reports, in id order. |
| Serializers.MarksOfFirstOccurrence | bridge/reports/serializers.py:128-133 | A mark is recorded exactly when some association names it, and it keeps the fields of the first such association. |
| Serializers.ReportsOfEntries | bridge/reports/serializers.py:118-126 | Exactly the associated reports are listed, with their attributes. For safes and unknowns the marks are their association identifiers in order. For unsafes they are results by mark. |
| Serializers.ResultsForLast | bridge/reports/serializers.py:157-163 | A mark has a result exactly when an association of the report names it, and the result is that of the last such association. |
| Serializers.UnsafeResultsLast | bridge/reports/serializers.py:155-163 | In the unsafes merge, each report maps every associated mark to the result of its last association. |
| Serializers.UnmarkedEntries | bridge/reports/serializers.py:141-144 | Unmarked reports are all listed with no marks. For safes and unsafes they replace an existing entry. For unknowns an associated report keeps its marks. |
| CharDev.Step | presets/jobs/specifications/linux/staging/fs/char_dev.c:32-87 | A successful registration requires the zero state and sets registered. A failed one changes nothing. Unregistration requires registered and sets zero. The final check requires zero. A failure is never cleared. |
| CharDev.RegisterChrdevResult | presets/jobs/specifications/linux/staging/fs/char_dev.c:37-53 | The result is positive on success with major 0, zero on success with another major, and negative on failure. |
| CharDev.Model.constructor | presets/jobs/specifications/linux/staging/fs/char_dev.c:30 | The region starts unregistered. |
| CharDev.Model.RegisterChrdev | presets/jobs/specifications/linux/staging/fs/char_dev.c:32-54 | It makes one `Step`, and without an assertion failure it returns `RegisterChrdevResult`. |
| CharDev.Model.RegisterChrdevRegion | presets/jobs/specifications/linux/staging/fs/char_dev.c:56-73 | It makes one `Step` and returns the nondeterministic status. |
| CharDev.Model.UnregisterChrdevRegion | presets/jobs/specifications/linux/staging/fs/char_dev.c:75-81 | It makes one `Step`. |
| CharDev.Model.CheckFinalState | presets/jobs/specifications/linux/staging/fs/char_dev.c:83-87 | It makes one `Step`. |
| CharDev.StaysRegistered | presets/jobs/specifications/linux/staging/fs/char_dev.c:32-81 | Without an unregistration a registered region stays registered. |
| CharDev.FailureSticks | presets/jobs/specifications/linux/staging/fs/char_dev.c:42 | Once an assertion fails, the error stays found. |
| CharDev.DoubleRegistrationFails | presets/jobs/specifications/linux/staging/fs/char_dev.c:32-73 | Two successful registrations with no unregistration between them violate the assertion, from any state. |
| CharDev.FinalCheckPasses | presets/jobs/specifications/linux/staging/fs/char_dev.c:83-87 | The final check passes exactly in the zero state. |
| CharDev.BalancedRegistrationPasses | presets/jobs/specifications/linux/staging/fs/char_dev.c:56-87 | Register, unregister and final check from the start raise no error. |
| TestModel.Step | bridge/jobs/presets/linux-3.14/linux/emg/test_model.c:6-37 | A callback fails exactly when its assertions fail. No other call fails, and a failure is never cleared. |
| TestModel.Model.constructor | bridge/jobs/presets/linux-3.14/linux/emg/test_model.c:1-3 | All three counters start at 0. |
| TestModel.Model.InvokeCallback | bridge/jobs/presets/linux-3.14/linux/emg/test_model.c:6-13 | It makes one `Step`, checking both assertions. |
| TestModel.Model.Deregister | bridge/jobs/presets/linux-3.14/linux/emg/test_model.c:16-19 | It makes one `Step`, which sets only `non_deregistered`. |
| TestModel.Model.Register | bridge/jobs/presets/linux-3.14/linux/emg/test_model.c:22-25 | It makes one `Step`, which sets only `registered`. |
| TestModel.Model.ProbeUp | bridge/jobs/presets/linux-3.14/linux/emg/test_model.c:28-31 | It makes one `Step`, which increments `probed`. |
| TestModel.Model.ReleaseDown | bridge/jobs/presets/linux-3.14/linux/emg/test_model.c:34-37 | It makes one `Step`, which decrements `probed`. |
| TestModel.ProbedFollowsBalance | bridge/jobs/presets/linux-3.14/linux/emg/test_model.c:28-37 | `probed` moves by the balance of allocations over frees, so a balanced sequence leaves it unchanged. |
| TestModel.FailureSticks | bridge/jobs/presets/linux-3.14/linux/emg/test_model.c:9-12 | Once an assertion fails, the error stays found. |
| TestModel.DeregisteredStays | bridge/jobs/presets/linux-3.14/linux/emg/test_model.c:16-19 | Nothing clears `non_deregistered`. |
| TestModel.UnregisteredStays | bridge/jobs/presets/linux-3.14/linux/emg/test_model.c:22-25 | Without `ldv_register`, `registered` keeps its value. |
| TestModel.CallbackPassesIff | bridge/jobs/presets/linux-3.14/linux/emg/test_model.c:6-13 | The callback passes exactly when registered is set, `non_deregistered` is clear and `probed` is 0. |
| TestModel.CallbackAfterDeregisterFails | bridge/jobs/presets/linux-3.14/linux/emg/test_model.c:6-19 | Every callback after `ldv_deregister` fails. |
| TestModel.CallbackBeforeRegisterFails | bridge/jobs/presets/linux-3.14/linux/emg/test_model.c:6-25 | From the start, a callback before any `ldv_register` fails. |
| TestModel.RegisteredBalancedCallbackPasses | bridge/jobs/presets/linux-3.14/linux/emg/test_model.c:6-37 | Registering, allocating and freeing, then calling back, passes. |

## Left out

- Queues, processes and shared dictionaries are not modelled: `multiprocessing` queues become sequences ending in a `None` sentinel, and `Manager().dict()` a map. The two loops run one after the other (`Lkvog.RunPipeline`), not concurrently.
- Logging, `psi.utils.report` and the JSON dumps to disk in `lkvog` are left out. They are I/O.
- The closure and scotch strategies are not part of this model. `divide` is a function value carried by the strategy, and the scotch process and directory handling are left out.
- `hash(cluster)` depends on the Python runtime. It is a field of the cluster.
- The set `strategies_list` is not part of this model; it is taken to be closure and scotch.
- Lkvog.FindCcFullDescFiles: Python's recursion limit is a depth bound of 1000 nested calls with its own failure. The exact frame count at which Python raises is not modelled.
- The `modules` filters are matched as literal prefixes, not as regular expressions.
- Lkvog.Generator.ProcessBuildCmdDesc: a missing output file is modelled as "", where the source has `None`. For an LD command without an output file the source raises `TypeError` at `re.search(r'\.ko$', None)`, which ends the ingest loop before the end marker is queued; the model files the description under "" and goes on. The tests `\.ko$` and `\.mod\.o$` are modelled as plain suffix tests, so an output file that ends in ".ko" followed by a newline, which Python's `$` also matches, is not selected by the model.
- The regular-expression engine of `process.py` is a search function passed as a parameter. `FindsSubstrings` states what the proofs assume of it.
- Labels, `export_process`'s `labels` key, the peer ids of exported actions, `parse_process` and `process_ast`, `resolve_access` and `Label.compare_with` are left out. They rest on the grammar parser and signature code, which are not part of this model.
- EmgProcess.Action.constructor: a new `Subprocess` starts with an empty process text, where the source starts it at `None`. The model therefore does not capture the `TypeError` that `insert_action` and `rename_action` raise on such a subprocess, nor the `None` that `export_process` then writes. A condition that starts as `None` exports like an empty one, so that difference is harmless.
- EmgProcess.Process.constructor: a new process starts with an empty process text, where the source starts it at `None`. The model therefore does not capture the `TypeError` that `insert_action` and `rename_action` raise when they search such a process's text first, nor the `None` that `export_process` then writes; the model rewrites nothing there and exports an empty text.
- EmgProcess.Action.Export: the exported peers are the peers as stored, not the `external_id`s of their processes.
- `bridge.vars` is not part of this model. The manager and expert are the user roles at positions 2 and 3 of `USER_ROLES`, and job roles 2 and 4 may edit marks.
- Display titles (`get_verdict_display`, `get_status_display`) are fields of a version.
- Querysets are given as sequences, and the history query as a map from mark identifier to description.
- Marks.CanEdit, Marks.CanCreate: `.get()` finding several job versions with the same number (`MultipleObjectsReturned`) is not modelled. One of them is used.
- `NewMark`, `TagsInfo`, the other comparisons of `CompareMarkVersions` (error traces, attributes, functions, problems) and `__get_versions` are left out. They read files and the database.
- `ComputerDataField.get_value`, HTML form input in `to_internal_value`, and the DRF machinery are left out. `ComputerSerializer.create` is a database lookup.
- Serializers.ToInternalValue: iterables other than lists (tuples, sets, generators) are not represented. Every non-list value is rejected.
- Serializers.VerdictsData: the rows are built from the reports in one pass. They are not grouped by a database query.
- TestModel: `probed` is an unbounded integer. Overflow of the C `int` is undefined behaviour and is not modelled.
- CharDev: the 32-bit range of `int` appears only in `Possible`, the constraint on nondeterministic values.
- `ldv_assert` is modelled as a sticky failure flag with an early return, not as a verifier error location.
