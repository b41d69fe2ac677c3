# Job validity and lifecycle of a model build job

This project models `DefaultExecutableOnModel`, the job class of the Kylin
build scheduler that is bound to one data model. While a job runs, other
actors may delete the segments, sub-partitions or index layouts it was
building. The job therefore keeps asking whether it still has meaningful work.
If it has none, it kills itself ("suicide"). The model covers:

- the target checks: a target segment is valid when the model's dataflow
  exists, is not broken, still holds the segment, and (for a multi-partition
  model) still holds every partition the job recorded for it. One valid target
  is enough. A requested layout survives if its decimal id is still a layout
  of the index plan. One surviving layout is enough;
- the suicide decision, where any exception counts as a reason to die;
- the cutting-in admission check;
- the error hook, which marks the dataflow lag-behind after a failed
  incremental build;
- the discard and suicide hooks, which forward to an optional handler;
- the insertion of the resource-detect step into the job DAG. That step writes
  both ends of every new `previousStep`/`nextSteps` edge.

Layout of the project:

- `lang.dfy` (`Lang`): `Option`, `Result` (a thrown exception becomes `Err`),
  `Outcome`, `AnyMatch` (`Stream.anyMatch`) and `Pick` (one step of a set
  iterator).
- `string_helper.dfy` (`StringHelper`): `String.split`, `String.trim`,
  `StringHelper.splitAndTrim` and `Long.toString`, with their round trips.
- `metadata.dfy` (`Metadata`): the metadata snapshot (dataflows, segments,
  partitions, index plans) and `DataflowManager`. The manager is a class
  because the error hook writes dataflow status in place.
- `executable.dfy` (`Execution`): the `Executable` class. Its immutable job
  attributes are `const` fields. Its DAG links and handler are mutable fields.
  The file also holds the checks, the hooks, `InitResourceDetectDagNode` and
  the lag-behind specification `MarkedLagBehind`.
- `properties.dfy` (`JobValidity`): lemmas that relate several calls, and
  the scenarios the scheduler relies on.

The metadata managers are singletons in the source. Here the checks receive
what those managers would return at the moment of the call: a `Snapshot`, or
the dataflow map, or the index-plan map. The execution manager's job table is
a `map<string, Executable>`. Its `countCuttingInJobByModel` is a function
parameter.

The error hook follows the code at `DefaultExecutableOnModel.java:78`. The hook
returns early when the model is `MODEL_BASED`. So a dataflow is marked
lag-behind only for models that are *not* model-based.

## Model

| member | source | states |
|---|---|---|
| `Execution.Executable.CheckSuicide` | src/core-job/src/main/java/org/apache/kylin/job/execution/DefaultExecutableOnModel.java:94-101 | the job survives exactly when the segment check answers `Ok(true)` and the layout check answers `Ok(true)`; a thrown check (`Err`) or a `false` means suicide |
| `JobValidity.SurvivesIff` | src/core-job/src/main/java/org/apache/kylin/job/execution/DefaultExecutableOnModel.java:94-150 | the suicide decision spelled out over the snapshot: the top job has targets, some target segment is valid, and the layout parameter is empty or some token names a layout of the plan |
| `JobValidity.AllTargetsGoneMeansSuicide` | src/core-job/src/main/java/org/apache/kylin/job/execution/DefaultExecutableOnModel.java:114-123 | if every target segment is gone from the dataflow (or the dataflow is gone), the job kills itself |
| `JobValidity.SurvivorsPreventSuicide` | src/core-job/src/main/java/org/apache/kylin/job/execution/DefaultExecutableOnModel.java:94-150 | one valid target segment plus one matching layout token (or no layout parameter) keeps the job alive |
| `Execution.Executable.CheckAnyLayoutExists` | src/core-job/src/main/java/org/apache/kylin/job/execution/DefaultExecutableOnModel.java:103-112 | an absent or empty parameter gives `Ok(true)`; otherwise a missing index plan gives `Err`, and else the answer is true iff some trimmed token equals the decimal form of some layout id of the plan |
| `JobValidity.LayoutCheckOnEncodedParam` | src/core-job/src/main/java/org/apache/kylin/job/execution/DefaultExecutableOnModel.java:103-112 | on a parameter written as comma-joined decimal ids, the check answers whether one of the requested ids is a layout of the plan |
| `JobValidity.EncodedLayoutTokens` | src/core-job/src/main/java/org/apache/kylin/job/execution/DefaultExecutableOnModel.java:111 | splitting and trimming a comma-joined list of decimal ids yields exactly those decimal strings |
| `JobValidity.LayoutExample` | src/core-job/src/main/java/org/apache/kylin/job/execution/DefaultExecutableOnModel.java:103-112 | "10,20,30" against an index plan with layouts 20 and 99 gives `Ok(true)` |
| `JobValidity.PaddedLayoutTokens` | src/core-job/src/main/java/org/apache/kylin/job/execution/DefaultExecutableOnModel.java:111 | a parameter whose comma-separated pieces trim to decimal ids reads back as exactly those ids |
| `JobValidity.TokensWithBlankAfterComma` | src/core-job/src/main/java/org/apache/kylin/job/execution/DefaultExecutableOnModel.java:111 | two ids written with a blank after the comma, as in "10, 20", give exactly the two decimal ids as tokens |
| `JobValidity.BlankAfterCommaIsTrimmed` | src/core-job/src/main/java/org/apache/kylin/job/execution/DefaultExecutableOnModel.java:103-112 | with a blank after the comma, the second id is still found: when it is a layout of the plan, the check answers `Ok(true)` |
| `JobValidity.BlankLayoutParamMatchesNothing` | src/core-job/src/main/java/org/apache/kylin/job/execution/DefaultExecutableOnModel.java:104-111 | a non-empty parameter made only of blanks and commas still constrains the job but matches nothing, so the check answers `Ok(false)` |
| `Execution.Executable.SegmentAndPartitionsExist` | src/core-job/src/main/java/org/apache/kylin/job/execution/DefaultExecutableOnModel.java:114-139 | invalid when the dataflow is missing or broken or lacks the segment; valid for a present segment of a non-multi-partition model or with no recorded partitions; otherwise valid iff every recorded partition is still among the segment's partitions |
| `Execution.Executable.CheckTargetSegmentAndPartitionExists` | src/core-job/src/main/java/org/apache/kylin/job/execution/DefaultExecutableOnModel.java:114-139 | the early-exit loop over the recorded partitions returns exactly `SegmentAndPartitionsExist` |
| `JobValidity.MissingPartitionInvalidates` | src/core-job/src/main/java/org/apache/kylin/job/execution/DefaultExecutableOnModel.java:132-136 | one recorded partition the segment no longer holds makes the segment invalid |
| `JobValidity.ShrunkOnlySegmentMeansSuicide` | src/core-job/src/main/java/org/apache/kylin/job/execution/DefaultExecutableOnModel.java:124-150 | if the recorded partitions of the only target segment are a strict superset of its current ones, the job kills itself |
| `JobValidity.UnrecordedPartitionsFallback` | src/core-job/src/main/java/org/apache/kylin/job/execution/DefaultExecutableOnModel.java:127-131 | with no partitions recorded for it, a present segment counts as valid even when it holds no partitions at all |
| `Execution.Executable.CheckAnyTargetSegmentAndPartitionExists` | src/core-job/src/main/java/org/apache/kylin/job/execution/DefaultExecutableOnModel.java:141-150 | uses the parent's target list when there is a parent; an empty list gives `Err`; otherwise true iff some target segment is valid |
| `Execution.Executable.CheckCuttingInJobByModel` | src/core-job/src/main/java/org/apache/kylin/job/execution/DefaultExecutableOnModel.java:152-162 | false unless the top job builds indexes; for such a job, true iff the cutting-in count for its model is positive |
| `JobValidity.ChildDefersToParent` | src/core-job/src/main/java/org/apache/kylin/job/execution/DefaultExecutableOnModel.java:141-162 | a step whose parent job has no parent of its own, and which shares that parent's `targetModel` and `partitionsBySegment`, answers the target and cutting-in checks exactly as the parent does; without these hypotheses the step reads its own model and partition map against the parent's segment list |
| `Execution.Executable.OnExecuteDiscardHook` | src/core-job/src/main/java/org/apache/kylin/job/execution/DefaultExecutableOnModel.java:164-169 | an attached handler is invoked exactly once; with no handler nothing changes |
| `Execution.Executable.OnExecuteSuicidalHook` | src/core-job/src/main/java/org/apache/kylin/job/execution/DefaultExecutableOnModel.java:171-176 | the same as the discard hook: one handler invocation, or nothing |
| `Execution.ExecutableHandler.HandleDiscardOrSuicidal` | src/core-job/src/main/java/org/apache/kylin/job/execution/DefaultExecutableOnModel.java:167 | each callback is counted once |
| `Execution.Executable.GetDataflow` | src/core-job/src/main/java/org/apache/kylin/job/execution/DefaultExecutableOnModel.java:86-92 | `Err` exactly when no job has the given id; `Ok(None)` when that job's model has no dataflow; otherwise `Ok(Some(d))` with `d` the dataflow of *that* job's model |
| `Execution.Executable.MarkDFLagBehindIfNecessary` | src/core-job/src/main/java/org/apache/kylin/job/execution/DefaultExecutableOnModel.java:69-84 | a job that is not an incremental build changes nothing; an unknown job id fails and changes nothing; otherwise the store becomes `MarkedLagBehind` of the old store |
| `Execution.Executable.OnExecuteErrorHook` | src/core-job/src/main/java/org/apache/kylin/job/execution/DefaultExecutableOnModel.java:64-67 | a job that is not an incremental build passes and leaves the store unchanged; an incremental build with an unknown job id fails with `JobNotFound` and leaves the store unchanged; otherwise it passes and the store becomes `MarkedLagBehind` of the old store |
| `Execution.MarkedLagBehind` | src/core-job/src/main/java/org/apache/kylin/job/execution/DefaultExecutableOnModel.java:73-83 | the same dataflow ids; every other dataflow untouched; the target dataflow can change only in its status, and only to lag-behind when its model is not model-based |
| `JobValidity.MarkedLagBehindChangesIff` | src/core-job/src/main/java/org/apache/kylin/job/execution/DefaultExecutableOnModel.java:69-84 | the store changes iff the dataflow exists, is not lag-behind yet and its model is not model-based; in that case it becomes lag-behind |
| `JobValidity.MarkedLagBehindIdempotent` | src/core-job/src/main/java/org/apache/kylin/job/execution/DefaultExecutableOnModel.java:74-75 | marking twice leaves the same store as marking once |
| `Metadata.DataflowManager.UpdateDataflowStatus` | src/core-job/src/main/java/org/apache/kylin/job/execution/DefaultExecutableOnModel.java:82-83 | only the named dataflow's status changes |
| `Metadata.PartitionIds` | src/core-job/src/main/java/org/apache/kylin/job/execution/DefaultExecutableOnModel.java:125-126 | exactly the partition ids of the segment's partitions |
| `Execution.Executable.InitResourceDetectDagNode` | src/core-job/src/main/java/org/apache/kylin/job/execution/DefaultExecutableOnModel.java:178-191 | no resource-detect step: nothing changes; otherwise the index step (and the second-storage step, if any) point back to it, and its `nextSteps` is replaced by exactly their ids, so both ends of every new edge agree (`Linked`); only these fields may change |
| `Lang.AnyMatch` | src/core-job/src/main/java/org/apache/kylin/job/execution/DefaultExecutableOnModel.java:149 | true iff some element satisfies the predicate |
| `StringHelper.SplitAndTrim` | src/core-job/src/main/java/org/apache/kylin/job/execution/DefaultExecutableOnModel.java:111 | every token is non-empty, trimmed and free of the separator |
| `StringHelper.NonEmptyTrimmed` | src/core-job/src/main/java/org/apache/kylin/job/execution/DefaultExecutableOnModel.java:111 | a string is a token iff it is the non-empty trim of some piece; all-blank pieces give no tokens |
| `StringHelper.Split` | src/core-job/src/main/java/org/apache/kylin/job/execution/DefaultExecutableOnModel.java:111 | at least one piece, none containing the separator |
| `StringHelper.JoinSplit` | src/core-job/src/main/java/org/apache/kylin/job/execution/DefaultExecutableOnModel.java:111 | joining the pieces with the separator gives back the string |
| `StringHelper.SplitJoin` | src/core-job/src/main/java/org/apache/kylin/job/execution/DefaultExecutableOnModel.java:111 | splitting separator-free pieces joined by the separator gives back the pieces |
| `StringHelper.SplitKeepsCharacters` | src/core-job/src/main/java/org/apache/kylin/job/execution/DefaultExecutableOnModel.java:111 | every character of a piece occurs in the string that was split |
| `StringHelper.Trim` | src/core-job/src/main/java/org/apache/kylin/job/execution/DefaultExecutableOnModel.java:111 | the result has no blank at either end, is unchanged on a trimmed string, keeps only characters of the input, and is empty iff the input is all blanks |
| `StringHelper.TrimIsSlice` | src/core-job/src/main/java/org/apache/kylin/job/execution/DefaultExecutableOnModel.java:111 | what trimming keeps is a slice of the input with only blanks before and after it |
| `StringHelper.TrimPadded` | src/core-job/src/main/java/org/apache/kylin/job/execution/DefaultExecutableOnModel.java:111 | blanks on either side of a word with no blank at its ends are exactly what trimming removes |
| `StringHelper.PaddedSlice` | src/core-job/src/main/java/org/apache/kylin/job/execution/DefaultExecutableOnModel.java:111 | the only slice of a blank-padded word that has blanks around it and none at its own ends is the word itself |
| `StringHelper.TrimLeadingBlank` | src/core-job/src/main/java/org/apache/kylin/job/execution/DefaultExecutableOnModel.java:111 | a blank in front of a trimmed word is trimmed away |
| `StringHelper.LongToString` | src/core-job/src/main/java/org/apache/kylin/job/execution/DefaultExecutableOnModel.java:110 | the decimal form is non-empty, trimmed and comma-free, so it can be one token |
| `StringHelper.ParseNatToString` | src/core-job/src/main/java/org/apache/kylin/job/execution/DefaultExecutableOnModel.java:110 | reading the digits back gives the number |
| `StringHelper.NatToStringInjective` | src/core-job/src/main/java/org/apache/kylin/job/execution/DefaultExecutableOnModel.java:110 | two natural numbers with the same digits are equal |
| `StringHelper.LongToStringInjective` | src/core-job/src/main/java/org/apache/kylin/job/execution/DefaultExecutableOnModel.java:110-111 | two layout ids with the same decimal form are equal |

## Left out

- Metadata stores: the singleton managers (`NDataflowManager`, `NIndexPlanManager`, `NExecutableManager`, `KylinConfig`) are replaced by snapshot parameters. Project scoping is implicit, because each snapshot belongs to one project.
- Cutting-in count: the internals of `countCuttingInJobByModel` are not modelled. The count is the parameter `countCuttingIn(model, jobId)`.
- Parent lookup: `getParent()` looks the parent up in the execution manager. The model keeps a `const parent` reference instead.
- Dataflow id: `dataflow.getId()` is taken to equal the model id, and the dataflow map is keyed by it.
- `JobParam` is not part of this model. `IsBuildIndexJob` assumes that the index-building kinds are `INDEX_BUILD` and `SUB_PARTITION_BUILD`. `JobType` lists only the model-bound kinds.
- `NBatchConstants` is not part of this model. The layout parameter key is taken to be `"layoutIds"`.
- `StringHelper.splitAndTrim` is defined in `org.apache.kylin.common.util.StringHelper`, which is not part of this model. It is modelled as Java's full split, then `trim`, then dropping empty tokens. Java's `split` also drops trailing empty pieces, but the empty-token filter removes those anyway.
- Layout ids: these are Java `long` values, modelled as unbounded integers. No arithmetic is done on them, so the 64-bit width does not matter.
- Exceptions not modelled: the ones a check can throw become `Err`. These are the empty target list, a missing index plan, and an unknown job id in `getDataflow`. A `ClassCastException` from the casts, and a null model or null partition entries, are not modelled.
- `Execution.Executable.InitResourceDetectDagNode`: `indexStep` is typed non-null. A null index step with a present resource-detect step would throw in the source, and that path is not modelled.
- Handler: what the handler's cleanup does is not modelled. The model only counts how often the handler is invoked.
- Logging: the warning at line 129 is not modelled.
- Base class: the persistence and state machine of `DefaultExecutable` are not modelled. The constructors at lines 52-58 are not modelled either.
- `MemcachedCacheConfig.java` and `CloudConfig.java` are left out: they are configuration getters and Spring bootstrapping.
- `MetadataCleaner.java` is left out: it is an abstract class with a no-op `prepare()`, and its transactional guarantees live in a driver that is not part of this model.
- Concurrency: these checks run on a snapshot. What concurrent writers do to the live store between two checks is not modelled.
