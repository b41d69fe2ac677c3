/** A build job bound to one data model (`DefaultExecutableOnModel`): whether
    its targets still exist, whether it must kill itself, the hooks the
    scheduler calls on error, discard and suicide, and the wiring of the
    optional resource-detect step into the job's DAG. */
module Execution {
  import opened Lang
  import opened Metadata
  import opened StringHelper

  /** `JobTypeEnum`, restricted to the kinds that run on a model. */
  datatype JobType =
    | IndexBuild | IncBuild | IndexMerge | IndexRefresh
    | SubPartitionBuild | SubPartitionRefresh

  /** `JobParam.isBuildIndexJob`: the kinds that build new indexes. */
  predicate IsBuildIndexJob(jobType: JobType) {
    jobType == IndexBuild || jobType == SubPartitionBuild
  }

  /** Why a check threw instead of answering. */
  datatype Failure =
    | EmptyTargetSegments   // `Preconditions.checkState` on the target list
    | IndexPlanNotFound     // the index plan of the target model is gone
    | JobNotFound           // `getJob` found no job with the given id

  /** `NBatchConstants.P_LAYOUT_IDS`: the parameter holding the requested layouts. */
  const LayoutIdsParam: string := "layoutIds"

  /** The callback object a job may carry; the model records how often it was
      asked to clean up. */
  class ExecutableHandler {
    var invocations: nat

    constructor ()
      ensures invocations == 0
    {
      invocations := 0;
    }

    method HandleDiscardOrSuicidal()
      modifies this
      ensures invocations == old(invocations) + 1
    {
      invocations := invocations + 1;
    }
  }

  class Executable {
    const id: string
    const jobType: JobType
    /** `getTargetSubject()`: the id of the model the job works on. */
    const targetModel: string
    const params: map<string, string>
    const targetSegments: seq<string>
    /** `getPartitionsBySegment()`: the partitions the job targets in each segment. */
    const partitionsBySegment: map<string, set<int>>
    /** The job this step belongs to, if it is a step of one. */
    const parent: Executable?

    var handler: ExecutableHandler?
    var previousStep: Option<string>
    var nextSteps: set<string>

    constructor (id: string, jobType: JobType, targetModel: string, params: map<string, string>,
                 targetSegments: seq<string>, partitionsBySegment: map<string, set<int>>,
                 parent: Executable?, handler: ExecutableHandler?)
      ensures this.id == id && this.jobType == jobType && this.targetModel == targetModel
      ensures this.params == params && this.targetSegments == targetSegments
      ensures this.partitionsBySegment == partitionsBySegment && this.parent == parent
      ensures this.handler == handler && previousStep == None && nextSteps == {}
    {
      this.id := id;
      this.jobType := jobType;
      this.targetModel := targetModel;
      this.params := params;
      this.targetSegments := targetSegments;
      this.partitionsBySegment := partitionsBySegment;
      this.parent := parent;
      this.handler := handler;
      previousStep := None;
      nextSteps := {};
    }

    /** The job whose target list and type decide for this one: the parent
        when there is one, otherwise this job itself. */
    function Top(): Executable {
      if parent == null then this else parent
    }

    // ----- layouts -----

    /** `getParam(P_LAYOUT_IDS)`, an absent parameter read as empty. */
    function LayoutIds(): string {
      if LayoutIdsParam in params then params[LayoutIdsParam] else ""
    }

    /** The requested layout ids, as the trimmed comma-separated tokens of the parameter. */
    function RequestedLayoutTokens(): seq<string> {
      SplitAndTrim(LayoutIds(), ',')
    }

    /** `checkAnyLayoutExists`: no requested layouts means no constraint;
        otherwise some requested token must be the decimal form of a layout
        id of the model's index plan. */
    function CheckAnyLayoutExists(indexPlans: map<string, IndexPlan>): (r: Result<bool, Failure>)
      ensures LayoutIds() == [] ==> r == Ok(true)
      ensures LayoutIds() != [] && targetModel !in indexPlans ==> r == Err(IndexPlanNotFound)
      ensures LayoutIds() != [] && targetModel in indexPlans ==>
        r.Ok? &&
        (r.value <==> exists i, j :: 0 <= i < |RequestedLayoutTokens()| &&
                                     0 <= j < |indexPlans[targetModel].allLayoutIds| &&
                                     RequestedLayoutTokens()[i] == LongToString(indexPlans[targetModel].allLayoutIds[j]))
    {
      if LayoutIds() == [] then Ok(true)
      else if targetModel !in indexPlans then Err(IndexPlanNotFound)
      else
        var ids := indexPlans[targetModel].allLayoutIds;
        var allLayoutIds := set id | id in ids :: LongToString(id);
        Ok(AnyMatch(RequestedLayoutTokens(), t => t in allLayoutIds))
    }

    // ----- segments and partitions -----

    /** The target segment is present in the model's healthy dataflow. */
    predicate SegmentPresent(segmentId: string, dataflows: map<string, Dataflow>) {
      targetModel in dataflows &&
      !dataflows[targetModel].brokenWithRelatedInfo &&
      segmentId in dataflows[targetModel].segments
    }

    /** What `checkTargetSegmentAndPartitionExists` decides: the segment is
        present and, for a multi-partition model, still holds every partition
        the job recorded for it; when the job recorded no partitions for the
        segment, presence is enough. */
    function SegmentAndPartitionsExist(segmentId: string, dataflows: map<string, Dataflow>): (r: bool)
      ensures targetModel !in dataflows ==> !r
      ensures targetModel in dataflows && dataflows[targetModel].brokenWithRelatedInfo ==> !r
      ensures targetModel in dataflows && segmentId !in dataflows[targetModel].segments ==> !r
      ensures SegmentPresent(segmentId, dataflows) && !dataflows[targetModel].model.multiPartition ==> r
      ensures SegmentPresent(segmentId, dataflows) && segmentId !in partitionsBySegment ==> r
      ensures SegmentPresent(segmentId, dataflows) && dataflows[targetModel].model.multiPartition &&
              segmentId in partitionsBySegment ==>
        (r <==> forall p :: p in partitionsBySegment[segmentId] ==>
                  exists k :: 0 <= k < |dataflows[targetModel].segments[segmentId].multiPartitions| &&
                              dataflows[targetModel].segments[segmentId].multiPartitions[k].partitionId == p)
    {
      if !SegmentPresent(segmentId, dataflows) then false
      else if !dataflows[targetModel].model.multiPartition || segmentId !in partitionsBySegment then true
      else
        var segment := dataflows[targetModel].segments[segmentId];
        var recorded := partitionsBySegment[segmentId];
        var current := PartitionIds(segment);
        assert (forall p :: p in recorded ==> p in current) ==> recorded <= current;
        recorded <= current
    }

    /** `checkTargetSegmentAndPartitionExists`, walking the recorded partitions
        one by one and stopping at the first one the segment no longer holds. */
    method CheckTargetSegmentAndPartitionExists(segmentId: string, dataflows: map<string, Dataflow>)
      returns (valid: bool)
      ensures valid == SegmentAndPartitionsExist(segmentId, dataflows)
    {
      if targetModel !in dataflows || dataflows[targetModel].brokenWithRelatedInfo {
        return false;
      }
      var dataflow := dataflows[targetModel];
      if segmentId !in dataflow.segments {
        return false;
      }
      if dataflow.model.multiPartition {
        var partitionIds := PartitionIds(dataflow.segments[segmentId]);
        if segmentId !in partitionsBySegment {
          return true;
        }
        var partitionInSegment := partitionsBySegment[segmentId];
        var remaining := partitionInSegment;
        while remaining != {}
          invariant remaining <= partitionInSegment
          invariant partitionInSegment - remaining <= partitionIds
          decreases remaining
        {
          var partition := Pick(remaining);
          if partition !in partitionIds {
            return false;
          }
          remaining := remaining - {partition};
        }
      }
      return true;
    }

    /** `checkAnyTargetSegmentAndPartitionExists`: the target list of the top
        job must not be empty, and one surviving target is enough. */
    function CheckAnyTargetSegmentAndPartitionExists(dataflows: map<string, Dataflow>): (r: Result<bool, Failure>)
      ensures Top().targetSegments == [] ==> r == Err(EmptyTargetSegments)
      ensures Top().targetSegments != [] ==>
        r.Ok? &&
        (r.value <==> exists k :: 0 <= k < |Top().targetSegments| &&
                                  SegmentAndPartitionsExist(Top().targetSegments[k], dataflows))
    {
      var topJobTargetSegments := Top().targetSegments;
      if topJobTargetSegments == [] then Err(EmptyTargetSegments)
      else Ok(AnyMatch(topJobTargetSegments, segmentId => SegmentAndPartitionsExist(segmentId, dataflows)))
    }

    // ----- suicide -----

    /** `checkSuicide`: the job must die unless both checks answer true; a
        check that throws counts as a reason to die. */
    function CheckSuicide(snapshot: Snapshot): (suicide: bool)
      ensures !suicide <==>
        CheckAnyTargetSegmentAndPartitionExists(snapshot.dataflows) == Ok(true) &&
        CheckAnyLayoutExists(snapshot.indexPlans) == Ok(true)
    {
      match CheckAnyTargetSegmentAndPartitionExists(snapshot.dataflows)
      case Err(_) => true
      case Ok(segmentsExist) =>
        if !segmentsExist then true
        else
          match CheckAnyLayoutExists(snapshot.indexPlans)
          case Err(_) => true
          case Ok(layoutsExist) => !layoutsExist
    }

    // ----- cutting in -----

    /** `checkCuttingInJobByModel`: only a job that builds indexes can be cut
        in on, and it is when some job is counted as cutting in ahead of it on
        its model. `countCuttingIn(model, jobId)` is the execution manager's
        `countCuttingInJobByModel`. */
    function CheckCuttingInJobByModel(countCuttingIn: (string, string) -> int): (r: bool)
      ensures r ==> IsBuildIndexJob(Top().jobType)
      ensures IsBuildIndexJob(Top().jobType) ==> (r <==> countCuttingIn(Top().targetModel, Top().id) > 0)
    {
      var top := Top();
      if !IsBuildIndexJob(top.jobType) then false
      else countCuttingIn(top.targetModel, top.id) > 0
    }

    // ----- hooks -----

    /** `onExecuteDiscardHook`: hands the clean-up to the handler, if any. */
    method OnExecuteDiscardHook(jobId: string)
      modifies handler
      ensures handler != null ==> handler.invocations == old(handler.invocations) + 1
    {
      if handler != null {
        handler.HandleDiscardOrSuicidal();
      }
    }

    /** `onExecuteSuicidalHook`: the same clean-up as a discard. */
    method OnExecuteSuicidalHook(jobId: string)
      modifies handler
      ensures handler != null ==> handler.invocations == old(handler.invocations) + 1
    {
      if handler != null {
        handler.HandleDiscardOrSuicidal();
      }
    }

    /** `getDataflow(jobId)`: the dataflow of the model of the job named
        `jobId` (looked up in the execution manager's table `jobs`). */
    function GetDataflow(jobId: string, jobs: map<string, Executable>, dataflows: map<string, Dataflow>)
      : (r: Result<Option<Dataflow>, Failure>)
      ensures jobId !in jobs <==> r == Err(JobNotFound)
      ensures jobId in jobs && jobs[jobId].targetModel !in dataflows ==> r == Ok(None)
      ensures jobId in jobs && jobs[jobId].targetModel in dataflows ==>
        r == Ok(Some(dataflows[jobs[jobId].targetModel]))
    {
      if jobId !in jobs then Err(JobNotFound)
      else if jobs[jobId].targetModel !in dataflows then Ok(None)
      else Ok(Some(dataflows[jobs[jobId].targetModel]))
    }

    /** `markDFLagBehindIfNecessary`: after an incremental build fails, the
        dataflow of the failed job's model is marked lag-behind, unless it is
        missing, already lag-behind, or its model is model-based. */
    method MarkDFLagBehindIfNecessary(jobId: string, jobs: map<string, Executable>, dfManager: DataflowManager)
      returns (outcome: Outcome<Failure>)
      modifies dfManager
      ensures jobType != IncBuild ==> outcome == Pass && dfManager.dataflows == old(dfManager.dataflows)
      ensures jobType == IncBuild && jobId !in jobs ==>
        outcome == Fail(JobNotFound) && dfManager.dataflows == old(dfManager.dataflows)
      ensures jobType == IncBuild && jobId in jobs ==>
        outcome == Pass &&
        dfManager.dataflows == MarkedLagBehind(old(dfManager.dataflows), jobs[jobId].targetModel)
    {
      if jobType != IncBuild {
        return Pass;
      }
      var dataflow := GetDataflow(jobId, jobs, dfManager.dataflows);
      if dataflow.Err? {
        return Fail(dataflow.error);
      }
      if dataflow.value == None || dataflow.value.value.status == LagBehind {
        return Pass;
      }
      if dataflow.value.value.model.managementType == ModelBased {
        return Pass;
      }
      dfManager.UpdateDataflowStatus(jobs[jobId].targetModel, LagBehind);
      return Pass;
    }

    /** `onExecuteErrorHook`. */
    method OnExecuteErrorHook(jobId: string, jobs: map<string, Executable>, dfManager: DataflowManager)
      returns (outcome: Outcome<Failure>)
      modifies dfManager
      ensures jobType != IncBuild ==> outcome == Pass && dfManager.dataflows == old(dfManager.dataflows)
      ensures jobType == IncBuild && jobId !in jobs ==>
        outcome == Fail(JobNotFound) && dfManager.dataflows == old(dfManager.dataflows)
      ensures jobType == IncBuild && jobId in jobs ==>
        outcome == Pass &&
        dfManager.dataflows == MarkedLagBehind(old(dfManager.dataflows), jobs[jobId].targetModel)
    {
      outcome := MarkDFLagBehindIfNecessary(jobId, jobs, dfManager);
    }

    // ----- DAG -----

    /** `initResourceDetectDagNode`: puts `resourceDetect`, when there is one,
        in front of the index step and the optional second-storage step,
        writing both ends of every new edge. */
    static method InitResourceDetectDagNode(resourceDetect: Executable?, indexStep: Executable, secondStorage: Executable?)
      modifies indexStep`previousStep
      modifies (if secondStorage == null then {} else {secondStorage})`previousStep
      modifies (if resourceDetect == null then {} else {resourceDetect})`nextSteps
      ensures resourceDetect == null ==> indexStep.previousStep == old(indexStep.previousStep)
      ensures resourceDetect == null && secondStorage != null ==> secondStorage.previousStep == old(secondStorage.previousStep)
      ensures resourceDetect != null ==> indexStep.previousStep == Some(resourceDetect.id)
      ensures resourceDetect != null && secondStorage != null ==> secondStorage.previousStep == Some(resourceDetect.id)
      ensures resourceDetect != null ==>
        resourceDetect.nextSteps == if secondStorage == null then {indexStep.id} else {indexStep.id, secondStorage.id}
      ensures resourceDetect != null ==> Linked(resourceDetect, Downstream(indexStep, secondStorage))
    {
      if resourceDetect != null {
        var indexStepId := indexStep.id;
        indexStep.previousStep := Some(resourceDetect.id);
        if secondStorage != null {
          var secondStorageId := secondStorage.id;
          resourceDetect.nextSteps := {indexStepId, secondStorageId};
          secondStorage.previousStep := Some(resourceDetect.id);
        } else {
          resourceDetect.nextSteps := {indexStepId};
        }
      }
    }
  }

  /** What `markDFLagBehindIfNecessary` leaves in the dataflow store for the
      model `modelId`: its dataflow becomes lag-behind when it exists, is not
      lag-behind yet and its model is not model-based. */
  function MarkedLagBehind(dataflows: map<string, Dataflow>, modelId: string): (r: map<string, Dataflow>)
    ensures r.Keys == dataflows.Keys
    ensures forall id :: id in r && id != modelId ==> r[id] == dataflows[id]
    ensures modelId in r ==> r[modelId] == dataflows[modelId].(status := r[modelId].status)
    ensures modelId in r && r[modelId].status != dataflows[modelId].status ==>
      r[modelId].status == LagBehind && dataflows[modelId].model.managementType != ModelBased
  {
    if modelId !in dataflows || dataflows[modelId].status == LagBehind then dataflows
    else if dataflows[modelId].model.managementType == ModelBased then dataflows
    else dataflows[modelId := dataflows[modelId].(status := LagBehind)]
  }

  /** The steps the resource-detect step feeds: the index step, and the
      second-storage step when there is one. */
  function Downstream(indexStep: Executable, secondStorage: Executable?): set<Executable> {
    if secondStorage == null then {indexStep} else {indexStep, secondStorage}
  }

  /** Both ends of the edges from `up` to `downs` agree: `up.nextSteps` names
      exactly the steps in `downs`, and each of them names `up` as its
      previous step. */
  ghost predicate Linked(up: Executable, downs: set<Executable>)
    reads up, downs
  {
    up.nextSteps == (set d | d in downs :: d.id) &&
    forall d :: d in downs ==> d.previousStep == Some(up.id)
  }
}
