/** The part of the model metadata a job consults: dataflows with their
    segments and partitions, and index plans with their layouts. The job reads
    a fresh snapshot of them on every check; only the dataflow status is ever
    written, through `DataflowManager`. */
module Metadata {

  /** `RealizationStatusEnum`. */
  datatype RealizationStatus = Online | Offline | Broken | LagBehind

  /** `ManagementType` of a data model. */
  datatype ManagementType = TableOriented | ModelBased

  /** The data model a dataflow realises, as far as the job needs it. */
  datatype DataModel = DataModel(managementType: ManagementType, multiPartition: bool)

  /** One sub-partition built into a segment. */
  datatype SegmentPartition = SegmentPartition(partitionId: int)

  /** A segment of a dataflow, with the sub-partitions it currently holds. */
  datatype DataSegment = DataSegment(multiPartitions: seq<SegmentPartition>)

  /** A dataflow; `segments` maps each segment id to its segment, and
      `brokenWithRelatedInfo` is the answer of `checkBrokenWithRelatedInfo`. */
  datatype Dataflow = Dataflow(
    status: RealizationStatus,
    model: DataModel,
    brokenWithRelatedInfo: bool,
    segments: map<string, DataSegment>)

  /** An index plan, reduced to the ids of all its layouts. */
  datatype IndexPlan = IndexPlan(allLayoutIds: seq<int>)

  /** What the dataflow and index-plan managers of one project return at the
      moment of a check, keyed by model id (a dataflow's id is its model's id). */
  datatype Snapshot = Snapshot(dataflows: map<string, Dataflow>, indexPlans: map<string, IndexPlan>)

  /** The partition ids a segment currently holds. */
  function PartitionIds(segment: DataSegment): (ids: set<int>)
    ensures forall k :: 0 <= k < |segment.multiPartitions| ==> segment.multiPartitions[k].partitionId in ids
    ensures forall p :: p in ids ==>
      exists k :: 0 <= k < |segment.multiPartitions| && segment.multiPartitions[k].partitionId == p
  {
    set sp | sp in segment.multiPartitions :: sp.partitionId
  }

  /** The dataflow store of one project: the only metadata the job writes. */
  class DataflowManager {
    var dataflows: map<string, Dataflow>

    constructor (dataflows: map<string, Dataflow>)
      ensures this.dataflows == dataflows
    {
      this.dataflows := dataflows;
    }

    /** `updateDataflowStatus`: sets the status of one existing dataflow and
        leaves every other dataflow, and every other attribute, as it was. */
    method UpdateDataflowStatus(dataflowId: string, status: RealizationStatus)
      requires dataflowId in dataflows
      modifies this
      ensures dataflows.Keys == old(dataflows).Keys
      ensures dataflows[dataflowId] == old(dataflows)[dataflowId].(status := status)
      ensures forall id :: id in dataflows && id != dataflowId ==> dataflows[id] == old(dataflows)[id]
    {
      dataflows := dataflows[dataflowId := dataflows[dataflowId].(status := status)];
    }
  }
}
