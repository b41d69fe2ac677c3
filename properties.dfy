/** What the validity checks and the lag-behind update promise, stated across
    calls and for the situations the job scheduler cares about. */
module JobValidity {
  import opened Lang
  import opened Metadata
  import opened StringHelper
  import opened Execution

  // ----- suicide -----

  /** The whole suicide decision in terms of the snapshot: a job survives
      exactly when its top job has targets, one of them is still valid, and
      its layout constraint is absent or met. */
  lemma SurvivesIff(job: Executable, snapshot: Snapshot)
    ensures !job.CheckSuicide(snapshot) <==>
      && job.Top().targetSegments != []
      && (exists k :: 0 <= k < |job.Top().targetSegments| &&
                      job.SegmentAndPartitionsExist(job.Top().targetSegments[k], snapshot.dataflows))
      && (job.LayoutIds() == [] ||
          (job.targetModel in snapshot.indexPlans &&
           exists i, j :: 0 <= i < |job.RequestedLayoutTokens()| &&
                          0 <= j < |snapshot.indexPlans[job.targetModel].allLayoutIds| &&
                          job.RequestedLayoutTokens()[i] == LongToString(snapshot.indexPlans[job.targetModel].allLayoutIds[j])))
  {
  }

  /** A job whose every target segment is gone from its model's dataflow
      kills itself. */
  lemma AllTargetsGoneMeansSuicide(job: Executable, snapshot: Snapshot)
    requires forall k :: 0 <= k < |job.Top().targetSegments| ==>
      job.targetModel !in snapshot.dataflows ||
      job.Top().targetSegments[k] !in snapshot.dataflows[job.targetModel].segments
    ensures job.CheckSuicide(snapshot)
  {
  }

  /** One surviving target segment and one surviving requested layout are
      enough for the job to live on. */
  lemma SurvivorsPreventSuicide(job: Executable, snapshot: Snapshot, k: nat, i: nat, j: nat)
    requires k < |job.Top().targetSegments|
    requires job.SegmentAndPartitionsExist(job.Top().targetSegments[k], snapshot.dataflows)
    requires job.LayoutIds() != [] ==>
      && job.targetModel in snapshot.indexPlans
      && i < |job.RequestedLayoutTokens()|
      && j < |snapshot.indexPlans[job.targetModel].allLayoutIds|
      && job.RequestedLayoutTokens()[i] == LongToString(snapshot.indexPlans[job.targetModel].allLayoutIds[j])
    ensures !job.CheckSuicide(snapshot)
  {
  }

  // ----- partitions -----

  /** A recorded partition the segment no longer holds makes the segment
      invalid, whatever else it still holds. */
  lemma MissingPartitionInvalidates(job: Executable, segmentId: string, dataflows: map<string, Dataflow>, p: int)
    requires job.targetModel in dataflows && dataflows[job.targetModel].model.multiPartition
    requires segmentId in dataflows[job.targetModel].segments
    requires segmentId in job.partitionsBySegment && p in job.partitionsBySegment[segmentId]
    requires forall k :: 0 <= k < |dataflows[job.targetModel].segments[segmentId].multiPartitions| ==>
      dataflows[job.targetModel].segments[segmentId].multiPartitions[k].partitionId != p
    ensures !job.SegmentAndPartitionsExist(segmentId, dataflows)
  {
  }

  /** When the job recorded more partitions for its only target segment than
      the segment now holds, the job kills itself. */
  lemma ShrunkOnlySegmentMeansSuicide(job: Executable, snapshot: Snapshot)
    requires |job.Top().targetSegments| == 1
    requires job.targetModel in snapshot.dataflows && snapshot.dataflows[job.targetModel].model.multiPartition
    requires job.Top().targetSegments[0] in snapshot.dataflows[job.targetModel].segments
    requires job.Top().targetSegments[0] in job.partitionsBySegment
    requires PartitionIds(snapshot.dataflows[job.targetModel].segments[job.Top().targetSegments[0]])
             < job.partitionsBySegment[job.Top().targetSegments[0]]
    ensures job.CheckSuicide(snapshot)
  {
  }

  /** A job that recorded no partitions for a segment accepts the segment
      as soon as it is present, even with no partitions at all. */
  lemma UnrecordedPartitionsFallback(job: Executable, segmentId: string, dataflows: map<string, Dataflow>)
    requires job.targetModel in dataflows && !dataflows[job.targetModel].brokenWithRelatedInfo
    requires dataflows[job.targetModel].model.multiPartition
    requires segmentId in dataflows[job.targetModel].segments
    requires dataflows[job.targetModel].segments[segmentId].multiPartitions == []
    requires segmentId !in job.partitionsBySegment
    ensures job.SegmentAndPartitionsExist(segmentId, dataflows)
  {
  }

  // ----- layouts -----

  /** The layout-ids parameter as a job writer fills it in: the decimal ids
      joined by commas. */
  function EncodeLayoutIds(ids: seq<int>): string
    requires ids != []
  {
    Join(seq(|ids|, k requires 0 <= k < |ids| => LongToString(ids[k])), ',')
  }

  /** Reading back a parameter written that way gives exactly the decimal
      forms of the requested ids. */
  lemma {:induction false} EncodedLayoutTokens(ids: seq<int>)
    requires ids != []
    ensures forall t :: t in SplitAndTrim(EncodeLayoutIds(ids), ',') <==>
      exists k :: 0 <= k < |ids| && t == LongToString(ids[k])
  {
    var strs := seq(|ids|, k requires 0 <= k < |ids| => LongToString(ids[k]));
    SplitJoin(strs, ',');
    assert Split(EncodeLayoutIds(ids), ',') == strs;
    forall t ensures t in SplitAndTrim(EncodeLayoutIds(ids), ',') <==>
      exists k :: 0 <= k < |ids| && t == LongToString(ids[k])
    {
      if exists k :: 0 <= k < |ids| && t == LongToString(ids[k]) {
        var k :| 0 <= k < |ids| && t == LongToString(ids[k]);
        assert t == Trim(strs[k]);
      }
    }
  }

  /** On a parameter written from a list of ids, the layout check asks
      exactly whether one of the requested ids is still a layout of the
      index plan. */
  lemma {:induction false} LayoutCheckOnEncodedParam(job: Executable, indexPlans: map<string, IndexPlan>, requested: seq<int>)
    requires requested != []
    requires job.LayoutIds() == EncodeLayoutIds(requested)
    requires job.targetModel in indexPlans
    ensures job.CheckAnyLayoutExists(indexPlans) ==
      Ok(exists k, j :: 0 <= k < |requested| && 0 <= j < |indexPlans[job.targetModel].allLayoutIds| &&
                        requested[k] == indexPlans[job.targetModel].allLayoutIds[j])
  {
    var ids := indexPlans[job.targetModel].allLayoutIds;
    var tokens := job.RequestedLayoutTokens();
    EncodedLayoutTokens(requested);
    var r := job.CheckAnyLayoutExists(indexPlans);
    if r.value {
      var i, j :| 0 <= i < |tokens| && 0 <= j < |ids| && tokens[i] == LongToString(ids[j]);
      assert tokens[i] in tokens;
      var k :| 0 <= k < |requested| && tokens[i] == LongToString(requested[k]);
      LongToStringInjective(requested[k], ids[j]);
    }
    if exists k, j :: 0 <= k < |requested| && 0 <= j < |ids| && requested[k] == ids[j] {
      var k, j :| 0 <= k < |requested| && 0 <= j < |ids| && requested[k] == ids[j];
      var t := LongToString(requested[k]);
      assert t in tokens;
      var i :| 0 <= i < |tokens| && tokens[i] == t;
    }
  }

  /** A parameter made only of blanks and commas is not empty, so it still
      constrains the job, but it names no layout at all: the check fails. */
  lemma BlankLayoutParamMatchesNothing(job: Executable, indexPlans: map<string, IndexPlan>)
    requires job.LayoutIds() != []
    requires forall c :: c in job.LayoutIds() ==> IsBlank(c) || c == ','
    requires job.targetModel in indexPlans
    ensures job.CheckAnyLayoutExists(indexPlans) == Ok(false)
  {
    var pieces := Split(job.LayoutIds(), ',');
    SplitKeepsCharacters(job.LayoutIds(), ',');
    forall k | 0 <= k < |pieces| ensures Trim(pieces[k]) == [] {
      forall i | 0 <= i < |pieces[k]| ensures IsBlank(pieces[k][i]) {
        assert pieces[k][i] in pieces[k];
      }
    }
  }

  /** "10,20,30" against an index plan with layouts 20 and 99: layout 20
      still exists, so the check passes. */
  lemma LayoutExample(job: Executable, indexPlans: map<string, IndexPlan>)
    requires job.params == map[LayoutIdsParam := "10,20,30"]
    requires job.targetModel in indexPlans && indexPlans[job.targetModel] == IndexPlan([20, 99])
    ensures job.CheckAnyLayoutExists(indexPlans) == Ok(true)
  {
    var requested := [10, 20, 30];
    assert LongToString(10) == "10" && LongToString(20) == "20" && LongToString(30) == "30";
    var strs := seq(|requested|, k requires 0 <= k < |requested| => LongToString(requested[k]));
    assert strs == ["10", "20", "30"];
    assert Join(strs[2..], ',') == "30";
    assert Join(strs[1..], ',') == "20" + [','] + "30";
    assert EncodeLayoutIds(requested) == "10" + [','] + ("20" + [','] + "30") == "10,20,30";
    LayoutCheckOnEncodedParam(job, indexPlans, requested);
    assert requested[1] == indexPlans[job.targetModel].allLayoutIds[0];
  }

  /** A parameter whose comma-separated pieces are decimal ids with blanks
      around them reads back as exactly those ids. */
  lemma {:induction false} PaddedLayoutTokens(pieces: seq<string>, ids: seq<int>)
    requires |pieces| == |ids| >= 1
    requires forall k :: 0 <= k < |pieces| ==> ',' !in pieces[k] && Trim(pieces[k]) == LongToString(ids[k])
    ensures forall t :: t in SplitAndTrim(Join(pieces, ','), ',') <==>
      exists k :: 0 <= k < |ids| && t == LongToString(ids[k])
  {
    SplitJoin(pieces, ',');
    forall t ensures t in SplitAndTrim(Join(pieces, ','), ',') <==>
      exists k :: 0 <= k < |ids| && t == LongToString(ids[k])
    {
      if exists k :: 0 <= k < |ids| && t == LongToString(ids[k]) {
        var k :| 0 <= k < |ids| && t == LongToString(ids[k]);
        assert t == Trim(pieces[k]);
      }
    }
  }

  /** The tokens of two ids written with a blank after the comma, as in
      "10, 20", are the two decimal ids. */
  lemma TokensWithBlankAfterComma(a: int, b: int)
    ensures SplitAndTrim(LongToString(a) + [',', ' '] + LongToString(b), ',') == [LongToString(a), LongToString(b)]
  {
    var first, second := LongToString(a), LongToString(b);
    var pieces := [first, [' '] + second];
    TrimLeadingBlank(second);
    assert Join(pieces, ',') == first + [',', ' '] + second;
    SplitJoin(pieces, ',');
    assert Trim(first) == first;
    assert pieces[1..][1..] == [];
    assert NonEmptyTrimmed(pieces[1..]) == [second];
    assert NonEmptyTrimmed(pieces) == [first] + [second];
  }

  /** A blank after the comma does not hide the second id: when it is a
      layout of the plan, the check passes. */
  lemma BlankAfterCommaIsTrimmed(job: Executable, indexPlans: map<string, IndexPlan>, a: int, b: int)
    requires job.LayoutIds() == LongToString(a) + [',', ' '] + LongToString(b)
    requires job.targetModel in indexPlans && b in indexPlans[job.targetModel].allLayoutIds
    ensures job.CheckAnyLayoutExists(indexPlans) == Ok(true)
  {
    TokensWithBlankAfterComma(a, b);
    var tokens := job.RequestedLayoutTokens();
    var ids := indexPlans[job.targetModel].allLayoutIds;
    var j :| 0 <= j < |ids| && ids[j] == b;
    assert tokens[1] == LongToString(ids[j]);
  }

  // ----- parent and child -----

  /** A step of a top-level job decides target existence and cutting in
      exactly as that job does, provided it works on the same model with the
      same recorded partitions: the step always takes its parent's segment
      list, but reads its own model and partition map. */
  lemma ChildDefersToParent(job: Executable, dataflows: map<string, Dataflow>, countCuttingIn: (string, string) -> int)
    requires job.parent != null && job.parent.parent == null
    requires job.targetModel == job.parent.targetModel
    requires job.partitionsBySegment == job.parent.partitionsBySegment
    ensures job.CheckAnyTargetSegmentAndPartitionExists(dataflows) ==
            job.parent.CheckAnyTargetSegmentAndPartitionExists(dataflows)
    ensures job.CheckCuttingInJobByModel(countCuttingIn) == job.parent.CheckCuttingInJobByModel(countCuttingIn)
  {
  }

  // ----- lag behind -----

  /** Marking twice leaves the store as marking once. */
  lemma MarkedLagBehindIdempotent(dataflows: map<string, Dataflow>, modelId: string)
    ensures MarkedLagBehind(MarkedLagBehind(dataflows, modelId), modelId) == MarkedLagBehind(dataflows, modelId)
  {
  }

  /** The store changes exactly when the model's dataflow exists, is not yet
      lag-behind, and its model is not model-based; it then becomes lag-behind. */
  lemma MarkedLagBehindChangesIff(dataflows: map<string, Dataflow>, modelId: string)
    ensures MarkedLagBehind(dataflows, modelId) != dataflows <==>
      modelId in dataflows && dataflows[modelId].status != LagBehind &&
      dataflows[modelId].model.managementType != ModelBased
    ensures modelId in dataflows && dataflows[modelId].model.managementType != ModelBased ==>
      MarkedLagBehind(dataflows, modelId)[modelId].status == LagBehind
  {
  }
}
