/** The CustomPartitionVertex object: its fields, the callbacks Tez makes on
    it, and what they do to its state. Each callback is specified by a step
    function on a snapshot of the fields; the methods of the class do the
    work the way the Java code does and are proved to end in the state the
    step function gives. */
module Manager {
  import opened Common
  import opened Bytes
  import opened Splits
  import opened Multimaps
  import opened Classification
  import opened BucketMapping
  import opened Routing
  import opened Vertex

  // ---------------------------------------------------------------------
  // The state

  /** The mutable fields of the vertex manager, and the calls it has made on
      its Tez context so far. */
  datatype ManagerState = ManagerState(
    taskCount: int,
    bucketToTaskMap: TaskMap,
    finalSplits: seq<InputSplit>,
    inputToGroupedSplitMap: Queue,
    inputNameInputSpecMap: map<string, seq<int>>,
    numInputsSeenSoFar: int,
    calls: seq<ContextCall>)

  /** The state after initialize(): every collection empty. */
  function Initial(): ManagerState
  {
    ManagerState(0, [], [], [], map[], 0, [])
  }

  /** The routing table is valid, the pending splits are grouped splits, and
      the queue holds each side input's name at most once. */
  ghost predicate RoutingOk(conf: VertexConf, s: ManagerState)
  {
    Routed(s.bucketToTaskMap, s.taskCount, conf.numBuckets, s.finalSplits)
    && DistinctNames(s.inputToGroupedSplitMap)
  }

  /** Between callbacks: the routing table is valid; side inputs wait in the
      queue only in an SMB join and only while the main input has no spec;
      the parallelism was set at most once, and only once all inputs were
      seen. */
  ghost predicate ValidState(conf: VertexConf, s: ManagerState)
  {
    && RoutingOk(conf, s)
    && (s.inputToGroupedSplitMap != [] ==> IsSmbJoin(conf) && conf.mainWorkName !in s.inputNameInputSpecMap)
    && ParallelismCalls(s.calls) <= 1
    && (ParallelismCalls(s.calls) == 1 ==> s.numInputsSeenSoFar >= conf.numInputs)
  }

  // ---------------------------------------------------------------------
  // The steps

  /** setVertexParallelismAndRootInputSpec (lines 470-487): only once all
      inputs were seen, the parallelism is set to taskCount with the pending
      splits as location hints and the specs gathered so far; the pending
      splits are then dropped. */
  function SetParallelismStep(conf: VertexConf, s: ManagerState): ManagerState
  {
    if conf.numInputs != s.numInputsSeenSoFar then s
    else
      s.(calls := s.calls + [SetVertexParallelism(s.taskCount, s.finalSplits, s.inputNameInputSpecMap)],
         finalSplits := [])
  }

  /** sendBucketIdsToProcessor (lines 454-468). */
  function SendBucketIdsStep(conf: VertexConf, s: ManagerState): ManagerState
    requires Int32Keys(s.bucketToTaskMap)
  {
    s.(calls := s.calls + ToProcessor(BucketIdEvents(s.bucketToTaskMap, conf.numBuckets)))
  }

  /** processAllSideEvents (lines 311-355). */
  function SideEventsStep(s: ManagerState, inputName: string, grouped: GroupedMap): ManagerState
    requires TasksBelow(s.bucketToTaskMap, s.taskCount) && s.taskCount >= 0
  {
    s.(inputNameInputSpecMap := s.inputNameInputSpecMap[inputName := SideCounts(grouped, s.bucketToTaskMap, s.taskCount)],
       calls := s.calls + [AddRootInputEvents(inputName, SideEvents(grouped, s.bucketToTaskMap))])
  }

  /** The queue drain of processAllEvents (lines 436-440): every queued side
      input is dispatched in turn. */
  function DrainStep(s: ManagerState): ManagerState
    requires TasksBelow(s.bucketToTaskMap, s.taskCount) && s.taskCount >= 0
  {
    s.(inputNameInputSpecMap := SideSpecs(s.inputNameInputSpecMap, s.inputToGroupedSplitMap, s.bucketToTaskMap, s.taskCount),
       calls := s.calls + SideCalls(s.inputToGroupedSplitMap, s.bucketToTaskMap))
  }

  /** processAllSideEventsSetParallelism (lines 297-309): without the main
      input's spec the side input is queued; otherwise it is dispatched and
      the parallelism is set if all inputs were seen. */
  function SideInputStep(conf: VertexConf, s: ManagerState, inputName: string, grouped: GroupedMap): ManagerState
    requires RoutingOk(conf, s)
  {
    if conf.mainWorkName !in s.inputNameInputSpecMap then
      s.(inputToGroupedSplitMap := QueuePut(s.inputToGroupedSplitMap, inputName, grouped))
    else
      SetParallelismStep(conf, SideEventsStep(s, inputName, grouped))
  }

  /** The routing-table part of processAllEvents (lines 361-384). */
  function RouteStep(s: ManagerState, inputName: string, grouped: GroupedMap, secondLevel: bool): ManagerState
    requires AllGrouped(Values(grouped))
  {
    s.(bucketToTaskMap := AssignTasks(s.bucketToTaskMap, grouped, s.taskCount),
       taskCount := s.taskCount + |Values(grouped)|,
       finalSplits := s.finalSplits + Values(grouped),
       inputNameInputSpecMap := s.inputNameInputSpecMap[inputName := Widths(Values(grouped), secondLevel)])
  }

  /** Routing keeps the routing table valid. */
  lemma RouteStepRouted(conf: VertexConf, s: ManagerState, inputName: string, grouped: GroupedMap, secondLevel: bool)
    requires RoutingOk(conf, s)
    requires Wf(grouped) && KeysInRange(grouped, conf.numBuckets) && AllGrouped(Values(grouped))
    ensures RoutingOk(conf, RouteStep(s, inputName, grouped, secondLevel))
  {
    var r := RouteStep(s, inputName, grouped, secondLevel);
    RoutedAfterAssign(s.bucketToTaskMap, s.taskCount, conf.numBuckets, s.finalSplits, grouped,
                      r.bucketToTaskMap, r.taskCount, r.finalSplits);
  }

  /** The queue drain, the parallelism and the emptied queue (lines
      436-442). */
  function DrainAndSet(conf: VertexConf, s: ManagerState): ManagerState
    requires RoutingOk(conf, s)
  {
    if s.inputToGroupedSplitMap == [] then s
    else SetParallelismStep(conf, DrainStep(s)).(inputToGroupedSplitMap := [])
  }

  /** The bucket map join case (lines 445-450): the parallelism is set and
      the bucket ids are sent. */
  function BucketMapJoinStep(conf: VertexConf, s: ManagerState): ManagerState
    requires RoutingOk(conf, s)
  {
    if conf.numInputs != 1 then s
    else SendBucketIdsStep(conf, SetParallelismStep(conf, s))
  }

  /** processAllEvents (lines 357-452) for the main input. */
  function MainInputStep(conf: VertexConf, s: ManagerState, inputName: string, grouped: GroupedMap, secondLevel: bool): (Outcome, ManagerState)
    requires RoutingOk(conf, s)
    requires Wf(grouped) && KeysInRange(grouped, conf.numBuckets) && AllGrouped(Values(grouped))
  {
    var routed := RouteStep(s, inputName, grouped, secondLevel);
    RouteStepRouted(conf, s, inputName, grouped, secondLevel);
    match MainEvents(routed.finalSplits, secondLevel)
    case Err(e) => (Fail(e), routed)
    case Ok(evs) =>
      var added := routed.(calls := routed.calls + [AddRootInputEvents(inputName, evs)]);
      (Pass, BucketMapJoinStep(conf, DrainAndSet(conf, added)))
  }

  /** The grouped map of one root input (lines 243-291): the main work's
      buckets are grouped across files and, with a main work name,
      regrouped; a side input's buckets are grouped within files. */
  function GroupedSplits(conf: VertexConf, grouper: Grouper, inputName: string, initial: Multimap<HiveSplit>): (r: GroupedMap)
    requires KeysInRange(initial, conf.numBuckets)
    ensures Wf(r) && KeysInRange(r, conf.numBuckets) && AllGrouped(Values(r))
  {
    var main := IsMainWork(conf, inputName);
    var across := main && conf.mainWorkName == [];
    var regroup := main && conf.mainWorkName != [];
    GroupingKeysInRange(grouper, inputName, initial, across, regroup, conf.numBuckets);
    GroupingWf(grouper, inputName, initial, across, regroup);
    Grouping(grouper, inputName, initial, across, regroup)
  }

  /** onRootVertexInitialized (lines 154-295): one call per root input. */
  function RootInputStep(conf: VertexConf, grouper: Grouper, s: ManagerState, inputName: string, events: seq<Event>): (Outcome, ManagerState)
    requires RoutingOk(conf, s)
  {
    var seen := s.(numInputsSeenSoFar := s.numInputsSeenSoFar + 1);
    match InitialSplits(conf, inputName, events)
    case Err(e) => (Fail(e), seen)
    case Ok(initial) =>
      DispatchStep(conf, seen, inputName, GroupedSplits(conf, grouper, inputName, initial),
                   conf.mainWorkName != [] && initial != [])
  }

  /** Lines 283-291: the main input goes to processAllEvents, a side input
      to processAllSideEventsSetParallelism. */
  function DispatchStep(conf: VertexConf, s: ManagerState, inputName: string, grouped: GroupedMap, secondLevel: bool): (Outcome, ManagerState)
    requires RoutingOk(conf, s)
    requires Wf(grouped) && KeysInRange(grouped, conf.numBuckets) && AllGrouped(Values(grouped))
  {
    if IsMainWork(conf, inputName) then MainInputStep(conf, s, inputName, grouped, secondLevel)
    else (Pass, SideInputStep(conf, s, inputName, grouped))
  }

  // ---------------------------------------------------------------------
  // The invariant

  /** The gate of setVertexParallelismAndRootInputSpec will not open a
      second time. */
  ghost predicate SettingPending(conf: VertexConf, s: ManagerState)
  {
    ParallelismCalls(s.calls) == 0 || s.numInputsSeenSoFar != conf.numInputs
  }

  /** Calls other than setVertexParallelism leave the count unchanged. */
  lemma NoSettingCalls(a: seq<ContextCall>, b: seq<ContextCall>)
    requires forall i :: 0 <= i < |b| ==> !b[i].SetVertexParallelism?
    ensures ParallelismCalls(a + b) == ParallelismCalls(a)
  {
    ParallelismCallsConcat(a, b);
    NoSettingIn(b);
  }

  /** The parallelism is set exactly when the gate is open, and then the
      pending splits are dropped; with the gate shut nothing changes. */
  lemma SetParallelismCount(conf: VertexConf, s: ManagerState)
    ensures ParallelismCalls(SetParallelismStep(conf, s).calls)
            == ParallelismCalls(s.calls) + if conf.numInputs == s.numInputsSeenSoFar then 1 else 0
    ensures SetParallelismStep(conf, s).numInputsSeenSoFar == s.numInputsSeenSoFar
    ensures conf.numInputs == s.numInputsSeenSoFar ==> SetParallelismStep(conf, s).finalSplits == []
    ensures conf.numInputs != s.numInputsSeenSoFar ==> SetParallelismStep(conf, s) == s
  {
    if conf.numInputs == s.numInputsSeenSoFar {
      var c := SetVertexParallelism(s.taskCount, s.finalSplits, s.inputNameInputSpecMap);
      ParallelismCallsConcat(s.calls, [c]);
      assert [c][..0] == [];
    }
  }

  /** Dispatching side inputs and sending bucket ids never set the
      parallelism. */
  lemma DispatchCount(conf: VertexConf, s: ManagerState, inputName: string, grouped: GroupedMap)
    requires RoutingOk(conf, s)
    ensures ParallelismCalls(SideEventsStep(s, inputName, grouped).calls) == ParallelismCalls(s.calls)
    ensures ParallelismCalls(DrainStep(s).calls) == ParallelismCalls(s.calls)
    ensures ParallelismCalls(SendBucketIdsStep(conf, s).calls) == ParallelismCalls(s.calls)
  {
    NoSettingCalls(s.calls, [AddRootInputEvents(inputName, SideEvents(grouped, s.bucketToTaskMap))]);
    SideCallsAddEvents(s.inputToGroupedSplitMap, s.bucketToTaskMap);
    NoSettingCalls(s.calls, SideCalls(s.inputToGroupedSplitMap, s.bucketToTaskMap));
    NoSettingCalls(s.calls, ToProcessor(BucketIdEvents(s.bucketToTaskMap, conf.numBuckets)));
  }

  /** A side input keeps the invariant. */
  lemma SideInputKeepsValid(conf: VertexConf, s: ManagerState, inputName: string, grouped: GroupedMap)
    requires RoutingOk(conf, s)
    ensures RoutingOk(conf, SideInputStep(conf, s, inputName, grouped))
    ensures ValidState(conf, s) && SettingPending(conf, s) && IsSmbJoin(conf) ==>
              ValidState(conf, SideInputStep(conf, s, inputName, grouped))
  {
    if conf.mainWorkName in s.inputNameInputSpecMap {
      DispatchCount(conf, s, inputName, grouped);
      SetParallelismCount(conf, SideEventsStep(s, inputName, grouped));
    }
  }

  /** Dispatching queued side inputs only adds specs. */
  lemma {:induction false} SideSpecsKeys(specs: map<string, seq<int>>, q: Queue, btt: TaskMap, taskCount: nat)
    requires TasksBelow(btt, taskCount)
    ensures specs.Keys <= SideSpecs(specs, q, btt, taskCount).Keys
  {
    if q != [] {
      SideSpecsKeys(specs, q[..|q| - 1], btt, taskCount);
    }
  }

  /** Draining the queue empties it, keeps every spec, and sets the
      parallelism only when the queue held something and all inputs were
      seen. */
  lemma DrainAndSetCount(conf: VertexConf, s: ManagerState)
    requires RoutingOk(conf, s)
    ensures RoutingOk(conf, DrainAndSet(conf, s))
    ensures DrainAndSet(conf, s).inputToGroupedSplitMap == []
    ensures DrainAndSet(conf, s).numInputsSeenSoFar == s.numInputsSeenSoFar
    ensures s.inputNameInputSpecMap.Keys <= DrainAndSet(conf, s).inputNameInputSpecMap.Keys
    ensures ParallelismCalls(DrainAndSet(conf, s).calls) == ParallelismCalls(s.calls)
              + if s.inputToGroupedSplitMap != [] && conf.numInputs == s.numInputsSeenSoFar then 1 else 0
  {
    if s.inputToGroupedSplitMap != [] {
      DispatchCount(conf, s, [], []);
      SetParallelismCount(conf, DrainStep(s));
      SideSpecsKeys(s.inputNameInputSpecMap, s.inputToGroupedSplitMap, s.bucketToTaskMap, s.taskCount);
    }
  }

  /** The bucket map join step sets the parallelism only with a single input
      that has been seen. */
  lemma BucketMapJoinCount(conf: VertexConf, s: ManagerState)
    requires RoutingOk(conf, s)
    ensures RoutingOk(conf, BucketMapJoinStep(conf, s))
    ensures BucketMapJoinStep(conf, s).inputToGroupedSplitMap == s.inputToGroupedSplitMap
    ensures BucketMapJoinStep(conf, s).numInputsSeenSoFar == s.numInputsSeenSoFar
    ensures BucketMapJoinStep(conf, s).inputNameInputSpecMap == s.inputNameInputSpecMap
    ensures ParallelismCalls(BucketMapJoinStep(conf, s).calls) == ParallelismCalls(s.calls)
              + if conf.numInputs == 1 && s.numInputsSeenSoFar == 1 then 1 else 0
  {
    if conf.numInputs == 1 {
      SetParallelismCount(conf, s);
      DispatchCount(conf, SetParallelismStep(conf, s), [], []);
    }
  }

  /** In a bucket map join the parallelism is set before any bucket id is
      sent: the step appends one setVertexParallelism call carrying the
      task count, the pending splits and the specs, then one processor
      event per task of the routing table; the pending splits are gone. */
  lemma BucketIdsAfterParallelism(conf: VertexConf, s: ManagerState)
    requires RoutingOk(conf, s) && conf.numInputs == 1 && s.numInputsSeenSoFar == 1
    ensures |Values(s.bucketToTaskMap)| == s.taskCount
    ensures var r := BucketMapJoinStep(conf, s);
      && |r.calls| == |s.calls| + 1 + s.taskCount
      && r.calls[..|s.calls|] == s.calls
      && r.calls[|s.calls|] == SetVertexParallelism(s.taskCount, s.finalSplits, s.inputNameInputSpecMap)
      && (forall i :: |s.calls| < i < |r.calls| ==>
            r.calls[i].SendEventToProcessor? && r.calls[i].event.task == Values(s.bucketToTaskMap)[i - |s.calls| - 1])
      && r.finalSplits == []
  {
    var btt := s.bucketToTaskMap;
    assert |multiset(Values(btt))| == |multiset(Range(0, s.taskCount))|;
    var sends := ToProcessor(BucketIdEvents(btt, conf.numBuckets));
    var r := BucketMapJoinStep(conf, s);
    assert r.calls == s.calls + [SetVertexParallelism(s.taskCount, s.finalSplits, s.inputNameInputSpecMap)] + sends;
    BucketIdEventsTasks(btt, conf.numBuckets);
    forall i | |s.calls| < i < |r.calls|
      ensures r.calls[i].SendEventToProcessor? && r.calls[i].event.task == Values(btt)[i - |s.calls| - 1]
    {
      assert r.calls[i] == sends[i - |s.calls| - 1];
    }
  }

  /** The main input keeps the routing table valid, and when it succeeds it
      keeps the invariant: the queue is empty afterwards and the parallelism
      was set at most once. */
  lemma MainInputKeepsValid(conf: VertexConf, s: ManagerState, inputName: string, grouped: GroupedMap, secondLevel: bool)
    requires RoutingOk(conf, s)
    requires Wf(grouped) && KeysInRange(grouped, conf.numBuckets) && AllGrouped(Values(grouped))
    ensures RoutingOk(conf, MainInputStep(conf, s, inputName, grouped, secondLevel).1)
    ensures ValidState(conf, s) && SettingPending(conf, s) && MainInputStep(conf, s, inputName, grouped, secondLevel).0.Pass? ==>
              ValidState(conf, MainInputStep(conf, s, inputName, grouped, secondLevel).1)
  {
    var routed := RouteStep(s, inputName, grouped, secondLevel);
    RouteStepRouted(conf, s, inputName, grouped, secondLevel);
    match MainEvents(routed.finalSplits, secondLevel)
    case Err(e) =>
    case Ok(evs) =>
      var added := routed.(calls := routed.calls + [AddRootInputEvents(inputName, evs)]);
      NoSettingCalls(routed.calls, [AddRootInputEvents(inputName, evs)]);
      DrainAndSetCount(conf, added);
      BucketMapJoinCount(conf, DrainAndSet(conf, added));
  }

  /** A callback is its failure, or the dispatch of its grouped splits;
      a side input that gets that far is part of an SMB join. */
  lemma RootStepDispatches(conf: VertexConf, grouper: Grouper, s: ManagerState, inputName: string, events: seq<Event>)
    returns (seen: ManagerState, grouped: GroupedMap, secondLevel: bool)
    requires RoutingOk(conf, s)
    ensures seen == s.(numInputsSeenSoFar := s.numInputsSeenSoFar + 1)
    ensures Wf(grouped) && KeysInRange(grouped, conf.numBuckets) && AllGrouped(Values(grouped))
    ensures InitialSplits(conf, inputName, events).Err? ==>
              RootInputStep(conf, grouper, s, inputName, events) == (Fail(InitialSplits(conf, inputName, events).error), seen)
    ensures InitialSplits(conf, inputName, events).Ok? ==>
              && RootInputStep(conf, grouper, s, inputName, events) == DispatchStep(conf, seen, inputName, grouped, secondLevel)
              && (IsMainWork(conf, inputName) || IsSmbJoin(conf))
              && grouped == GroupedSplits(conf, grouper, inputName, InitialSplits(conf, inputName, events).value)
              && secondLevel == (conf.mainWorkName != [] && InitialSplits(conf, inputName, events).value != [])
  {
    seen := s.(numInputsSeenSoFar := s.numInputsSeenSoFar + 1);
    match InitialSplits(conf, inputName, events)
    case Err(e) =>
      grouped, secondLevel := [], false;
    case Ok(initial) =>
      grouped := GroupedSplits(conf, grouper, inputName, initial);
      secondLevel := conf.mainWorkName != [] && initial != [];
      if !IsMainWork(conf, inputName) {
        assert BucketSplitMap(conf, inputName, Classify(events).value.table).Ok?;
      }
  }

  /** A root input keeps the routing table valid, and when it succeeds it
      keeps the invariant. */
  lemma RootInputKeepsValid(conf: VertexConf, grouper: Grouper, s: ManagerState, inputName: string, events: seq<Event>)
    requires RoutingOk(conf, s)
    ensures RoutingOk(conf, RootInputStep(conf, grouper, s, inputName, events).1)
    ensures ValidState(conf, s) && RootInputStep(conf, grouper, s, inputName, events).0.Pass? ==>
              ValidState(conf, RootInputStep(conf, grouper, s, inputName, events).1)
  {
    var seen, grouped, secondLevel := RootStepDispatches(conf, grouper, s, inputName, events);
    assert RoutingOk(conf, seen);
    assert ValidState(conf, s) ==> ValidState(conf, seen) && SettingPending(conf, seen);
    if InitialSplits(conf, inputName, events).Ok? {
      if IsMainWork(conf, inputName) {
        MainInputKeepsValid(conf, seen, inputName, grouped, secondLevel);
      } else {
        SideInputKeepsValid(conf, seen, inputName, grouped);
      }
    }
  }

  /** The loops of sendBucketIdsToProcessor (lines 454-468): for every
      bucket, in table order, and every task of that bucket, one processor
      event carrying numBuckets and the bucket number. */
  method BucketIdSends(btt: TaskMap, numBuckets: int32) returns (sends: seq<ContextCall>)
    requires Int32Keys(btt)
    ensures sends == ToProcessor(BucketIdEvents(btt, numBuckets))
  {
    sends := [];
    var i := 0;
    while i < |btt|
      invariant 0 <= i <= |btt| && Int32Keys(btt[..i])
      invariant sends == ToProcessor(BucketIdEvents(btt[..i], numBuckets))
    {
      var bucketNum := btt[i].key as int32;
      var tasks := btt[i].values;
      ghost var prefix := BucketIdEvents(btt[..i], numBuckets);
      var j := 0;
      while j < |tasks|
        invariant 0 <= j <= |tasks|
        invariant sends == ToProcessor(prefix + seq(j, k requires 0 <= k < j => ProcessorEvent(tasks[k], BucketPayload(numBuckets, bucketNum))))
      {
        var buffer := EncodeInt32(numBuckets) + EncodeInt32(bucketNum);
        sends := sends + [SendEventToProcessor(ProcessorEvent(tasks[j], buffer))];
        BucketEventsSnoc(prefix, tasks, j, BucketPayload(numBuckets, bucketNum));
        j := j + 1;
      }
      assert btt[..i + 1][..i] == btt[..i];
      assert seq(j, k requires 0 <= k < j => ProcessorEvent(tasks[k], BucketPayload(numBuckets, bucketNum)))
          == seq(|tasks|, k requires 0 <= k < |tasks| => ProcessorEvent(tasks[k], BucketPayload(numBuckets, bucketNum)));
      i := i + 1;
    }
    assert btt[..i] == btt;
  }

  /** Lines 189-230 of onRootVertexInitialized: the events sorted into
      buckets, the initial map bucket -> splits, and its range check. */
  method BuildInitialMap(conf: VertexConf, inputName: string, events: seq<Event>) returns (r: Result<Multimap<HiveSplit>>)
    ensures r == InitialSplits(conf, inputName, events)
  {
    var classified := ClassifyEvents(events);
    if classified.Err? {
      return Err(classified.error);
    }
    var initial := BucketSplitMap(conf, inputName, classified.value.table);
    if initial.Err? {
      return Err(initial.error);
    }
    if !KeysInRange(initial.value, conf.numBuckets) {
      return Err(BucketRangeViolation);
    }
    r := initial;
  }

  // ---------------------------------------------------------------------
  // The vertex manager

  class CustomPartitionVertex {
    const conf: VertexConf
    const grouper: Grouper

    var taskCount: int
    var bucketToTaskMap: TaskMap
    var finalSplits: seq<InputSplit>
    var inputToGroupedSplitMap: Queue
    var inputNameInputSpecMap: map<string, seq<int>>
    var numInputsSeenSoFar: int
    /** The calls made on the Tez context so far, oldest first. */
    var calls: seq<ContextCall>

    ghost function State(): ManagerState
      reads this
    {
      ManagerState(taskCount, bucketToTaskMap, finalSplits, inputToGroupedSplitMap,
                   inputNameInputSpecMap, numInputsSeenSoFar, calls)
    }

    ghost predicate Valid()
      reads this
    {
      ValidState(conf, State())
    }

    /** The constructor together with initialize() (lines 110-131): the
        configuration read from the user payload, every collection empty. */
    constructor (conf: VertexConf, grouper: Grouper)
      ensures this.conf == conf && this.grouper == grouper
      ensures State() == Initial()
      ensures Valid()
    {
      this.conf := conf;
      this.grouper := grouper;
      taskCount := 0;
      bucketToTaskMap := [];
      finalSplits := [];
      inputToGroupedSplitMap := [];
      inputNameInputSpecMap := map[];
      numInputsSeenSoFar := 0;
      calls := [];
    }

    /** onRootVertexInitialized (lines 154-295). */
    method OnRootVertexInitialized(inputName: string, events: seq<Event>) returns (o: Outcome)
      requires Valid()
      modifies this
      ensures (o, State()) == RootInputStep(conf, grouper, old(State()), inputName, events)
      ensures o.Pass? ==> Valid()
    {
      ghost var s0 := State();
      numInputsSeenSoFar := numInputsSeenSoFar + 1;

      var initial := BuildInitialMap(conf, inputName, events);
      if initial.Err? {
        return Fail(initial.error);
      }
      var main := IsMainWork(conf, inputName);
      var grouped := GroupBuckets(grouper, inputName, initial.value, main && conf.mainWorkName == [], main && conf.mainWorkName != []);
      assert grouped == GroupedSplits(conf, grouper, inputName, initial.value);
      var secondLevel := conf.mainWorkName != [] && initial.value != [];
      if IsMainWork(conf, inputName) {
        o := ProcessAllEvents(inputName, grouped, secondLevel);
      } else {
        ProcessAllSideEventsSetParallelism(inputName, grouped);
        o := Pass;
      }
      RootInputKeepsValid(conf, grouper, s0, inputName, events);
    }

    /** processAllSideEventsSetParallelism (lines 297-309). */
    method ProcessAllSideEventsSetParallelism(inputName: string, grouped: GroupedMap)
      requires RoutingOk(conf, State())
      modifies this
      ensures State() == SideInputStep(conf, old(State()), inputName, grouped)
    {
      if conf.mainWorkName !in inputNameInputSpecMap {
        inputToGroupedSplitMap := QueuePut(inputToGroupedSplitMap, inputName, grouped);
        return;
      }
      ProcessAllSideEvents(inputName, grouped);
      SetVertexParallelismAndRootInputSpec();
    }

    /** processAllSideEvents (lines 311-355): every split of a bucket is
        sent, numbered from 1, to every task of that bucket, and the per-task
        counts become the input's spec. */
    method ProcessAllSideEvents(inputName: string, grouped: GroupedMap)
      requires RoutingOk(conf, State())
      modifies this
      ensures State() == SideEventsStep(old(State()), inputName, grouped)
      ensures RoutingOk(conf, State())
    {
      var counts, taskEvents := DispatchSideSplits(grouped, bucketToTaskMap, taskCount);
      inputNameInputSpecMap := inputNameInputSpecMap[inputName := counts];
      calls := calls + [AddRootInputEvents(inputName, taskEvents)];
    }

    /** processAllEvents (lines 357-452). */
    method ProcessAllEvents(inputName: string, grouped: GroupedMap, secondLevel: bool) returns (o: Outcome)
      requires RoutingOk(conf, State())
      requires Wf(grouped) && KeysInRange(grouped, conf.numBuckets) && AllGrouped(Values(grouped))
      modifies this
      ensures (o, State()) == MainInputStep(conf, old(State()), inputName, grouped, secondLevel)
    {
      RouteMainInput(inputName, grouped, secondLevel);
      var taskEvents := MainInputEvents(finalSplits, secondLevel);
      if taskEvents.Err? {
        return Fail(taskEvents.error);
      }
      calls := calls + [AddRootInputEvents(inputName, taskEvents.value)];
      DrainSideInputs();
      FinishBucketMapJoin();
      o := Pass;
    }

    /** Lines 436-442: with side inputs waiting, they are dispatched, the
        parallelism is set if all inputs were seen, and the queue is
        emptied. */
    method DrainSideInputs()
      requires RoutingOk(conf, State())
      modifies this
      ensures State() == DrainAndSet(conf, old(State()))
      ensures RoutingOk(conf, State())
    {
      if inputToGroupedSplitMap != [] {
        DrainQueue();
        SetVertexParallelismAndRootInputSpec();
        inputToGroupedSplitMap := [];
      }
    }

    /** Lines 445-450: with a single input, the parallelism is set and the
        bucket ids are sent to the tasks. */
    method FinishBucketMapJoin()
      requires RoutingOk(conf, State())
      modifies this
      ensures State() == BucketMapJoinStep(conf, old(State()))
    {
      if conf.numInputs == 1 {
        SetVertexParallelismAndRootInputSpec();
        SendBucketIdsToProcessor();
      }
    }

    /** Lines 361-384: the routing table, finalSplits and the main input's
        spec. */
    method RouteMainInput(inputName: string, grouped: GroupedMap, secondLevel: bool)
      requires RoutingOk(conf, State())
      requires Wf(grouped) && KeysInRange(grouped, conf.numBuckets) && AllGrouped(Values(grouped))
      modifies this
      ensures State() == RouteStep(old(State()), inputName, grouped, secondLevel)
      ensures RoutingOk(conf, State())
    {
      RouteStepRouted(conf, State(), inputName, grouped, secondLevel);
      var btt, tc, added, numSplitsForTask := AssignTaskIndices(bucketToTaskMap, grouped, taskCount, secondLevel);
      bucketToTaskMap, taskCount, finalSplits := btt, tc, finalSplits + added;
      inputNameInputSpecMap := inputNameInputSpecMap[inputName := numSplitsForTask];
    }

    /** Lines 436-440: every queued side input is dispatched in turn. */
    method DrainQueue()
      requires RoutingOk(conf, State())
      modifies this
      ensures State() == DrainStep(old(State()))
      ensures RoutingOk(conf, State())
    {
      var side := inputToGroupedSplitMap;
      var k := 0;
      while k < |side|
        invariant 0 <= k <= |side|
        invariant RoutingOk(conf, State())
        invariant State() == DrainStep(old(State()).(inputToGroupedSplitMap := side[..k])).(inputToGroupedSplitMap := side)
      {
        assert side[..k + 1][..k] == side[..k];
        ProcessAllSideEvents(side[k].0, side[k].1);
        k := k + 1;
      }
      assert side[..k] == side;
    }

    /** setVertexParallelismAndRootInputSpec (lines 470-487). */
    method SetVertexParallelismAndRootInputSpec()
      modifies this
      ensures State() == SetParallelismStep(conf, old(State()))
    {
      if conf.numInputs != numInputsSeenSoFar {
        return;
      }
      calls := calls + [SetVertexParallelism(taskCount, finalSplits, inputNameInputSpecMap)];
      finalSplits := [];
    }

    /** sendBucketIdsToProcessor (lines 454-468): for every (bucket, task)
        pair of the routing table, the task is sent the 8 bytes numBuckets,
        bucket. */
    method SendBucketIdsToProcessor()
      requires Int32Keys(bucketToTaskMap)
      modifies this
      ensures State() == SendBucketIdsStep(conf, old(State()))
    {
      var sends := BucketIdSends(bucketToTaskMap, conf.numBuckets);
      calls := calls + sends;
    }
  }
}
