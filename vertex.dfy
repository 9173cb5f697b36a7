/** The vertex manager itself: the CustomPartitionVertex object, its fields,
    and the callbacks that classify a root input's splits, build the routing
    table from the main input, dispatch the side inputs and finally set the
    vertex parallelism. The Tez context it talks to is a log of calls. */
module Vertex {
  import opened Common
  import opened Bytes
  import opened Splits
  import opened Multimaps
  import opened Classification
  import opened BucketMapping
  import opened Routing

  // ---------------------------------------------------------------------
  // The environment

  /** The calls the manager makes on its VertexManagerPluginContext. */
  datatype ContextCall =
    | AddRootInputEvents(inputName: string, events: seq<DataEvent>)
    | SetVertexParallelism(parallelism: int, hintSplits: seq<InputSplit>, rootInputSpecs: map<string, seq<int>>)
    | SendEventToProcessor(event: ProcessorEvent)

  /** SplitGrouper: generateGroupedSplits(splits, groupAcrossFiles) and
      group(...), each returning the groups it formed; every group becomes
      one TezGroupedSplit. */
  datatype Grouper = Grouper(
    generate: (string, seq<InputSplit>, bool) -> seq<seq<InputSplit>>,
    regroup: seq<InputSplit> -> seq<seq<InputSplit>>)

  /** One TezGroupedSplit per group. */
  function Wrap(groups: seq<seq<InputSplit>>): (r: seq<InputSplit>)
    ensures |r| == |groups| && AllGrouped(r)
    ensures forall i :: 0 <= i < |r| ==> r[i].members == groups[i]
  {
    seq(|groups|, i requires 0 <= i < |groups| => Grouped(groups[i]))
  }

  function AsInputSplits(splits: seq<HiveSplit>): (r: seq<InputSplit>)
    ensures |r| == |splits|
  {
    seq(|splits|, i requires 0 <= i < |splits| => Hive(splits[i]))
  }

  /** The grouped splits of one bucket (lines 253-266 and 276-281): the
      grouper's groups, regrouped once more when second-level grouping is
      on. */
  function BucketGroups(grouper: Grouper, inputName: string, splits: seq<HiveSplit>, across: bool, secondLevel: bool): (r: seq<InputSplit>)
    ensures AllGrouped(r)
  {
    var first := Wrap(grouper.generate(inputName, AsInputSplits(splits), across));
    if secondLevel then Wrap(grouper.regroup(first)) else first
  }

  /** bucketToGroupedSplitMap: the loop over the buckets of the initial map,
      `putAll(key, groups)` for each. */
  function Grouping(grouper: Grouper, inputName: string, initial: Multimap<HiveSplit>, across: bool, secondLevel: bool): GroupedMap
  {
    if initial == [] then []
    else
      var n := |initial| - 1;
      PutAll(Grouping(grouper, inputName, initial[..n], across, secondLevel),
             initial[n].key, BucketGroups(grouper, inputName, initial[n].values, across, secondLevel))
  }

  /** The grouped map is a well-formed multimap of grouped splits. */
  lemma {:induction false} GroupingWf(grouper: Grouper, inputName: string, initial: Multimap<HiveSplit>, across: bool, secondLevel: bool)
    ensures Wf(Grouping(grouper, inputName, initial, across, secondLevel))
    ensures AllGrouped(Values(Grouping(grouper, inputName, initial, across, secondLevel)))
  {
    if initial != [] {
      var n := |initial| - 1;
      GroupingWf(grouper, inputName, initial[..n], across, secondLevel);
      var pre := Grouping(grouper, inputName, initial[..n], across, secondLevel);
      var groups := BucketGroups(grouper, inputName, initial[n].values, across, secondLevel);
      PutAllWf(pre, initial[n].key, groups);
      ValuesPutAll(pre, initial[n].key, groups);
      var r := PutAll(pre, initial[n].key, groups);
      assert r == Grouping(grouper, inputName, initial, across, secondLevel);
      forall i | 0 <= i < |Values(r)| ensures Values(r)[i].Grouped? {
        assert Values(r)[i] in multiset(Values(pre)) + multiset(groups);
      }
    }
  }


  /** Grouping keeps every bucket where it was: a bucket of the grouped map
      is a bucket of the initial map, and it holds the groups the grouper
      made of that bucket's splits. */
  lemma {:induction false} GroupingGet(grouper: Grouper, inputName: string, initial: Multimap<HiveSplit>, across: bool, secondLevel: bool, k: int)
    requires Wf(initial)
    ensures Keys(Grouping(grouper, inputName, initial, across, secondLevel)) <= Keys(initial)
    ensures Get(Grouping(grouper, inputName, initial, across, secondLevel), k) ==
              if k in Keys(initial) then BucketGroups(grouper, inputName, Get(initial, k), across, secondLevel) else []
  {
    if initial != [] {
      var n := |initial| - 1;
      var pre := initial[..n];
      WfPrefix(initial, n);
      var g := Grouping(grouper, inputName, pre, across, secondLevel);
      var groups := BucketGroups(grouper, inputName, initial[n].values, across, secondLevel);
      GroupingGet(grouper, inputName, pre, across, secondLevel, k);
      GroupingWf(grouper, inputName, pre, across, secondLevel);
      assert Grouping(grouper, inputName, initial, across, secondLevel) == PutAll(g, initial[n].key, groups);
      PutAllGet(g, initial[n].key, groups, k);
      PutAllKeys(g, initial[n].key, groups);
      GetSnoc(initial, k);
      KeysSnoc(initial);
      if initial[n].key == k {
        AbsentFromPrefix(initial);
        GetNonEmptyIffKey(pre, k);
      }
    }
  }

  /** One more bucket of the grouping loop. */
  lemma GroupingSnoc(grouper: Grouper, inputName: string, initial: Multimap<HiveSplit>, across: bool, secondLevel: bool, k: int)
    requires 0 <= k < |initial|
    ensures Grouping(grouper, inputName, initial[..k + 1], across, secondLevel) ==
              PutAll(Grouping(grouper, inputName, initial[..k], across, secondLevel),
                     initial[k].key, BucketGroups(grouper, inputName, initial[k].values, across, secondLevel))
  {
    assert initial[..k + 1][..k] == initial[..k];
  }

  /** The grouping loop of lines 247-268 and 276-281: each bucket's splits
      grouped, regrouped when second-level grouping is on, and put under the
      bucket. */
  method GroupBuckets(grouper: Grouper, inputName: string, initial: Multimap<HiveSplit>, across: bool, secondLevel: bool)
    returns (grouped: GroupedMap)
    ensures grouped == Grouping(grouper, inputName, initial, across, secondLevel)
  {
    grouped := [];
    var k := 0;
    while k < |initial|
      invariant 0 <= k <= |initial|
      invariant grouped == Grouping(grouper, inputName, initial[..k], across, secondLevel)
    {
      var groupedSplit := Wrap(grouper.generate(inputName, AsInputSplits(initial[k].values), across));
      if secondLevel {
        groupedSplit := Wrap(grouper.regroup(groupedSplit));
      }
      assert groupedSplit == BucketGroups(grouper, inputName, initial[k].values, across, secondLevel);
      GroupingSnoc(grouper, inputName, initial, across, secondLevel, k);
      grouped := PutAll(grouped, initial[k].key, groupedSplit);
      k := k + 1;
    }
    assert initial[..k] == initial;
  }

  /** The range check on the initial map carries over to the grouped map. */
  lemma {:induction false} GroupingKeysInRange(grouper: Grouper, inputName: string, initial: Multimap<HiveSplit>, across: bool, secondLevel: bool, numBuckets: int)
    requires KeysInRange(initial, numBuckets)
    ensures KeysInRange(Grouping(grouper, inputName, initial, across, secondLevel), numBuckets)
  {
    if initial != [] {
      var n := |initial| - 1;
      var pre := initial[..n];
      GroupingKeysInRange(grouper, inputName, pre, across, secondLevel, numBuckets);
      var g := Grouping(grouper, inputName, pre, across, secondLevel);
      var groups := BucketGroups(grouper, inputName, initial[n].values, across, secondLevel);
      var r := PutAll(g, initial[n].key, groups);
      forall i | 0 <= i < |r| ensures 0 <= r[i].key < numBuckets {
        PutAllEntry(g, initial[n].key, groups, i);
      }
    }
  }

  /** The event loop, getBucketSplitMapForBucket and the range check of
      lines 189-230: the initial map bucket -> splits of one root input. */
  function InitialSplits(conf: VertexConf, inputName: string, events: seq<Event>): (r: Result<Multimap<HiveSplit>>)
    ensures r.Ok? ==> Wf(r.value) && KeysInRange(r.value, conf.numBuckets)
  {
    match Classify(events)
    case Err(e) => Err(e)
    case Ok(st) =>
      match BucketSplitMap(conf, inputName, st.table)
      case Err(e) => Err(e)
      case Ok(m) => if KeysInRange(m, conf.numBuckets) then Ok(m) else Err(BucketRangeViolation)
  }

  /** inputToGroupedSplitMap: input name -> its grouped splits, waiting for
      the routing table. */
  type Queue = seq<(string, GroupedMap)>

  /** A HashMap holds each input name at most once. */
  predicate DistinctNames(q: Queue)
  {
    forall i, j :: 0 <= i < j < |q| ==> q[i].0 != q[j].0
  }

  /** HashMap.put: replaces the entry of the same name, else adds one. The
      iteration order of the HashMap is unspecified; the model keeps the
      order in which the names were first put. */
  function QueuePut(q: Queue, name: string, m: GroupedMap): (r: Queue)
    requires DistinctNames(q)
    ensures DistinctNames(r)
    ensures (name, m) in r
    ensures forall e :: e in r && e.0 == name ==> e == (name, m)
    ensures forall e :: e in r ==> e.0 == name || e in q
    ensures forall e :: e in q && e.0 != name ==> e in r
  {
    if q == [] then [(name, m)]
    else if q[0].0 == name then [(name, m)] + q[1..]
    else [q[0]] + QueuePut(q[1..], name, m)
  }

  /** A side input put twice keeps only its last grouped splits, in the
      place of its first put. */
  lemma {:induction false} QueuePutTwice(q: Queue, name: string, m1: GroupedMap, m2: GroupedMap)
    requires DistinctNames(q)
    ensures QueuePut(QueuePut(q, name, m1), name, m2) == QueuePut(q, name, m2)
  {
    if q != [] && q[0].0 != name {
      QueuePutTwice(q[1..], name, m1, m2);
      var p := QueuePut(q[1..], name, m1);
      assert ([q[0]] + p)[1..] == p;
    }
  }

  /** A name not yet queued goes to the end of the queue. */
  lemma {:induction false} QueuePutNew(q: Queue, name: string, m: GroupedMap)
    requires DistinctNames(q)
    requires forall i :: 0 <= i < |q| ==> q[i].0 != name
    ensures QueuePut(q, name, m) == q + [(name, m)]
  {
    if q != [] {
      QueuePutNew(q[1..], name, m);
      assert [q[0]] + (q[1..] + [(name, m)]) == q + [(name, m)];
    }
  }

  /** The addRootInputEvents calls of draining the queue. */
  function SideCalls(q: Queue, btt: TaskMap): seq<ContextCall>
  {
    if q == [] then []
    else
      var n := |q| - 1;
      SideCalls(q[..n], btt) + [AddRootInputEvents(q[n].0, SideEvents(q[n].1, btt))]
  }

  /** The root-input specs after draining the queue. */
  function SideSpecs(specs: map<string, seq<int>>, q: Queue, btt: TaskMap, taskCount: nat): map<string, seq<int>>
    requires TasksBelow(btt, taskCount)
  {
    if q == [] then specs
    else
      var n := |q| - 1;
      SideSpecs(specs, q[..n], btt, taskCount)[q[n].0 := SideCounts(q[n].1, btt, taskCount)]
  }

  /** How many times the vertex parallelism was set. */
  function ParallelismCalls(calls: seq<ContextCall>): nat
  {
    if calls == [] then 0
    else ParallelismCalls(calls[..|calls| - 1]) + if calls[|calls| - 1].SetVertexParallelism? then 1 else 0
  }

  /** sendEventToProcessor, one call per event. */
  function ToProcessor(evs: seq<ProcessorEvent>): (r: seq<ContextCall>)
    ensures |r| == |evs|
  {
    seq(|evs|, i requires 0 <= i < |evs| => SendEventToProcessor(evs[i]))
  }

  /** Setting the parallelism is counted call by call. */
  lemma {:induction false} ParallelismCallsConcat(a: seq<ContextCall>, b: seq<ContextCall>)
    ensures ParallelismCalls(a + b) == ParallelismCalls(a) + ParallelismCalls(b)
  {
    if b != [] {
      var n := |b| - 1;
      assert (a + b)[..|a + b| - 1] == a + b[..n];
      ParallelismCallsConcat(a, b[..n]);
    } else {
      assert a + b == a;
    }
  }

  /** Neither root-input events nor processor events set the parallelism. */
  lemma {:induction false} NoSettingIn(cs: seq<ContextCall>)
    requires forall i :: 0 <= i < |cs| ==> !cs[i].SetVertexParallelism?
    ensures ParallelismCalls(cs) == 0
  {
    if cs != [] {
      NoSettingIn(cs[..|cs| - 1]);
    }
  }

  lemma {:induction false} SideCallsAddEvents(q: Queue, btt: TaskMap)
    ensures |SideCalls(q, btt)| == |q|
    ensures forall i :: 0 <= i < |q| ==> SideCalls(q, btt)[i] == AddRootInputEvents(q[i].0, SideEvents(q[i].1, btt))
  {
    if q != [] {
      var n := |q| - 1;
      var front := SideCalls(q[..n], btt);
      var last := AddRootInputEvents(q[n].0, SideEvents(q[n].1, btt));
      assert SideCalls(q, btt) == front + [last];
      SideCallsAddEvents(q[..n], btt);
      forall i | 0 <= i < |q|
        ensures SideCalls(q, btt)[i] == AddRootInputEvents(q[i].0, SideEvents(q[i].1, btt))
      {
        if i < n {
          assert q[..n][i] == q[i];
        }
      }
    }
  }

  lemma ToProcessorConcat(a: seq<ProcessorEvent>, b: seq<ProcessorEvent>)
    ensures ToProcessor(a + b) == ToProcessor(a) + ToProcessor(b)
  {
  }

  /** One more processor event of a bucket's loop. */
  lemma BucketEventsSnoc(prefix: seq<ProcessorEvent>, tasks: seq<int>, j: int, p: seq<byte>)
    requires 0 <= j < |tasks|
    ensures ToProcessor(prefix + seq(j + 1, k requires 0 <= k < j + 1 => ProcessorEvent(tasks[k], p)))
            == ToProcessor(prefix + seq(j, k requires 0 <= k < j => ProcessorEvent(tasks[k], p)))
               + [SendEventToProcessor(ProcessorEvent(tasks[j], p))]
  {
    var a := seq(j, k requires 0 <= k < j => ProcessorEvent(tasks[k], p));
    var b := seq(j + 1, k requires 0 <= k < j + 1 => ProcessorEvent(tasks[k], p));
    assert b == a + [ProcessorEvent(tasks[j], p)];
    assert prefix + b == (prefix + a) + [ProcessorEvent(tasks[j], p)];
    ToProcessorConcat(prefix + a, [ProcessorEvent(tasks[j], p)]);
  }

  /** One more numbered copy of the innermost side-event loop. */
  lemma NumberedSnoc(vs: seq<InputSplit>, count: int, task: int)
    requires 0 <= count < |vs|
    ensures Numbered(vs[..count + 1], task) == Numbered(vs[..count], task) + [DataEvent(count + 1, SerializedSplit(vs[count]), task)]
  {
  }

  /** One more destination task of a bucket. */
  lemma CopiesForSnoc(vs: seq<InputSplit>, tasks: seq<int>, d: int)
    requires 0 <= d < |tasks|
    ensures CopiesFor(vs, tasks[..d + 1]) == CopiesFor(vs, tasks[..d]) + Numbered(vs, tasks[d])
  {
    assert tasks[..d + 1][..d] == tasks[..d];
  }

  lemma AddCountSnoc(c: seq<int>, tasks: seq<int>, w: int, d: int)
    requires 0 <= d < |tasks|
    requires forall j :: 0 <= j < |tasks| ==> 0 <= tasks[j] < |c|
    ensures AddCount(c, tasks[..d + 1], w) == AddCount(c, tasks[..d], w)[tasks[d] := AddCount(c, tasks[..d], w)[tasks[d]] + w]
  {
    assert tasks[..d + 1][..d] == tasks[..d];
  }

  /** One more bucket of the side input. */
  lemma SideSnoc(m: GroupedMap, btt: TaskMap, taskCount: nat, i: int)
    requires 0 <= i < |m| && TasksBelow(btt, taskCount)
    ensures SideEvents(m[..i + 1], btt) == SideEvents(m[..i], btt) + CopiesFor(m[i].values, Get(btt, m[i].key))
    ensures forall j :: 0 <= j < |Get(btt, m[i].key)| ==> 0 <= Get(btt, m[i].key)[j] < taskCount
    ensures SideCounts(m[..i + 1], btt, taskCount) == AddCount(SideCounts(m[..i], btt, taskCount), Get(btt, m[i].key), |m[i].values|)
  {
    assert m[..i + 1][..i] == m[..i];
    GetBelow(btt, taskCount, m[i].key);
  }

  /** The loop over the destination tasks of one bucket (lines 332-346):
      each task gets every split of the bucket, numbered from 1, and its
      count in numSplitsForTask rises by the number of splits. */
  method CopyToTasks(splits: seq<InputSplit>, destTasks: seq<int>, numSplitsForTask: array<int>) returns (evs: seq<DataEvent>)
    requires forall j :: 0 <= j < |destTasks| ==> 0 <= destTasks[j] < numSplitsForTask.Length
    modifies numSplitsForTask
    ensures numSplitsForTask[..] == AddCount(old(numSplitsForTask[..]), destTasks, |splits|)
    ensures evs == CopiesFor(splits, destTasks)
  {
    evs := [];
    var d := 0;
    while d < |destTasks|
      invariant 0 <= d <= |destTasks|
      invariant numSplitsForTask[..] == AddCount(old(numSplitsForTask[..]), destTasks[..d], |splits|)
      invariant evs == CopiesFor(splits, destTasks[..d])
    {
      var task := destTasks[d];
      ghost var start := evs;
      var count := 0;
      while count < |splits|
        modifies {}
        invariant 0 <= count <= |splits|
        invariant evs == start + Numbered(splits[..count], task)
      {
        NumberedSnoc(splits, count, task);
        count := count + 1;
        evs := evs + [DataEvent(count, SerializedSplit(splits[count - 1]), task)];
      }
      assert splits[..count] == splits;
      CopiesForSnoc(splits, destTasks, d);
      AddCountSnoc(old(numSplitsForTask[..]), destTasks, |splits|, d);
      numSplitsForTask[task] := numSplitsForTask[task] + count;
      d := d + 1;
    }
    assert destTasks[..d] == destTasks;
  }

  /** The loop of processAllSideEvents (lines 317-350): the splits of each
      bucket are copied to every task of that bucket, and the copies made
      for each task are counted in an array of taskCount entries. */
  method DispatchSideSplits(grouped: GroupedMap, btt: TaskMap, taskCount: nat) returns (counts: seq<int>, taskEvents: seq<DataEvent>)
    requires TasksBelow(btt, taskCount)
    ensures counts == SideCounts(grouped, btt, taskCount)
    ensures taskEvents == SideEvents(grouped, btt)
  {
    var numSplitsForTask := new int[taskCount](_ => 0);
    taskEvents := [];
    var i := 0;
    while i < |grouped|
      modifies numSplitsForTask
      invariant 0 <= i <= |grouped|
      invariant numSplitsForTask[..] == SideCounts(grouped[..i], btt, taskCount)
      invariant taskEvents == SideEvents(grouped[..i], btt)
    {
      var bucket, splits := grouped[i].key, grouped[i].values;
      var destTasks := Get(btt, bucket);
      GetBelow(btt, taskCount, bucket);
      if destTasks != [] {
        var copies := CopyToTasks(splits, destTasks, numSplitsForTask);
        taskEvents := taskEvents + copies;
      }
      SideSnoc(grouped, btt, taskCount, i);
      i := i + 1;
    }
    assert grouped[..i] == grouped;
    counts := numSplitsForTask[..];
  }

  /** The routing-table loop of processAllEvents (lines 363-379): each
      grouped split, bucket after bucket, is routed to the next task index,
      and the number of splits that task reads is recorded. */
  method AssignTaskIndices(btt: TaskMap, grouped: GroupedMap, next: int, secondLevel: bool)
    returns (routes: TaskMap, count: int, added: seq<InputSplit>, numSplitsForTask: seq<int>)
    requires AllGrouped(Values(grouped))
    ensures routes == AssignTasks(btt, grouped, next)
    ensures count == next + |Values(grouped)|
    ensures added == Values(grouped)
    ensures numSplitsForTask == Widths(Values(grouped), secondLevel)
  {
    routes, count, added, numSplitsForTask := btt, next, [], [];
    var i := 0;
    while i < |grouped|
      invariant 0 <= i <= |grouped|
      invariant routes == AssignTasks(btt, grouped[..i], next)
      invariant count == next + |Values(grouped[..i])|
      invariant added == Values(grouped[..i]) && AllGrouped(added)
      invariant numSplitsForTask == Widths(added, secondLevel)
    {
      var bucketNum, initialSplits := grouped[i].key, grouped[i].values;
      PrefixGrouped(grouped, i);
      AssignBucket(btt, grouped, next, i);
      ghost var base := routes;
      WidthsConcat(added, initialSplits, secondLevel);
      var widths;
      routes, widths := RouteBucket(routes, bucketNum, initialSplits, count, secondLevel);
      BucketDone(btt, grouped, next, i, base, count, routes);
      added := added + initialSplits;
      numSplitsForTask := numSplitsForTask + widths;
      count := count + |initialSplits|;
      i := i + 1;
    }
    assert grouped[..i] == grouped;
  }

  /** The inner loop for one bucket: its splits take the task indices
      start, start + 1, ... in turn. */
  method RouteBucket(routes0: TaskMap, bucketNum: int, initialSplits: seq<InputSplit>, start: int, secondLevel: bool)
    returns (routes: TaskMap, widths: seq<int>)
    requires secondLevel ==> AllGrouped(initialSplits)
    ensures routes == PutAll(routes0, bucketNum, Range(start, |initialSplits|))
    ensures widths == Widths(initialSplits, secondLevel)
  {
    routes, widths := routes0, [];
    var taskCount := start;
    var j := 0;
    while j < |initialSplits|
      invariant 0 <= j <= |initialSplits|
      invariant routes == PutAll(routes0, bucketNum, Range(start, j))
      invariant taskCount == start + j
      invariant widths == Widths(initialSplits[..j], secondLevel)
    {
      AssignOne(routes0, bucketNum, start, j, routes, taskCount);
      WidthsSnoc(initialSplits, j, secondLevel);
      routes := PutAll(routes, bucketNum, [taskCount]);
      widths := widths + [|Inputs(initialSplits[j], secondLevel)|];
      taskCount := taskCount + 1;
      j := j + 1;
    }
    assert initialSplits[..j] == initialSplits;
  }


  /** The loop of lines 405-432 over finalSplits: the split at position
      count, or each of its sub-splits after second-level grouping, becomes
      an event for task count; a sub-split that is not a grouped split
      stops the loop with an IOException. */
  method MainInputEvents(finals: seq<InputSplit>, secondLevel: bool) returns (r: Result<seq<DataEvent>>)
    requires secondLevel ==> AllGrouped(finals)
    ensures r == MainEvents(finals, secondLevel)
  {
    var taskEvents: seq<DataEvent> := [];
    var count := 0;
    while count < |finals|
      invariant 0 <= count <= |finals|
      invariant MainEvents(finals[..count], secondLevel) == Ok(taskEvents)
    {
      var inputSplit := finals[count];
      assert finals[..count + 1][..count] == finals[..count];
      if secondLevel {
        var subs := inputSplit.members;
        ghost var inner: seq<DataEvent> := [];
        ghost var start := taskEvents;
        var k := 0;
        while k < |subs|
          invariant 0 <= k <= |subs|
          invariant SubSplitEvents(subs[..k], count) == Ok(inner)
          invariant taskEvents == start + inner
        {
          assert subs[..k + 1][..k] == subs[..k];
          if !subs[k].Grouped? {
            SubSplitEventsSpec(subs, count);
            MainEventsOk(finals, secondLevel);
            return Err(UnexpectedSplitType);
          }
          var diEvent := DataEvent(count, SerializedSplit(subs[k]), count);
          taskEvents := taskEvents + [diEvent];
          inner := inner + [diEvent];
          k := k + 1;
        }
        assert subs[..k] == subs;
      } else {
        taskEvents := taskEvents + [DataEvent(count, SerializedSplit(inputSplit), count)];
      }
      count := count + 1;
    }
    assert finals[..count] == finals;
    return Ok(taskEvents);
  }

  /** The routing table and the pending splits between callbacks: every
      task index below taskCount sits under exactly one bucket, every bucket
      is a valid bucket number, and the pending splits are grouped splits. */
  ghost predicate Routed(btt: TaskMap, taskCount: int, numBuckets: int32, finals: seq<InputSplit>)
  {
    && Wf(btt)
    && RoutesEachTaskOnce(btt, taskCount)
    && TasksBelow(btt, taskCount)
    && KeysInRange(btt, numBuckets)
    && Int32Keys(btt)
    && AllGrouped(finals)
  }

  /** Routing the main input's grouped splits keeps the routing table
      valid. */
  lemma RoutedAfterAssign(btt: TaskMap, taskCount: int, numBuckets: int32, finals: seq<InputSplit>, grouped: GroupedMap,
                           btt': TaskMap, taskCount': int, finals': seq<InputSplit>)
    requires Routed(btt, taskCount, numBuckets, finals)
    requires Wf(grouped) && KeysInRange(grouped, numBuckets) && AllGrouped(Values(grouped))
    requires btt' == AssignTasks(btt, grouped, taskCount) && taskCount' == taskCount + |Values(grouped)|
    requires finals' == finals + Values(grouped)
    ensures Routed(btt', taskCount', numBuckets, finals')
  {
    AssignTasksOnce(btt, grouped, taskCount, btt', taskCount');
    AssignTasksWf(btt, grouped, taskCount);
    assert Wf(btt');
    AssignTasksInRange(btt, grouped, taskCount, numBuckets);
    assert KeysInRange(btt', numBuckets);
    OnceBelow(btt', taskCount');
    GroupedConcat(finals, Values(grouped));
  }

  lemma AssignTasksInRange(btt: TaskMap, m: GroupedMap, next: int, numBuckets: int)
    requires KeysInRange(btt, numBuckets) && KeysInRange(m, numBuckets)
    ensures KeysInRange(AssignTasks(btt, m, next), numBuckets)
  {
    var r := AssignTasks(btt, m, next);
    AssignTasksKeys(btt, m, next);
    forall i | 0 <= i < |r| ensures 0 <= r[i].key < numBuckets {
      assert r[i].key in Keys(r);
      if r[i].key in Keys(btt) {
        var j :| 0 <= j < |btt| && btt[j].key == r[i].key;
      } else {
        var j :| 0 <= j < |m| && m[j].key == r[i].key;
      }
    }
  }

  lemma GroupedConcat(xs: seq<InputSplit>, ys: seq<InputSplit>)
    requires AllGrouped(xs) && AllGrouped(ys)
    ensures AllGrouped(xs + ys)
  {
  }

  /** One more split of the routing-table loop: it takes the next task. */
  lemma AssignOne(m: TaskMap, k: int, start: int, j: nat, routes: TaskMap, count: int)
    requires routes == PutAll(m, k, Range(start, j)) && count == start + j
    ensures PutAll(routes, k, [count]) == PutAll(m, k, Range(start, j + 1))
  {
    PutAllTwice(m, k, Range(start, j), [start + j]);
    assert Range(start, j) + [start + j] == Range(start, j + 1);
  }

  /** The tasks of bucket i extend the routing table of the buckets before. */
  lemma BucketDone(btt: TaskMap, m: GroupedMap, next: int, i: int, base: TaskMap, start: int, routes: TaskMap)
    requires 0 <= i < |m| && base == AssignTasks(btt, m[..i], next) && start == next + |Values(m[..i])|
    requires routes == PutAll(base, m[i].key, Range(start, |m[i].values|))
    ensures routes == AssignTasks(btt, m[..i + 1], next)
  {
    AssignBucket(btt, m, next, i);
  }

  /** One more bucket of the routing-table loop. */
  lemma AssignBucket(btt: TaskMap, m: GroupedMap, next: int, i: int)
    requires 0 <= i < |m|
    ensures Values(m[..i + 1]) == Values(m[..i]) + m[i].values
    ensures AssignTasks(btt, m[..i + 1], next) ==
              PutAll(AssignTasks(btt, m[..i], next), m[i].key, Range(next + |Values(m[..i])|, |m[i].values|))
  {
    assert m[..i + 1][..i] == m[..i];
  }

  /** The splits up to and including bucket i are grouped splits. */
  lemma PrefixGrouped(m: GroupedMap, i: int)
    requires AllGrouped(Values(m)) && 0 <= i < |m|
    ensures AllGrouped(Values(m[..i]) + m[i].values)
  {
    var a, b, c := m[..i], m[i], m[i + 1..];
    assert m == a + [b] + c;
    ValuesThree(a, b, c);
    GroupedPrefix(Values(a) + b.values, Values(c));
  }

  lemma GroupedPrefix(xs: seq<InputSplit>, ys: seq<InputSplit>)
    requires AllGrouped(xs + ys)
    ensures AllGrouped(xs)
  {
    forall x | 0 <= x < |xs| ensures xs[x].Grouped? {
      assert xs[x] == (xs + ys)[x];
    }
  }

  lemma WidthsConcat(xs: seq<InputSplit>, ys: seq<InputSplit>, secondLevel: bool)
    requires secondLevel ==> AllGrouped(xs + ys)
    ensures secondLevel ==> AllGrouped(xs) && AllGrouped(ys)
    ensures Widths(xs + ys, secondLevel) == Widths(xs, secondLevel) + Widths(ys, secondLevel)
  {
    if secondLevel {
      GroupedPrefix(xs, ys);
      forall y | 0 <= y < |ys| ensures ys[y].Grouped? {
        assert ys[y] == (xs + ys)[|xs| + y];
      }
    }
    var l, r := Widths(xs + ys, secondLevel), Widths(xs, secondLevel) + Widths(ys, secondLevel);
    forall p | 0 <= p < |l| ensures l[p] == r[p] {
      if p >= |xs| {
        assert (xs + ys)[p] == ys[p - |xs|];
      } else {
        assert (xs + ys)[p] == xs[p];
      }
    }
  }

  lemma WidthsSnoc(xs: seq<InputSplit>, n: int, secondLevel: bool)
    requires 0 <= n < |xs| && (secondLevel ==> AllGrouped(xs))
    ensures Widths(xs[..n + 1], secondLevel) == Widths(xs[..n], secondLevel) + [|Inputs(xs[n], secondLevel)|]
  {
    assert xs[..n + 1][..n] == xs[..n];
  }
}
