/** The routing table of processAllEvents and what is derived from it: the
    per-task input counts, the events of the main input, the copies of the
    side inputs' splits (processAllSideEvents) and the bucket-id payloads
    (sendBucketIdsToProcessor). */
module Routing {
  import opened Common
  import opened Bytes
  import opened Splits
  import opened Multimaps

  /** bucketToGroupedSplitMap: bucket -> grouped splits. */
  type GroupedMap = Multimap<InputSplit>

  /** bucketToTaskMap: bucket -> task indices. */
  type TaskMap = Multimap<int>

  // ---------------------------------------------------------------------
  // Task assignment (lines 363-379)

  /** The routing-table entries processAllEvents adds when the next free
      task index is `next`: the splits of each bucket, entry after entry,
      take the following indices in turn. */
  function AssignTasks(btt: TaskMap, m: GroupedMap, next: int): TaskMap
  {
    if m == [] then btt
    else
      var n := |m| - 1;
      PutAll(AssignTasks(btt, m[..n], next), m[n].key, Range(next + |Values(m[..n])|, |m[n].values|))
  }

  /** Every task index below taskCount sits under exactly one bucket, once. */
  ghost predicate RoutesEachTaskOnce(btt: TaskMap, taskCount: int)
  {
    taskCount >= 0 && multiset(Values(btt)) == multiset(Range(0, taskCount))
  }

  /** The splits the task running s reads: its sub-splits after second-level
      grouping, itself otherwise. */
  function Inputs(s: InputSplit, secondLevel: bool): seq<InputSplit>
    requires secondLevel ==> s.Grouped?
  {
    if secondLevel then s.members else [s]
  }

  predicate AllGrouped(splits: seq<InputSplit>)
  {
    forall i :: 0 <= i < |splits| ==> splits[i].Grouped?
  }

  /** numSplitsForTask of the main input: one entry per split. */
  function Widths(splits: seq<InputSplit>, secondLevel: bool): (w: seq<int>)
    requires secondLevel ==> AllGrouped(splits)
    ensures |w| == |splits|
    ensures forall i :: 0 <= i < |splits| ==> w[i] == |Inputs(splits[i], secondLevel)|
  {
    if splits == [] then []
    else
      var n := |splits| - 1;
      Widths(splits[..n], secondLevel) + [|Inputs(splits[n], secondLevel)|]
  }

  // ---------------------------------------------------------------------
  // Events of the main input (lines 405-432)

  /** One event per split the task reads, each with source and target index
      equal to the task's position i in finalSplits. */
  function AllTo(xs: seq<InputSplit>, i: int): (r: seq<DataEvent>)
    ensures |r| == |xs|
  {
    seq(|xs|, j requires 0 <= j < |xs| => DataEvent(i, SerializedSplit(xs[j]), i))
  }

  /** The inner loop over the sub-splits of finalSplits[i]. */
  function SubSplitEvents(subs: seq<InputSplit>, i: int): Result<seq<DataEvent>>
  {
    if subs == [] then Ok([])
    else
      var n := |subs| - 1;
      match SubSplitEvents(subs[..n], i)
      case Err(e) => Err(e)
      case Ok(evs) =>
        if !subs[n].Grouped? then Err(UnexpectedSplitType)
        else Ok(evs + [DataEvent(i, SerializedSplit(subs[n]), i)])
  }

  /** The events of the split at position i. */
  function SplitEvents(s: InputSplit, i: int, secondLevel: bool): Result<seq<DataEvent>>
    requires secondLevel ==> s.Grouped?
  {
    if secondLevel then SubSplitEvents(s.members, i)
    else Ok([DataEvent(i, SerializedSplit(s), i)])
  }

  /** The loop over finalSplits. */
  function MainEvents(finals: seq<InputSplit>, secondLevel: bool): Result<seq<DataEvent>>
    requires secondLevel ==> AllGrouped(finals)
  {
    if finals == [] then Ok([])
    else
      var n := |finals| - 1;
      match MainEvents(finals[..n], secondLevel)
      case Err(e) => Err(e)
      case Ok(evs) =>
        match SplitEvents(finals[n], n, secondLevel)
        case Err(e) => Err(e)
        case Ok(more) => Ok(evs + more)
  }

  /** The events addressed to task t, in order. */
  function Targeted(evs: seq<DataEvent>, t: int): (r: seq<DataEvent>)
    ensures |r| <= |evs|
    ensures forall j :: 0 <= j < |r| ==> r[j].targetIndex == t && r[j] in evs
  {
    if evs == [] then []
    else
      var n := |evs| - 1;
      Targeted(evs[..n], t) + (if evs[n].targetIndex == t then [evs[n]] else [])
  }

  // ---------------------------------------------------------------------
  // Events of a side input (lines 317-347)

  /** The copies one destination task receives of a bucket's splits,
      numbered 1, 2, ... in order. */
  function Numbered(vs: seq<InputSplit>, task: int): (r: seq<DataEvent>)
    ensures |r| == |vs|
  {
    seq(|vs|, j requires 0 <= j < |vs| => DataEvent(j + 1, SerializedSplit(vs[j]), task))
  }

  /** The loop over the destination tasks of one bucket. */
  function CopiesFor(vs: seq<InputSplit>, tasks: seq<int>): seq<DataEvent>
  {
    if tasks == [] then []
    else
      var n := |tasks| - 1;
      CopiesFor(vs, tasks[..n]) + Numbered(vs, tasks[n])
  }

  /** The loop over the buckets of the side input; a bucket with no task
      contributes nothing. */
  function SideEvents(m: GroupedMap, btt: TaskMap): seq<DataEvent>
  {
    if m == [] then []
    else
      var n := |m| - 1;
      SideEvents(m[..n], btt) + CopiesFor(m[n].values, Get(btt, m[n].key))
  }

  /** Every task index of the routing table is a valid index of an array
      of length taskCount. */
  ghost predicate TasksBelow(btt: TaskMap, taskCount: int)
  {
    forall i, j :: 0 <= i < |btt| && 0 <= j < |btt[i].values| ==> 0 <= btt[i].values[j] < taskCount
  }

  /** `numSplitsForTask[task] += count` for every task of one bucket. */
  function AddCount(c: seq<int>, tasks: seq<int>, w: int): (r: seq<int>)
    requires forall j :: 0 <= j < |tasks| ==> 0 <= tasks[j] < |c|
    ensures |r| == |c|
  {
    if tasks == [] then c
    else
      var n := |tasks| - 1;
      var c' := AddCount(c, tasks[..n], w);
      c'[tasks[n] := c'[tasks[n]] + w]
  }

  /** numSplitsForTask of a side input, for a routing table of taskCount
      tasks. */
  function SideCounts(m: GroupedMap, btt: TaskMap, taskCount: nat): (r: seq<int>)
    requires TasksBelow(btt, taskCount)
    ensures |r| == taskCount
  {
    if m == [] then seq(taskCount, _ => 0)
    else
      var n := |m| - 1;
      GetBelow(btt, taskCount, m[n].key);
      AddCount(SideCounts(m[..n], btt, taskCount), Get(btt, m[n].key), |m[n].values|)
  }

  // ---------------------------------------------------------------------
  // Bucket-id payloads (lines 454-468)

  /** What a task is told through sendEventToProcessor. */
  datatype ProcessorEvent = ProcessorEvent(task: int, payload: seq<byte>)

  predicate Int32Keys<V>(m: Multimap<V>)
  {
    forall i :: 0 <= i < |m| ==> -0x8000_0000 <= m[i].key < 0x8000_0000
  }

  /** The 8-byte buffer: putInt(numBuckets), putInt(bucketNum). */
  function BucketPayload(numBuckets: int32, bucket: int32): (p: seq<byte>)
    ensures |p| == 8
  {
    EncodeInt32(numBuckets) + EncodeInt32(bucket)
  }

  /** One processor event per (bucket, task) pair of the routing table. */
  function BucketIdEvents(btt: TaskMap, numBuckets: int32): seq<ProcessorEvent>
    requires Int32Keys(btt)
  {
    if btt == [] then []
    else
      var n := |btt| - 1;
      var tasks := btt[n].values;
      BucketIdEvents(btt[..n], numBuckets)
        + seq(|tasks|, j requires 0 <= j < |tasks| => ProcessorEvent(tasks[j], BucketPayload(numBuckets, btt[n].key as int32)))
  }

  function SentTo(evs: seq<ProcessorEvent>, t: int): seq<ProcessorEvent>
  {
    if evs == [] then []
    else
      var n := |evs| - 1;
      SentTo(evs[..n], t) + (if evs[n].task == t then [evs[n]] else [])
  }

  // ---------------------------------------------------------------------
  // Lemmas: multimap structure

  /** `get` on a multimap seen from its last entry. */
  lemma GetSnoc<V>(m: Multimap<V>, k: int)
    requires Wf(m) && m != []
    ensures Get(m, k) == if m[|m| - 1].key == k then m[|m| - 1].values else Get(m[..|m| - 1], k)
  {
    var n := |m| - 1;
    if m[n].key == k {
      GetAt(m, n);
    }
  }

  lemma KeysSnoc<V>(m: Multimap<V>)
    requires m != []
    ensures Keys(m) == Keys(m[..|m| - 1]) + {m[|m| - 1].key}
  {
    var n := |m| - 1;
    var pre := m[..n];
    forall x | x in Keys(m) ensures x in Keys(pre) + {m[n].key} {
      var j :| 0 <= j < |m| && m[j].key == x;
      if j < n { assert pre[j].key == x; }
    }
    forall x | x in Keys(pre) ensures x in Keys(m) {
      var j :| 0 <= j < n && pre[j].key == x;
      assert m[j].key == x;
    }
  }

  lemma WfPrefix<V>(m: Multimap<V>, n: nat)
    requires Wf(m) && n <= |m|
    ensures Wf(m[..n])
  {
    assert forall i :: 0 <= i < n ==> m[..n][i] == m[i];
  }

  lemma AbsentFromPrefix<V>(m: Multimap<V>)
    requires Wf(m) && m != []
    ensures Get(m[..|m| - 1], m[|m| - 1].key) == []
  {
    var n := |m| - 1;
    var pre := m[..n];
    assert forall i :: 0 <= i < n ==> pre[i] == m[i];
  }

  /** Values of a concatenation. */
  lemma {:induction false} ValuesConcat<V>(a: Multimap<V>, b: Multimap<V>)
    ensures Values(a + b) == Values(a) + Values(b)
  {
    if b != [] {
      var n := |b| - 1;
      assert (a + b)[..|a + b| - 1] == a + b[..n];
      var ab := a + b;
      assert ab[..|ab| - 1] == a + b[..n];
      assert ab[|ab| - 1] == b[n];
      ValuesConcat(a, b[..n]);
      calc {
        Values(ab);
        Values(ab[..|ab| - 1]) + ab[|ab| - 1].values;
        Values(a + b[..n]) + b[n].values;
        Values(a) + Values(b[..n]) + b[n].values;
        Values(a) + (Values(b[..n]) + b[n].values);
        Values(a) + Values(b);
      }
    } else {
      assert a + b == a;
    }
  }

  /** The values of entry i sit between those of the entries before and
      after it. */
  lemma ValuesAround<V>(m: Multimap<V>, i: int)
    requires 0 <= i < |m|
    ensures multiset(Values(m)) == multiset(Values(m[..i])) + multiset(m[i].values) + multiset(Values(m[i + 1..]))
  {
    var pre, post := m[..i], m[i + 1..];
    assert m == pre + [m[i]] + post;
    ValuesThree(pre, m[i], post);
    var a, b, c := Values(pre), m[i].values, Values(post);
    assert Values(m) == a + b + c;
    assert multiset(a + b + c) == multiset(a) + multiset(b) + multiset(c);
  }

  lemma ValuesThree<V>(pre: Multimap<V>, e: Entry<V>, post: Multimap<V>)
    ensures Values(pre + [e] + post) == Values(pre) + e.values + Values(post)
  {
    ValuesConcat(pre + [e], post);
    ValuesConcat(pre, [e]);
    ValuesSingle(e);
  }

  lemma ValuesSingle<V>(e: Entry<V>)
    ensures Values([e]) == e.values
  {
    assert [e][..0] == [];
  }

  lemma RangeSplit(a: int, n1: nat, n2: nat)
    ensures Range(a, n1) + Range(a + n1, n2) == Range(a, n1 + n2)
  {
  }

  /** A task index occurs once in the range of tasks. */
  lemma RangeCount(n: nat, t: int)
    ensures multiset(Range(0, n))[t] == if 0 <= t < n then 1 else 0
  {
    if 0 <= t < n {
      RangeSplit(0, t, 1);
      RangeSplit(0, t + 1, n - t - 1);
      assert t !in Range(0, t);
      assert t !in Range(t + 1, n - t - 1);
      assert Range(t, 1) == [t];
    } else {
      assert t !in Range(0, n);
    }
  }

  /** Under the exactly-once invariant every task t < taskCount has one
      bucket k: it occurs once under k and under no other bucket. */
  lemma OwnerOf(btt: TaskMap, taskCount: int, t: int) returns (k: int)
    requires Wf(btt) && RoutesEachTaskOnce(btt, taskCount) && 0 <= t < taskCount
    ensures multiset(Get(btt, k))[t] == 1
    ensures forall k' :: k' != k ==> t !in Get(btt, k')
  {
    RangeCount(taskCount, t);
    assert t in multiset(Values(btt));
    InValues(btt, t);
    var i :| 0 <= i < |btt| && t in btt[i].values;
    k := btt[i].key;
    GetAt(btt, i);
    ValuesAround(btt, i);
    forall k' | k' != k ensures t !in Get(btt, k') {
      var j := Find(btt, k');
      if j >= 0 && t in btt[j].values {
        TwoEntries(btt, i, j, t);
      }
    }
  }

  /** A value held by two entries occurs at least twice in values(). */
  lemma TwoEntries<V>(m: Multimap<V>, i: int, j: int, x: V)
    requires 0 <= i < |m| && 0 <= j < |m| && i != j
    requires x in m[i].values && x in m[j].values
    ensures multiset(Values(m))[x] >= 2
  {
    var lo, hi := if i < j then i else j, if i < j then j else i;
    ValuesAround(m, lo);
    var post := m[lo + 1..];
    assert post[hi - lo - 1] == m[hi];
    InValues(post, x);
  }

  /** The exactly-once invariant bounds every task by taskCount. */
  lemma OnceBelow(btt: TaskMap, taskCount: int)
    requires RoutesEachTaskOnce(btt, taskCount)
    ensures TasksBelow(btt, taskCount)
  {
    forall i, j | 0 <= i < |btt| && 0 <= j < |btt[i].values| ensures 0 <= btt[i].values[j] < taskCount {
      var x := btt[i].values[j];
      InValues(btt, x);
      assert x in multiset(Range(0, taskCount));
    }
  }

  lemma GetBelow(btt: TaskMap, taskCount: int, k: int)
    requires TasksBelow(btt, taskCount)
    ensures forall j :: 0 <= j < |Get(btt, k)| ==> 0 <= Get(btt, k)[j] < taskCount
  {
  }

  // ---------------------------------------------------------------------
  // Lemmas: task assignment

  /** Appending to the same key twice is appending once. */
  lemma PutAllTwice<V>(m: Multimap<V>, k: int, a: seq<V>, b: seq<V>)
    ensures PutAll(PutAll(m, k, a), k, b) == PutAll(m, k, a + b)
  {
    if a != [] && b != [] {
      var i := Find(m, k);
      var m1 := PutAll(m, k, a);
      var j := Find(m1, k);
      if 0 <= i {
        FindSameKeys(m, m1, k);
        assert (m[i].values + a) + b == m[i].values + (a + b);
      } else {
        FindSameKeys(m + [Entry(k, a)], m1, k);
        assert m1[|m|].key == k;
        assert j == |m|;
      }
    } else if a == [] {
      assert a + b == b;
    } else {
      assert a + b == a;
    }
  }

  lemma {:induction false} FindSameKeys<V>(m: Multimap<V>, m': Multimap<V>, k: int)
    requires |m| == |m'| && forall i :: 0 <= i < |m| ==> m[i].key == m'[i].key
    ensures Find(m, k) == Find(m', k)
  {
    if m != [] {
      var n := |m| - 1;
      FindSameKeys(m[..n], m'[..n], k);
    }
  }

  /** Assigning tasks to a map of grouped splits keeps every task under
      exactly one bucket, with the new indices next, next + 1, ... */
  /** Giving one bucket the next w task indices keeps every index routed
      exactly once. */
  lemma OnceStep(pre: TaskMap, start: int, k: int, w: nat, r: TaskMap, total: int)
    requires RoutesEachTaskOnce(pre, start)
    requires r == PutAll(pre, k, Range(start, w)) && total == start + w
    ensures RoutesEachTaskOnce(r, total)
  {
    var tasks, lo := Range(start, w), Range(0, start);
    ValuesPutAll(pre, k, tasks);
    assert multiset(Values(r)) == multiset(lo) + multiset(tasks);
    RangeSplit(0, start, w);
    assert Range(0, total) == lo + tasks;
  }

  lemma {:induction false} AssignTasksOnce(btt: TaskMap, m: GroupedMap, taskCount: int, r: TaskMap, total: int)
    requires RoutesEachTaskOnce(btt, taskCount)
    requires r == AssignTasks(btt, m, taskCount) && total == taskCount + |Values(m)|
    ensures RoutesEachTaskOnce(r, total)
  {
    if m == [] {
      assert r == btt && total == taskCount;
    } else {
      var n := |m| - 1;
      var pre := AssignTasks(btt, m[..n], taskCount);
      var start := taskCount + |Values(m[..n])|;
      AssignTasksOnce(btt, m[..n], taskCount, pre, start);
      assert r == PutAll(pre, m[n].key, Range(start, |m[n].values|));
      assert Values(m) == Values(m[..n]) + m[n].values;
      OnceStep(pre, start, m[n].key, |m[n].values|, r, total);
    }
  }




  lemma {:induction false} AssignTasksWf(btt: TaskMap, m: GroupedMap, next: int)
    requires Wf(btt)
    ensures Wf(AssignTasks(btt, m, next))
  {
    if m != [] {
      var n := |m| - 1;
      AssignTasksWf(btt, m[..n], next);
      PutAllWf(AssignTasks(btt, m[..n], next), m[n].key, Range(next + |Values(m[..n])|, |m[n].values|));
    }
  }

  /** A bucket gets as many new tasks as it has grouped splits. */
  lemma {:induction false} AssignTasksGet(btt: TaskMap, m: GroupedMap, next: int, k: int)
    requires Wf(btt) && Wf(m)
    ensures |Get(AssignTasks(btt, m, next), k)| == |Get(btt, k)| + |Get(m, k)|
  {
    if m != [] {
      var n := |m| - 1;
      var pre := AssignTasks(btt, m[..n], next);
      var tasks := Range(next + |Values(m[..n])|, |m[n].values|);
      assert AssignTasks(btt, m, next) == PutAll(pre, m[n].key, tasks);
      WfPrefix(m, n);
      AssignTasksGet(btt, m[..n], next, k);
      AssignTasksWf(btt, m[..n], next);
      PutAllGet(pre, m[n].key, tasks, k);
      GetSnoc(m, k);
      if m[n].key == k {
        AbsentFromPrefix(m);
      }
    }
  }

  /** The new buckets of the routing table are the buckets of the map. */
  lemma {:induction false} AssignTasksKeys(btt: TaskMap, m: GroupedMap, next: int)
    ensures Keys(AssignTasks(btt, m, next)) <= Keys(btt) + Keys(m)
  {
    if m != [] {
      var n := |m| - 1;
      AssignTasksKeys(btt, m[..n], next);
      PutAllKeys(AssignTasks(btt, m[..n], next), m[n].key, Range(next + |Values(m[..n])|, |m[n].values|));
      assert m[n].key in Keys(m);
      forall x | x in Keys(m[..n]) ensures x in Keys(m) {
        var i :| 0 <= i < n && m[..n][i].key == x;
        assert m[i].key == x;
      }
    }
  }

  // ---------------------------------------------------------------------
  // Lemmas: main-input events

  /** The sub-split loop succeeds iff every sub-split is a grouped split,
      and then yields one event per sub-split, all addressed to i. */
  lemma {:induction false} SubSplitEventsSpec(subs: seq<InputSplit>, i: int)
    ensures SubSplitEvents(subs, i).Ok? <==> AllGrouped(subs)
    ensures SubSplitEvents(subs, i).Ok? ==> SubSplitEvents(subs, i).value == AllTo(subs, i)
    ensures SubSplitEvents(subs, i).Err? ==> SubSplitEvents(subs, i).error == UnexpectedSplitType
  {
    if subs != [] {
      var n := |subs| - 1;
      SubSplitEventsSpec(subs[..n], i);
      assert forall j :: 0 <= j < n ==> subs[..n][j] == subs[j];
    }
  }

  lemma {:induction false} TargetedConcat(a: seq<DataEvent>, b: seq<DataEvent>, t: int)
    ensures Targeted(a + b, t) == Targeted(a, t) + Targeted(b, t)
  {
    if b != [] {
      var n := |b| - 1;
      assert (a + b)[..|a + b| - 1] == a + b[..n];
      var ab := a + b;
      assert ab[..|ab| - 1] == a + b[..n];
      assert ab[|ab| - 1] == b[n];
      TargetedConcat(a, b[..n], t);
      var last := if b[n].targetIndex == t then [b[n]] else [];
      calc {
        Targeted(ab, t);
        Targeted(ab[..|ab| - 1], t) + last;
        Targeted(a + b[..n], t) + last;
        Targeted(a, t) + Targeted(b[..n], t) + last;
        Targeted(a, t) + (Targeted(b[..n], t) + last);
        Targeted(a, t) + Targeted(b, t);
      }
    } else {
      assert a + b == a;
    }
  }

  /** Events that all share one target are all kept or all dropped. */
  lemma {:induction false} TargetedUniform(evs: seq<DataEvent>, i: int, t: int)
    requires forall j :: 0 <= j < |evs| ==> evs[j].targetIndex == i
    ensures Targeted(evs, t) == if i == t then evs else []
  {
    if evs != [] {
      var n := |evs| - 1;
      TargetedUniform(evs[..n], i, t);
      assert evs == evs[..n] + [evs[n]];
    }
  }

  /** The main loop fails exactly when second-level grouping was done and
      some sub-split is not a grouped split. */
  lemma {:induction false} MainEventsOk(finals: seq<InputSplit>, secondLevel: bool)
    requires secondLevel ==> AllGrouped(finals)
    ensures MainEvents(finals, secondLevel).Ok? <==>
              (secondLevel ==> forall i :: 0 <= i < |finals| ==> AllGrouped(finals[i].members))
    ensures MainEvents(finals, secondLevel).Err? ==> MainEvents(finals, secondLevel).error == UnexpectedSplitType
  {
    if finals != [] {
      var n := |finals| - 1;
      var pre := finals[..n];
      assert forall i :: 0 <= i < n ==> pre[i] == finals[i];
      MainEventsOk(pre, secondLevel);
      if secondLevel {
        SubSplitEventsSpec(finals[n].members, n);
      }
    }
  }

  /** Otherwise the task at position i of finalSplits receives one event per
      split it reads, with source and target index i, and no other task
      receives anything. */
  /** The last split of a successful MainEvents adds its own events. */
  lemma MainEventsLast(finals: seq<InputSplit>, secondLevel: bool)
    requires secondLevel ==> AllGrouped(finals)
    requires finals != [] && MainEvents(finals, secondLevel).Ok?
    ensures secondLevel ==> AllGrouped(finals[..|finals| - 1])
    ensures MainEvents(finals[..|finals| - 1], secondLevel).Ok?
    ensures MainEvents(finals, secondLevel).value ==
              MainEvents(finals[..|finals| - 1], secondLevel).value + AllTo(Inputs(finals[|finals| - 1], secondLevel), |finals| - 1)
  {
    var n := |finals| - 1;
    assert forall i :: 0 <= i < n ==> finals[..n][i] == finals[i];
    if secondLevel {
      SubSplitEventsSpec(finals[n].members, n);
    }
  }

  lemma {:induction false} MainEventsTargets(finals: seq<InputSplit>, secondLevel: bool, t: int)
    requires secondLevel ==> AllGrouped(finals)
    requires MainEvents(finals, secondLevel).Ok?
    ensures Targeted(MainEvents(finals, secondLevel).value, t) ==
              if 0 <= t < |finals| then AllTo(Inputs(finals[t], secondLevel), t) else []
  {
    if finals != [] {
      var n := |finals| - 1;
      var pre := finals[..n];
      MainEventsLast(finals, secondLevel);
      MainEventsTargets(pre, secondLevel, t);
      var evs := MainEvents(pre, secondLevel).value;
      var more := AllTo(Inputs(finals[n], secondLevel), n);
      TargetedConcat(evs, more, t);
      TargetedUniform(more, n, t);
      if 0 <= t < n {
        assert pre[t] == finals[t];
      }
    }
  }


  // ---------------------------------------------------------------------
  // Lemmas: side-input events and counts

  lemma NumberedUniform(vs: seq<InputSplit>, task: int, t: int)
    ensures Targeted(Numbered(vs, task), t) == if task == t then Numbered(vs, task) else []
  {
    TargetedUniform(Numbered(vs, task), task, t);
  }

  /** A task listed at most once gets one numbered copy of the bucket, or
      nothing when it is not listed. */
  lemma {:induction false} CopiesForTask(vs: seq<InputSplit>, tasks: seq<int>, t: int)
    requires multiset(tasks)[t] <= 1
    ensures Targeted(CopiesFor(vs, tasks), t) == if t in tasks then Numbered(vs, t) else []
  {
    if tasks != [] {
      var n := |tasks| - 1;
      var pre := tasks[..n];
      assert tasks == pre + [tasks[n]];
      assert multiset(tasks) == multiset(pre) + multiset{tasks[n]};
      CopiesForTask(vs, pre, t);
      TargetedConcat(CopiesFor(vs, pre), Numbered(vs, tasks[n]), t);
      NumberedUniform(vs, tasks[n], t);
    }
  }

  /** The side-input events addressed to task t are the copies, numbered
      1..m, of the splits of t's bucket k, and nothing else. */
  lemma {:induction false} SideEventsForTask(m: GroupedMap, btt: TaskMap, t: int, k: int)
    requires Wf(m)
    requires multiset(Get(btt, k))[t] == 1 && forall k' :: k' != k ==> t !in Get(btt, k')
    ensures Targeted(SideEvents(m, btt), t) == Numbered(Get(m, k), t)
  {
    if m != [] {
      var n := |m| - 1;
      WfPrefix(m, n);
      SideEventsForTask(m[..n], btt, t, k);
      var copies := CopiesFor(m[n].values, Get(btt, m[n].key));
      assert SideEvents(m, btt) == SideEvents(m[..n], btt) + copies;
      TargetedConcat(SideEvents(m[..n], btt), copies, t);
      GetSnoc(m, k);
      if m[n].key == k {
        AbsentFromPrefix(m);
        CopiesForTask(m[n].values, Get(btt, k), t);
      } else {
        assert multiset(Get(btt, m[n].key))[t] == 0;
        CopiesForTask(m[n].values, Get(btt, m[n].key), t);
      }
    }
  }

  lemma {:induction false} AddCountAt(c: seq<int>, tasks: seq<int>, w: int, t: int)
    requires forall j :: 0 <= j < |tasks| ==> 0 <= tasks[j] < |c|
    requires 0 <= t < |c| && multiset(tasks)[t] <= 1
    ensures AddCount(c, tasks, w)[t] == c[t] + if t in tasks then w else 0
  {
    if tasks != [] {
      var n := |tasks| - 1;
      var pre := tasks[..n];
      assert tasks == pre + [tasks[n]];
      assert multiset(tasks) == multiset(pre) + multiset{tasks[n]};
      AddCountAt(c, pre, w, t);
    }
  }

  /** numSplitsForTask[t] of a side input is the number of splits of t's
      bucket (zero when the side input has none there). */
  lemma {:induction false} SideCountForTask(m: GroupedMap, btt: TaskMap, taskCount: nat, t: int, k: int)
    requires Wf(m) && TasksBelow(btt, taskCount) && 0 <= t < taskCount
    requires multiset(Get(btt, k))[t] == 1 && forall k' :: k' != k ==> t !in Get(btt, k')
    ensures SideCounts(m, btt, taskCount)[t] == |Get(m, k)|
  {
    if m != [] {
      var n := |m| - 1;
      WfPrefix(m, n);
      SideCountForTask(m[..n], btt, taskCount, t, k);
      GetBelow(btt, taskCount, m[n].key);
      GetSnoc(m, k);
      if m[n].key == k {
        AbsentFromPrefix(m);
      } else {
        assert multiset(Get(btt, m[n].key))[t] == 0;
      }
      AddCountAt(SideCounts(m[..n], btt, taskCount), Get(btt, m[n].key), |m[n].values|, t);
    }
  }

  /** processAllSideEvents against a routing table in which every task has
      exactly one bucket: each task t receives the numbered copies of its
      bucket's splits and its count is their number. */
  lemma SideDispatch(m: GroupedMap, btt: TaskMap, taskCount: nat, t: int) returns (k: int)
    requires Wf(m) && Wf(btt) && RoutesEachTaskOnce(btt, taskCount) && 0 <= t < taskCount
    ensures t in Get(btt, k)
    ensures TasksBelow(btt, taskCount)
    ensures Targeted(SideEvents(m, btt), t) == Numbered(Get(m, k), t)
    ensures SideCounts(m, btt, taskCount)[t] == |Get(m, k)|
  {
    k := OwnerOf(btt, taskCount, t);
    OnceBelow(btt, taskCount);
    SideEventsForTask(m, btt, t, k);
    SideCountForTask(m, btt, taskCount, t, k);
  }

  // ---------------------------------------------------------------------
  // Lemmas: bucket-id payloads

  /** The payload decodes back to the bucket count and the bucket. */
  lemma BucketPayloadRoundTrip(numBuckets: int32, bucket: int32)
    ensures DecodeInt32(BucketPayload(numBuckets, bucket)[..4]) == numBuckets
    ensures DecodeInt32(BucketPayload(numBuckets, bucket)[4..]) == bucket
  {
    var p := BucketPayload(numBuckets, bucket);
    assert p[..4] == EncodeInt32(numBuckets);
    assert p[4..] == EncodeInt32(bucket);
    DecodeEncodeInt32(numBuckets);
    DecodeEncodeInt32(bucket);
  }

  /** The processor events go to the tasks of the routing table, one per
      (bucket, task) pair, in table order. */
  lemma {:induction false} BucketIdEventsTasks(btt: TaskMap, numBuckets: int32)
    requires Int32Keys(btt)
    ensures |BucketIdEvents(btt, numBuckets)| == |Values(btt)|
    ensures forall i :: 0 <= i < |Values(btt)| ==> BucketIdEvents(btt, numBuckets)[i].task == Values(btt)[i]
  {
    if btt != [] {
      var n := |btt| - 1;
      var tasks := btt[n].values;
      var front := BucketIdEvents(btt[..n], numBuckets);
      var last := seq(|tasks|, j requires 0 <= j < |tasks| => ProcessorEvent(tasks[j], BucketPayload(numBuckets, btt[n].key as int32)));
      assert BucketIdEvents(btt, numBuckets) == front + last;
      assert Values(btt) == Values(btt[..n]) + tasks;
      BucketIdEventsTasks(btt[..n], numBuckets);
    }
  }

  lemma {:induction false} SentToConcat(a: seq<ProcessorEvent>, b: seq<ProcessorEvent>, t: int)
    ensures SentTo(a + b, t) == SentTo(a, t) + SentTo(b, t)
  {
    if b != [] {
      var n := |b| - 1;
      assert (a + b)[..|a + b| - 1] == a + b[..n];
      var ab := a + b;
      assert ab[..|ab| - 1] == a + b[..n];
      assert ab[|ab| - 1] == b[n];
      SentToConcat(a, b[..n], t);
      var last := if b[n].task == t then [b[n]] else [];
      calc {
        SentTo(ab, t);
        SentTo(ab[..|ab| - 1], t) + last;
        SentTo(a + b[..n], t) + last;
        SentTo(a, t) + SentTo(b[..n], t) + last;
        SentTo(a, t) + (SentTo(b[..n], t) + last);
        SentTo(a, t) + SentTo(b, t);
      }
    } else {
      assert a + b == a;
    }
  }

  /** One bucket's events addressed to t: one if t is listed once, none if
      it is not listed. */
  lemma {:induction false} SentToBucket(tasks: seq<int>, p: seq<byte>, t: int)
    requires multiset(tasks)[t] <= 1
    ensures SentTo(seq(|tasks|, j requires 0 <= j < |tasks| => ProcessorEvent(tasks[j], p)), t)
              == if t in tasks then [ProcessorEvent(t, p)] else []
  {
    if tasks != [] {
      var n := |tasks| - 1;
      var pre := tasks[..n];
      assert tasks == pre + [tasks[n]];
      assert multiset(tasks) == multiset(pre) + multiset{tasks[n]};
      var evs := seq(|tasks|, j requires 0 <= j < |tasks| => ProcessorEvent(tasks[j], p));
      assert evs[..n] == seq(|pre|, j requires 0 <= j < |pre| => ProcessorEvent(pre[j], p));
      SentToBucket(pre, p, t);
    }
  }

  /** The events of the last bucket, for task t. */
  lemma SentToLast(btt: TaskMap, numBuckets: int32, t: int)
    requires Int32Keys(btt) && btt != []
    requires multiset(btt[|btt| - 1].values)[t] <= 1
    ensures Int32Keys(btt[..|btt| - 1])
    ensures SentTo(BucketIdEvents(btt, numBuckets), t) ==
              SentTo(BucketIdEvents(btt[..|btt| - 1], numBuckets), t) +
              if t in btt[|btt| - 1].values then [ProcessorEvent(t, BucketPayload(numBuckets, btt[|btt| - 1].key as int32))] else []
  {
    var n := |btt| - 1;
    var tasks := btt[n].values;
    assert forall i :: 0 <= i < n ==> btt[..n][i] == btt[i];
    var p := BucketPayload(numBuckets, btt[n].key as int32);
    SentToConcat(BucketIdEvents(btt[..n], numBuckets),
                 seq(|tasks|, j requires 0 <= j < |tasks| => ProcessorEvent(tasks[j], p)), t);
    SentToBucket(tasks, p, t);
  }

  lemma {:induction false} SentToOwner(btt: TaskMap, numBuckets: int32, t: int, k: int)
    requires Wf(btt) && Int32Keys(btt)
    requires multiset(Get(btt, k))[t] == 1 && forall k' :: k' != k ==> t !in Get(btt, k')
    ensures -0x8000_0000 <= k < 0x8000_0000
    ensures SentTo(BucketIdEvents(btt, numBuckets), t) == [ProcessorEvent(t, BucketPayload(numBuckets, k as int32))]
  {
    var n := |btt| - 1;
    WfPrefix(btt, n);
    GetSnoc(btt, k);
    GetAt(btt, n);
    if btt[n].key == k {
      AbsentFromPrefix(btt);
      forall k' ensures t !in Get(btt[..n], k') {
        GetSnoc(btt, k');
      }
      SentToLast(btt, numBuckets, t);
      SentToNone(btt[..n], numBuckets, t);
    } else {
      assert t !in btt[n].values;
      forall k' | k' != k ensures t !in Get(btt[..n], k') {
        GetSnoc(btt, k');
        if btt[n].key == k' {
          AbsentFromPrefix(btt);
        }
      }
      SentToLast(btt, numBuckets, t);
      SentToOwner(btt[..n], numBuckets, t, k);
    }
  }

  /** A task listed under no bucket receives nothing. */
  lemma {:induction false} SentToNone(btt: TaskMap, numBuckets: int32, t: int)
    requires Wf(btt) && Int32Keys(btt)
    requires forall k :: t !in Get(btt, k)
    ensures SentTo(BucketIdEvents(btt, numBuckets), t) == []
  {
    if btt != [] {
      var n := |btt| - 1;
      var pre := btt[..n];
      WfPrefix(btt, n);
      forall k ensures t !in Get(pre, k) {
        GetSnoc(btt, k);
        if btt[n].key == k {
          AbsentFromPrefix(btt);
        }
      }
      GetAt(btt, n);
      SentToLast(btt, numBuckets, t);
      SentToNone(pre, numBuckets, t);
    }
  }

  /** sendBucketIdsToProcessor against a routing table in which every task
      has exactly one bucket: task t receives exactly one event, and its
      payload decodes to (numBuckets, t's bucket). */
  lemma BucketIdsDelivered(btt: TaskMap, numBuckets: int32, taskCount: int, t: int) returns (k: int)
    requires Wf(btt) && Int32Keys(btt) && RoutesEachTaskOnce(btt, taskCount) && 0 <= t < taskCount
    ensures t in Get(btt, k) && -0x8000_0000 <= k < 0x8000_0000
    ensures SentTo(BucketIdEvents(btt, numBuckets), t) == [ProcessorEvent(t, BucketPayload(numBuckets, k as int32))]
    ensures DecodeInt32(SentTo(BucketIdEvents(btt, numBuckets), t)[0].payload[..4]) == numBuckets
    ensures DecodeInt32(SentTo(BucketIdEvents(btt, numBuckets), t)[0].payload[4..]) == k
  {
    k := OwnerOf(btt, taskCount, t);
    SentToOwner(btt, numBuckets, t, k);
    BucketPayloadRoundTrip(numBuckets, k as int32);
  }

  // ---------------------------------------------------------------------
  // Positions of finalSplits and their buckets

  /** The bucket whose splits include position p of Values(m). */
  function KeyAt<V>(m: Multimap<V>, p: int): int
    requires 0 <= p < |Values(m)|
  {
    var n := |m| - 1;
    if p >= |Values(m[..n])| then m[n].key else KeyAt(m[..n], p)
  }

  /** The value at position p lies under the key KeyAt(m, p). */
  lemma {:induction false} KeyAtValue<V>(m: Multimap<V>, p: int)
    requires Wf(m) && 0 <= p < |Values(m)|
    ensures Values(m)[p] in Get(m, KeyAt(m, p))
  {
    var n := |m| - 1;
    var pre := m[..n];
    assert Values(m) == Values(pre) + m[n].values;
    GetAt(m, n);
    if p < |Values(pre)| {
      WfPrefix(m, n);
      KeyAtValue(pre, p);
      var k := KeyAt(pre, p);
      GetSnoc(m, k);
      if m[n].key == k {
        AbsentFromPrefix(m);
      }
    }
  }

  lemma RangeHas(start: int, n: nat, t: int)
    ensures t in Range(start, n) <==> start <= t < start + n
  {
    if start <= t < start + n {
      assert Range(start, n)[t - start] == t;
    }
  }

  /** The task indices the assignment puts under bucket k: those k had, and
      next + p for every position p of the new splits that lies in bucket k. */
  lemma {:induction false} AssignTasksRoutes(btt: TaskMap, m: GroupedMap, next: int, t: int, k: int)
    requires Wf(btt)
    ensures t in Get(AssignTasks(btt, m, next), k) <==>
              t in Get(btt, k) || (next <= t < next + |Values(m)| && KeyAt(m, t - next) == k)
  {
    if m != [] {
      var n := |m| - 1;
      var pre := m[..n];
      var a := AssignTasks(btt, pre, next);
      var start := next + |Values(pre)|;
      var w := |m[n].values|;
      assert AssignTasks(btt, m, next) == PutAll(a, m[n].key, Range(start, w));
      assert Values(m) == Values(pre) + m[n].values;
      AssignTasksWf(btt, pre, next);
      PutAllGet(a, m[n].key, Range(start, w), k);
      RangeHas(start, w, t);
      AssignTasksRoutes(btt, pre, next, t, k);
    }
  }

  /** For the first main input (empty routing table, no earlier splits): the
      task at position t of finalSplits is routed exactly one bucket, the
      bucket whose splits include that split, and it receives the events of
      that split and no others. */
  lemma FirstInputRouting(grouped: GroupedMap, secondLevel: bool, t: int) returns (k: int)
    requires Wf(grouped) && (secondLevel ==> AllGrouped(Values(grouped)))
    requires MainEvents(Values(grouped), secondLevel).Ok?
    requires 0 <= t < |Values(grouped)|
    ensures Values(grouped)[t] in Get(grouped, k)
    ensures t in Get(AssignTasks([], grouped, 0), k)
    ensures forall k' :: k' != k ==> t !in Get(AssignTasks([], grouped, 0), k')
    ensures Targeted(MainEvents(Values(grouped), secondLevel).value, t) ==
              AllTo(Inputs(Values(grouped)[t], secondLevel), t)
  {
    k := KeyAt(grouped, t);
    KeyAtValue(grouped, t);
    AssignTasksRoutes([], grouped, 0, t, k);
    forall k' | k' != k ensures t !in Get(AssignTasks([], grouped, 0), k') {
      AssignTasksRoutes([], grouped, 0, t, k');
    }
    MainEventsTargets(Values(grouped), secondLevel, t);
  }
}
