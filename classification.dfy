/** The first step of onRootVertexInitialized: reading the root-input
    events and filing every split under its bucket id in a
    TreeMap<Integer, TreeSet<HiveInputSplit>>. */
module Classification {
  import opened Common
  import opened Bytes
  import opened Splits
  import opened Multimaps

  /** The TreeMap bucketFileSplitsMap: entries in ascending key order, each
      TreeSet in ascending comparator order. */
  type SplitTable = Multimap<HiveSplit>

  ghost predicate StrictlySorted(vs: seq<HiveSplit>)
  {
    forall i, j :: 0 <= i < j < |vs| ==> CompareSplits(vs[i], vs[j]) < 0
  }

  ghost predicate SortedTable(t: SplitTable)
  {
    && Wf(t)
    && (forall i, j :: 0 <= i < j < |t| ==> t[i].key < t[j].key)
    && (forall i :: 0 <= i < |t| ==> StrictlySorted(t[i].values))
  }

  /** TreeSet.add with HiveInputSplitComparator: inserts s at its place in
      the order, unless a split with equal bytes is already there (then the
      set keeps the one it has). */
  function InsertSplit(vs: seq<HiveSplit>, s: HiveSplit): seq<HiveSplit>
  {
    if vs == [] then [s]
    else
      var c := CompareSplits(s, vs[0]);
      if c < 0 then [s] + vs
      else if c == 0 then vs
      else [vs[0]] + InsertSplit(vs[1..], s)
  }

  /** `bucketFileSplitsMap.computeIfAbsent(b, new TreeSet).add(s)`. */
  function AddToBucket(t: SplitTable, b: int, s: HiveSplit): SplitTable
  {
    if t == [] then [Entry(b, [s])]
    else if t[0].key == b then [Entry(b, InsertSplit(t[0].values, s))] + t[1..]
    else if b < t[0].key then [Entry(b, [s])] + t
    else [t[0]] + AddToBucket(t[1..], b, s)
  }

  /** The equality bytes of the splits in a set. */
  ghost function ByteKeys(vs: seq<HiveSplit>): set<seq<byte>>
  {
    set x | x in vs :: x.bytes
  }

  lemma TailSorted(vs: seq<HiveSplit>)
    requires vs != [] && StrictlySorted(vs)
    ensures StrictlySorted(vs[1..])
  {
    var tl := vs[1..];
    forall i, j | 0 <= i < j < |tl| ensures CompareSplits(tl[i], tl[j]) < 0 {
      assert tl[i] == vs[i + 1] && tl[j] == vs[j + 1];
    }
  }

  /** After TreeSet.add the set holds s's bytes and every bytes it held. */
  lemma InsertSplitKeys(vs: seq<HiveSplit>, s: HiveSplit)
    requires StrictlySorted(vs)
    ensures ByteKeys(InsertSplit(vs, s)) == ByteKeys(vs) + {s.bytes}
  {
    InsertSplitElements(vs, s);
    var r := InsertSplit(vs, s);
    if s.bytes !in ByteKeys(vs) {
      forall x | x in r ensures x in vs || x == s {
        assert x in multiset(r);
      }
      forall x | x in vs || x == s ensures x in r {
        assert x in multiset(vs) + multiset{s};
      }
    }
  }

  /** TreeSet.add adds s unless a split with equal bytes is present, in which
      case the set is unchanged. */
  lemma {:induction false} InsertSplitElements(vs: seq<HiveSplit>, s: HiveSplit)
    requires StrictlySorted(vs)
    ensures s.bytes in ByteKeys(vs) ==> InsertSplit(vs, s) == vs
    ensures s.bytes !in ByteKeys(vs) ==> multiset(InsertSplit(vs, s)) == multiset(vs) + multiset{s}
  {
    if vs != [] {
      var c := CompareSplits(s, vs[0]);
      var tl := vs[1..];
      assert vs == [vs[0]] + tl;
      assert ByteKeys(vs) == {vs[0].bytes} + ByteKeys(tl);
      if c < 0 {
        assert s.bytes !in ByteKeys(vs) by {
          forall j | 0 <= j < |vs| ensures vs[j].bytes != s.bytes {
            if 0 < j {
              LexCompareTransitive(s.bytes, vs[0].bytes, vs[j].bytes);
            }
          }
        }
      } else if c > 0 {
        TailSorted(vs);
        InsertSplitElements(tl, s);
      }
    }
  }

  /** a compares below every split of vs. */
  ghost predicate Below(a: HiveSplit, vs: seq<HiveSplit>)
  {
    forall j :: 0 <= j < |vs| ==> CompareSplits(a, vs[j]) < 0
  }

  lemma ConsSorted(a: HiveSplit, vs: seq<HiveSplit>)
    requires Below(a, vs) && StrictlySorted(vs)
    ensures StrictlySorted([a] + vs)
  {
    var r := [a] + vs;
    forall i, j | 0 <= i < j < |r| ensures CompareSplits(r[i], r[j]) < 0 {
      if i == 0 {
        assert r[j] == vs[j - 1];
      } else {
        assert r[i] == vs[i - 1] && r[j] == vs[j - 1];
      }
    }
  }

  lemma UnconsSorted(vs: seq<HiveSplit>)
    requires vs != [] && StrictlySorted(vs)
    ensures Below(vs[0], vs[1..]) && StrictlySorted(vs[1..])
  {
    TailSorted(vs);
    forall j | 0 <= j < |vs[1..]| ensures CompareSplits(vs[0], vs[1..][j]) < 0 {
      assert vs[1..][j] == vs[j + 1];
    }
  }

  /** Inserting a split above a keeps everything above a. */
  lemma {:induction false} InsertSplitBelow(vs: seq<HiveSplit>, s: HiveSplit, a: HiveSplit)
    requires Below(a, vs) && CompareSplits(a, s) < 0
    ensures Below(a, InsertSplit(vs, s))
  {
    if vs != [] {
      var c := CompareSplits(s, vs[0]);
      if c < 0 {
        var r := [s] + vs;
        assert forall j :: 0 < j < |r| ==> r[j] == vs[j - 1];
      } else if c > 0 {
        var tl := vs[1..];
        assert forall j :: 0 <= j < |tl| ==> tl[j] == vs[j + 1];
        InsertSplitBelow(tl, s, a);
        var r := [vs[0]] + InsertSplit(tl, s);
        assert forall j :: 0 < j < |r| ==> r[j] == InsertSplit(tl, s)[j - 1];
      }
    }
  }

  /** TreeSet.add keeps the set in ascending comparator order. */
  lemma {:induction false} InsertSplitSorted(vs: seq<HiveSplit>, s: HiveSplit)
    requires StrictlySorted(vs)
    ensures StrictlySorted(InsertSplit(vs, s))
  {
    if vs != [] {
      var c := CompareSplits(s, vs[0]);
      if c < 0 {
        forall j | 0 <= j < |vs| ensures CompareSplits(s, vs[j]) < 0 {
          if 0 < j {
            LexCompareTransitive(s.bytes, vs[0].bytes, vs[j].bytes);
          }
        }
        ConsSorted(s, vs);
      } else if c > 0 {
        var tl := vs[1..];
        UnconsSorted(vs);
        InsertSplitSorted(tl, s);
        InsertSplitBelow(tl, s, vs[0]);
        ConsSorted(vs[0], InsertSplit(tl, s));
      }
    }
  }

  /** k lies strictly below every key of t. */
  ghost predicate KeyBelow(k: int, t: SplitTable)
  {
    forall j :: 0 <= j < |t| ==> k < t[j].key
  }

  lemma ConsTable(e: Entry<HiveSplit>, t: SplitTable)
    requires SortedTable(t) && KeyBelow(e.key, t) && e.values != [] && StrictlySorted(e.values)
    ensures SortedTable([e] + t)
  {
    var r := [e] + t;
    assert forall j :: 0 < j < |r| ==> r[j] == t[j - 1];
  }

  lemma UnconsTable(t: SplitTable)
    requires t != [] && SortedTable(t)
    ensures SortedTable(t[1..]) && KeyBelow(t[0].key, t[1..])
    ensures t[0].values != [] && StrictlySorted(t[0].values)
  {
    assert forall j :: 0 <= j < |t[1..]| ==> t[1..][j] == t[j + 1];
  }

  /** Filing under b adds b to the keys. */
  lemma {:induction false} AddToBucketKeys(t: SplitTable, b: int, s: HiveSplit)
    ensures Keys(AddToBucket(t, b, s)) == Keys(t) + {b}
  {
    var r := AddToBucket(t, b, s);
    if t == [] {
      assert r[0].key == b;
    } else if t[0].key == b {
      assert forall i :: 0 <= i < |r| ==> r[i].key == t[i].key;
    } else if b < t[0].key {
      HeadTailKeys(r);
      assert r[1..] == t;
    } else {
      var tl := t[1..];
      AddToBucketKeys(tl, b, s);
      assert r == [t[0]] + AddToBucket(tl, b, s);
      HeadTailKeys(t);
      HeadTailKeys(r);
      assert r[1..] == AddToBucket(tl, b, s);
    }
  }

  lemma HeadTailKeys<V>(m: Multimap<V>)
    requires m != []
    ensures Keys(m) == {m[0].key} + Keys(m[1..])
  {
    forall x | x in Keys(m) ensures x in {m[0].key} + Keys(m[1..]) {
      var i :| 0 <= i < |m| && m[i].key == x;
      if 0 < i { assert m[1..][i - 1].key == x; }
    }
    forall x | x in Keys(m[1..]) ensures x in Keys(m) {
      var i :| 0 <= i < |m[1..]| && m[1..][i].key == x;
      assert m[i + 1].key == x;
    }
  }

  /** Filing keeps the table sorted. */
  lemma {:induction false} AddToBucketSorted(t: SplitTable, b: int, s: HiveSplit)
    requires SortedTable(t)
    ensures SortedTable(AddToBucket(t, b, s))
  {
    if t == [] {
    } else {
      UnconsTable(t);
      var tl := t[1..];
      if t[0].key == b {
        InsertSplitSorted(t[0].values, s);
        ConsTable(Entry(b, InsertSplit(t[0].values, s)), tl);
      } else if b < t[0].key {
        ConsTable(Entry(b, [s]), t);
      } else {
        AddToBucketSorted(tl, b, s);
        AddToBucketKeys(tl, b, s);
        var rt := AddToBucket(tl, b, s);
        forall j | 0 <= j < |rt| ensures t[0].key < rt[j].key {
          assert rt[j].key in Keys(rt);
          if rt[j].key != b {
            var i :| 0 <= i < |tl| && tl[i].key == rt[j].key;
          }
        }
        ConsTable(t[0], rt);
      }
    }
  }

  /** Filing s under b inserts s into b's set and leaves every other bucket
      alone. */
  lemma {:induction false} AddToBucketGet(t: SplitTable, b: int, s: HiveSplit, k: int)
    requires SortedTable(t)
    ensures Get(AddToBucket(t, b, s), k) == if k == b then InsertSplit(Get(t, b), s) else Get(t, k)
  {
    var r := AddToBucket(t, b, s);
    AddToBucketSorted(t, b, s);
    if t == [] {
      GetAt(r, 0);
    } else {
      UnconsTable(t);
      var tl := t[1..];
      assert t == [t[0]] + tl;
      GetCons(t[0], tl, k);
      GetCons(t[0], tl, b);
      if t[0].key == b {
        GetCons(r[0], tl, k);
      } else if b < t[0].key {
        GetCons(r[0], t, k);
        assert b !in Keys(t);
      } else {
        AddToBucketGet(tl, b, s, k);
        var rt := AddToBucket(tl, b, s);
        assert r == [t[0]] + rt;
        GetCons(t[0], rt, k);
      }
    }
  }

  /** What the event loop has accumulated: whether a data event was seen,
      the last configure event's task count, and the split table. */
  datatype ClassifyState = ClassifyState(dataSeen: bool, configure: Option<int>, table: SplitTable)

  /** One iteration of the event loop of onRootVertexInitialized. */
  function Step(st: ClassifyState, e: Event): Result<ClassifyState>
  {
    match e
    case ConfigureVertexTasks(n) =>
      if st.dataSeen then Err(ProtocolViolation) else Ok(st.(configure := Some(n)))
    case UpdatePayload => Err(ProtocolViolation)
    case DataInformation(raw) =>
      match raw
      case OtherSplit => Err(UnsupportedSplitType)
      case HiveInputSplit(s) =>
        Ok(st.(dataSeen := true, table := AddToBucket(st.table, BucketKey(s), s)))
  }

  /** The whole event loop, event by event from the first. */
  function Classify(events: seq<Event>): Result<ClassifyState>
  {
    if events == [] then Ok(ClassifyState(false, None, []))
    else
      match Classify(events[..|events| - 1])
      case Err(e) => Err(e)
      case Ok(st) => Step(st, events[|events| - 1])
  }

  /** Once the loop has failed, later events change nothing: the exception
      ends the callback. */
  lemma {:induction false} ClassifyErrPersists(events: seq<Event>, i: int)
    requires 0 <= i <= |events| && Classify(events[..i]).Err?
    ensures Classify(events) == Classify(events[..i])
  {
    if i < |events| {
      var n := |events| - 1;
      assert events[..n][..i] == events[..i];
      ClassifyErrPersists(events[..n], i);
    } else {
      assert events[..i] == events;
    }
  }

  /** The event loop of onRootVertexInitialized (lines 189-221): the first
      failing event ends it with that event's exception. */
  method ClassifyEvents(events: seq<Event>) returns (r: Result<ClassifyState>)
    ensures r == Classify(events)
  {
    var dataSeen, configure, table := false, None, [];
    var i := 0;
    while i < |events|
      invariant 0 <= i <= |events|
      invariant Classify(events[..i]) == Ok(ClassifyState(dataSeen, configure, table))
    {
      assert events[..i + 1][..i] == events[..i];
      match events[i] {
        case ConfigureVertexTasks(n) =>
          if dataSeen {
            ClassifyErrPersists(events, i + 1);
            return Err(ProtocolViolation);
          }
          configure := Some(n);
        case UpdatePayload =>
          ClassifyErrPersists(events, i + 1);
          return Err(ProtocolViolation);
        case DataInformation(raw) =>
          if raw.OtherSplit? {
            ClassifyErrPersists(events, i + 1);
            return Err(UnsupportedSplitType);
          }
          dataSeen := true;
          table := AddToBucket(table, BucketKey(raw.split), raw.split);
      }
      i := i + 1;
    }
    assert events[..i] == events;
    r := Ok(ClassifyState(dataSeen, configure, table));
  }

  /** The event sequences the loop accepts: no update-payload event, only
      Hive splits, and no configure event after a data event. */
  ghost predicate AcceptedEvents(events: seq<Event>)
  {
    && (forall i :: 0 <= i < |events| ==> !events[i].UpdatePayload?)
    && (forall i :: 0 <= i < |events| && events[i].DataInformation? ==> events[i].raw.HiveInputSplit?)
    && (forall i, j :: 0 <= i < j < |events| && events[i].DataInformation? ==> !events[j].ConfigureVertexTasks?)
  }

  /** The loop fails exactly on the sequences it does not accept. */
  lemma {:induction false} ClassifyOkIffAccepted(events: seq<Event>)
    ensures Classify(events).Ok? <==> AcceptedEvents(events)
    ensures Classify(events).Ok? ==>
              (Classify(events).value.dataSeen <==> exists i :: 0 <= i < |events| && events[i].DataInformation?)
  {
    if events != [] {
      var n := |events| - 1;
      var pre := events[..n];
      ClassifyOkIffAccepted(pre);
      assert forall i :: 0 <= i < n ==> pre[i] == events[i];
      if AcceptedEvents(events) {
        assert AcceptedEvents(pre);
      }
      if Classify(pre).Ok? && (exists i :: 0 <= i < n && pre[i].DataInformation?) {
        var i :| 0 <= i < n && pre[i].DataInformation?;
        assert events[i].DataInformation?;
      }
    }
  }

  /** The table the loop builds is a sorted TreeMap of sorted TreeSets. */
  lemma {:induction false} ClassifySorted(events: seq<Event>)
    requires Classify(events).Ok?
    ensures SortedTable(Classify(events).value.table)
  {
    if events != [] {
      var n := |events| - 1;
      ClassifySorted(events[..n]);
      var t := Classify(events[..n]).value.table;
      if events[n].DataInformation? {
        AddToBucketSorted(t, BucketKey(events[n].raw.split), events[n].raw.split);
      }
    }
  }

  /** The set under key k of a sorted table is itself sorted. */
  lemma GetSorted(t: SplitTable, k: int)
    requires SortedTable(t)
    ensures StrictlySorted(Get(t, k))
  {
    if k in Keys(t) {
      var j :| 0 <= j < |t| && t[j].key == k;
      GetAt(t, j);
    }
  }

  /** Every split the loop files sits under its own bucket key and comes
      from a data event. */
  lemma {:induction false} ClassifyOnlyFromEvents(events: seq<Event>, k: int, x: HiveSplit)
    requires Classify(events).Ok?
    requires x in Get(Classify(events).value.table, k)
    ensures BucketKey(x) == k
    ensures DataInformation(HiveInputSplit(x)) in events
  {
    var n := |events| - 1;
    var pre := events[..n];
    ClassifySorted(pre);
    var t := Classify(pre).value.table;
    if events[n].DataInformation? {
      var s := events[n].raw.split;
      var b := BucketKey(s);
      AddToBucketGet(t, b, s, k);
      if k == b {
        GetSorted(t, b);
        InsertSplitElements(Get(t, b), s);
        if x != s {
          assert x in multiset(Get(t, b));
          ClassifyOnlyFromEvents(pre, k, x);
        }
      } else {
        ClassifyOnlyFromEvents(pre, k, x);
      }
    } else {
      ClassifyOnlyFromEvents(pre, k, x);
    }
  }

  /** Every data event's split is filed under its bucket key (or a split with
      equal bytes already was, which the TreeSet treats as the same). */
  lemma {:induction false} ClassifyFilesEverySplit(events: seq<Event>, i: int)
    requires Classify(events).Ok?
    requires 0 <= i < |events| && events[i].DataInformation? && events[i].raw.HiveInputSplit?
    ensures events[i].raw.split.bytes in ByteKeys(Get(Classify(events).value.table, BucketKey(events[i].raw.split)))
  {
    var n := |events| - 1;
    var pre := events[..n];
    assert Classify(pre).Ok? && Classify(events) == Step(Classify(pre).value, events[n]);
    ClassifySorted(pre);
    var t := Classify(pre).value.table;
    var t' := Classify(events).value.table;
    var s0 := events[i].raw.split;
    var k := BucketKey(s0);
    if i < n {
      assert pre[i] == events[i];
      ClassifyFilesEverySplit(pre, i);
    }
    if events[n].DataInformation? {
      var s := events[n].raw.split;
      var b := BucketKey(s);
      assert t' == AddToBucket(t, b, s);
      AddToBucketGet(t, b, s, k);
      if k == b {
        GetSorted(t, b);
        InsertSplitKeys(Get(t, b), s);
      }
    } else {
      assert t' == t;
    }
  }

}
