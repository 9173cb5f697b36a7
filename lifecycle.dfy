/** A whole vertex initialisation: Tez calls onRootVertexInitialized once per
    root input, in some order, and an exception ends the vertex. What the
    vertex manager promises about the run as a whole: the parallelism is
    never set twice, and with every input delivered it is set exactly once. */
module Lifecycle {
  import opened Common
  import opened Splits
  import opened Multimaps
  import opened BucketMapping
  import opened Routing
  import opened Vertex
  import opened Manager

  /** One root input: its name and the events Tez delivers for it. */
  datatype RootInput = RootInput(name: string, events: seq<Event>)

  /** The callbacks for the inputs in order; the first failure ends the run
      with the state it left behind. */
  function Run(conf: VertexConf, grouper: Grouper, s: ManagerState, inputs: seq<RootInput>): (r: (Outcome, ManagerState))
    requires RoutingOk(conf, s)
    ensures RoutingOk(conf, r.1)
    decreases |inputs|
  {
    if inputs == [] then (Pass, s)
    else
      var step := RootInputStep(conf, grouper, s, inputs[0].name, inputs[0].events);
      RootInputKeepsValid(conf, grouper, s, inputs[0].name, inputs[0].events);
      if step.0.Fail? then step else Run(conf, grouper, step.1, inputs[1..])
  }

  /** The number of inputs that are the main work. */
  function MainInputs(conf: VertexConf, inputs: seq<RootInput>): nat
  {
    if inputs == [] then 0
    else (if IsMainWork(conf, inputs[0].name) then 1 else 0) + MainInputs(conf, inputs[1..])
  }

  /** The freshly initialised vertex manager satisfies the invariant. */
  lemma InitialValid(conf: VertexConf)
    ensures ValidState(conf, Initial())
  {
    assert Values(Initial().bucketToTaskMap) == [];
    assert Range(0, 0) == [];
  }

  /** Whatever the inputs, a run that succeeds never sets the parallelism
      twice, and sets it only once every input was seen. */
  lemma {:induction false} RunKeepsValid(conf: VertexConf, grouper: Grouper, s: ManagerState, inputs: seq<RootInput>)
    requires ValidState(conf, s)
    requires Run(conf, grouper, s, inputs).0.Pass?
    ensures ValidState(conf, Run(conf, grouper, s, inputs).1)
    decreases |inputs|
  {
    if inputs != [] {
      var step := RootInputStep(conf, grouper, s, inputs[0].name, inputs[0].events);
      RootInputKeepsValid(conf, grouper, s, inputs[0].name, inputs[0].events);
      RunKeepsValid(conf, grouper, step.1, inputs[1..]);
    }
  }

  /** Before the last input: k inputs were seen and the parallelism was not
      set. Until the main work arrives its spec is absent and every side
      input seen waits in the queue; afterwards its spec is present. */
  ghost predicate Waiting(conf: VertexConf, s: ManagerState, k: int, mainSeen: bool)
  {
    && s.numInputsSeenSoFar == k
    && ParallelismCalls(s.calls) == 0
    && if mainSeen then conf.mainWorkName in s.inputNameInputSpecMap
       else conf.mainWorkName !in s.inputNameInputSpecMap && (s.inputToGroupedSplitMap != [] <==> k >= 1)
  }

  /** The main input registers its spec and may set the parallelism. */
  lemma MainRootStep(conf: VertexConf, grouper: Grouper, s: ManagerState, input: RootInput)
    requires RoutingOk(conf, s) && IsMainWork(conf, input.name)
    requires RootInputStep(conf, grouper, s, input.name, input.events).0.Pass?
    ensures var r := RootInputStep(conf, grouper, s, input.name, input.events).1;
      var n := s.numInputsSeenSoFar + 1;
      && r.numInputsSeenSoFar == n
      && input.name in r.inputNameInputSpecMap
      && ParallelismCalls(r.calls) == ParallelismCalls(s.calls)
           + (if s.inputToGroupedSplitMap != [] && conf.numInputs == n then 1 else 0)
           + (if conf.numInputs == 1 && n == 1 then 1 else 0)
  {
    var seen, grouped, secondLevel := RootStepDispatches(conf, grouper, s, input.name, input.events);
    MainStepCount(conf, seen, input.name, grouped, secondLevel);
  }

  /** A side input before the main work waits in the queue; one after it
      keeps the main spec and may set the parallelism. */
  lemma SideRootStep(conf: VertexConf, grouper: Grouper, s: ManagerState, input: RootInput)
    requires RoutingOk(conf, s) && !IsMainWork(conf, input.name)
    requires RootInputStep(conf, grouper, s, input.name, input.events).0.Pass?
    ensures var r := RootInputStep(conf, grouper, s, input.name, input.events).1;
      var n := s.numInputsSeenSoFar + 1;
      && r.numInputsSeenSoFar == n
      && (conf.mainWorkName !in s.inputNameInputSpecMap ==>
            r.inputNameInputSpecMap == s.inputNameInputSpecMap && r.inputToGroupedSplitMap != []
            && ParallelismCalls(r.calls) == ParallelismCalls(s.calls))
      && (conf.mainWorkName in s.inputNameInputSpecMap ==>
            conf.mainWorkName in r.inputNameInputSpecMap
            && ParallelismCalls(r.calls) == ParallelismCalls(s.calls) + if conf.numInputs == n then 1 else 0)
  {
    var seen, grouped, secondLevel := RootStepDispatches(conf, grouper, s, input.name, input.events);
    SideStepCount(conf, seen, input.name, grouped);
  }

  /** A callback before the last one sets nothing and keeps waiting. */
  lemma StepWaiting(conf: VertexConf, grouper: Grouper, s: ManagerState, input: RootInput, k: int, mainSeen: bool)
    requires RoutingOk(conf, s) && Waiting(conf, s, k, mainSeen)
    requires 0 <= k && k + 1 < conf.numInputs && conf.mainWorkName != []
    requires mainSeen ==> !IsMainWork(conf, input.name)
    requires RootInputStep(conf, grouper, s, input.name, input.events).0.Pass?
    ensures Waiting(conf, RootInputStep(conf, grouper, s, input.name, input.events).1, k + 1, mainSeen || IsMainWork(conf, input.name))
  {
    if IsMainWork(conf, input.name) {
      MainRootStep(conf, grouper, s, input);
    } else {
      SideRootStep(conf, grouper, s, input);
    }
  }

  /** The last callback sets the parallelism, once. */
  lemma LastStep(conf: VertexConf, grouper: Grouper, s: ManagerState, input: RootInput, mainSeen: bool)
    requires RoutingOk(conf, s) && conf.numInputs >= 1 && Waiting(conf, s, conf.numInputs - 1, mainSeen)
    requires mainSeen <==> !IsMainWork(conf, input.name)
    requires conf.mainWorkName != [] || conf.numInputs == 1
    requires RootInputStep(conf, grouper, s, input.name, input.events).0.Pass?
    ensures ParallelismCalls(RootInputStep(conf, grouper, s, input.name, input.events).1.calls) == 1
  {
    if IsMainWork(conf, input.name) {
      MainRootStep(conf, grouper, s, input);
    } else {
      SideRootStep(conf, grouper, s, input);
    }
  }

  /** What the main input does to the count, the queue and the specs. */
  lemma MainStepCount(conf: VertexConf, s: ManagerState, inputName: string, grouped: GroupedMap, secondLevel: bool)
    requires RoutingOk(conf, s) && IsMainWork(conf, inputName)
    requires Wf(grouped) && KeysInRange(grouped, conf.numBuckets) && AllGrouped(Values(grouped))
    requires MainInputStep(conf, s, inputName, grouped, secondLevel).0.Pass?
    ensures var r := MainInputStep(conf, s, inputName, grouped, secondLevel).1;
      && r.numInputsSeenSoFar == s.numInputsSeenSoFar
      && inputName in r.inputNameInputSpecMap
      && ParallelismCalls(r.calls) == ParallelismCalls(s.calls)
           + (if s.inputToGroupedSplitMap != [] && conf.numInputs == s.numInputsSeenSoFar then 1 else 0)
           + (if conf.numInputs == 1 && s.numInputsSeenSoFar == 1 then 1 else 0)
  {
    var routed := RouteStep(s, inputName, grouped, secondLevel);
    RouteStepRouted(conf, s, inputName, grouped, secondLevel);
    var evs := MainEvents(routed.finalSplits, secondLevel).value;
    var added := routed.(calls := routed.calls + [AddRootInputEvents(inputName, evs)]);
    NoSettingCalls(routed.calls, [AddRootInputEvents(inputName, evs)]);
    DrainAndSetCount(conf, added);
    BucketMapJoinCount(conf, DrainAndSet(conf, added));
  }

  /** What a side input does to the count, the queue and the specs. */
  lemma SideStepCount(conf: VertexConf, s: ManagerState, inputName: string, grouped: GroupedMap)
    requires RoutingOk(conf, s)
    ensures var r := SideInputStep(conf, s, inputName, grouped);
      && r.numInputsSeenSoFar == s.numInputsSeenSoFar
      && (conf.mainWorkName !in s.inputNameInputSpecMap ==>
            r.inputNameInputSpecMap == s.inputNameInputSpecMap && r.inputToGroupedSplitMap != []
            && ParallelismCalls(r.calls) == ParallelismCalls(s.calls))
      && (conf.mainWorkName in s.inputNameInputSpecMap ==>
            conf.mainWorkName in r.inputNameInputSpecMap
            && ParallelismCalls(r.calls) == ParallelismCalls(s.calls) + if conf.numInputs == s.numInputsSeenSoFar then 1 else 0)
  {
    if conf.mainWorkName in s.inputNameInputSpecMap {
      DispatchCount(conf, s, inputName, grouped);
      SetParallelismCount(conf, SideEventsStep(s, inputName, grouped));
    }
  }

  /** The rest of a run from a waiting state sets the parallelism once. */
  lemma {:induction false} RunFromWaiting(conf: VertexConf, grouper: Grouper, s: ManagerState, inputs: seq<RootInput>, mainSeen: bool)
    requires RoutingOk(conf, s) && 1 <= |inputs| <= conf.numInputs
    requires Waiting(conf, s, conf.numInputs - |inputs|, mainSeen)
    requires MainInputs(conf, inputs) == if mainSeen then 0 else 1
    requires conf.mainWorkName != [] || conf.numInputs == 1
    requires Run(conf, grouper, s, inputs).0.Pass?
    ensures ParallelismCalls(Run(conf, grouper, s, inputs).1.calls) == 1
    decreases |inputs|
  {
    var input := inputs[0];
    var step := RootInputStep(conf, grouper, s, input.name, input.events);
    RootInputKeepsValid(conf, grouper, s, input.name, input.events);
    if |inputs| == 1 {
      assert inputs[1..] == [];
      LastStep(conf, grouper, s, input, mainSeen);
    } else {
      var mainSeen' := mainSeen || IsMainWork(conf, input.name);
      StepWaiting(conf, grouper, s, input, conf.numInputs - |inputs|, mainSeen);
      RunFromWaiting(conf, grouper, step.1, inputs[1..], mainSeen');
    }
  }

  /** When every root input is delivered once, exactly one of them is the
      main work, and the main work is named or is the only input, a run that
      succeeds sets the vertex parallelism exactly once. */
  lemma ParallelismSetOnce(conf: VertexConf, grouper: Grouper, inputs: seq<RootInput>)
    requires |inputs| == conf.numInputs >= 1
    requires MainInputs(conf, inputs) == 1
    requires conf.mainWorkName != [] || conf.numInputs == 1
    requires Run(conf, grouper, Initial(), inputs).0.Pass?
    ensures ParallelismCalls(Run(conf, grouper, Initial(), inputs).1.calls) == 1
  {
    InitialValid(conf);
    RunFromWaiting(conf, grouper, Initial(), inputs, false);
  }

  // ---------------------------------------------------------------------
  // Side inputs before or after the main work

  /** Side inputs: none is the main work, and no name occurs twice. */
  predicate SideInputs(conf: VertexConf, sides: seq<RootInput>)
  {
    && (forall i :: 0 <= i < |sides| ==> !IsMainWork(conf, sides[i].name))
    && (forall i, j :: 0 <= i < j < |sides| ==> sides[i].name != sides[j].name)
  }

  /** Every input's events classify and map to buckets without error. */
  predicate InputsMap(conf: VertexConf, inputs: seq<RootInput>)
  {
    forall i :: 0 <= i < |inputs| ==> InitialSplits(conf, inputs[i].name, inputs[i].events).Ok?
  }

  /** The grouped splits of the inputs, one queue entry each, in order. */
  function Queued(conf: VertexConf, grouper: Grouper, inputs: seq<RootInput>): (q: Queue)
    requires InputsMap(conf, inputs)
    ensures |q| == |inputs| && forall i :: 0 <= i < |q| ==> q[i].0 == inputs[i].name
  {
    if inputs == [] then []
    else
      var n := |inputs| - 1;
      InputsMapPrefix(conf, inputs, n);
      var initial := InitialSplits(conf, inputs[n].name, inputs[n].events).value;
      Queued(conf, grouper, inputs[..n]) + [(inputs[n].name, GroupedSplits(conf, grouper, inputs[n].name, initial))]
  }

  lemma InputsMapPrefix(conf: VertexConf, inputs: seq<RootInput>, n: nat)
    requires InputsMap(conf, inputs) && n <= |inputs|
    ensures InputsMap(conf, inputs[..n])
  {
    forall i | 0 <= i < n ensures InitialSplits(conf, inputs[..n][i].name, inputs[..n][i].events).Ok? {
      assert inputs[..n][i] == inputs[i];
    }
  }

  /** Running a + b is running a, then b from where a left off. */
  lemma {:induction false} RunAppend(conf: VertexConf, grouper: Grouper, s: ManagerState, a: seq<RootInput>, b: seq<RootInput>)
    requires RoutingOk(conf, s)
    ensures Run(conf, grouper, s, a + b)
            == if Run(conf, grouper, s, a).0.Fail? then Run(conf, grouper, s, a)
               else Run(conf, grouper, Run(conf, grouper, s, a).1, b)
    decreases |a|
  {
    if a == [] {
      assert a + b == b;
    } else {
      var step := RootInputStep(conf, grouper, s, a[0].name, a[0].events);
      RootInputKeepsValid(conf, grouper, s, a[0].name, a[0].events);
      assert (a + b)[0] == a[0] && (a + b)[1..] == a[1..] + b;
      if step.0.Pass? {
        RunAppend(conf, grouper, step.1, a[1..], b);
      }
    }
  }

  /** One side input on its own: it fails exactly when its events do not map
      to buckets, and otherwise takes the side-input step. */
  lemma SideStep(conf: VertexConf, grouper: Grouper, s: ManagerState, input: RootInput)
    requires RoutingOk(conf, s) && !IsMainWork(conf, input.name)
    ensures Run(conf, grouper, s, [input]).0.Pass? <==> InitialSplits(conf, input.name, input.events).Ok?
    ensures InitialSplits(conf, input.name, input.events).Ok? ==>
              Run(conf, grouper, s, [input]).1
              == SideInputStep(conf, s.(numInputsSeenSoFar := s.numInputsSeenSoFar + 1), input.name,
                               GroupedSplits(conf, grouper, input.name, InitialSplits(conf, input.name, input.events).value))
  {
    assert [input][0] == input && [input][1..] == [];
  }

  /** The inputs map to buckets iff the first ones do and the last does. */
  lemma InputsMapSnoc(conf: VertexConf, pre: seq<RootInput>, last: RootInput)
    ensures InputsMap(conf, pre + [last]) <==>
              InputsMap(conf, pre) && InitialSplits(conf, last.name, last.events).Ok?
  {
    var sides := pre + [last];
    if InputsMap(conf, pre) && InitialSplits(conf, last.name, last.events).Ok? {
      forall i | 0 <= i < |sides| ensures InitialSplits(conf, sides[i].name, sides[i].events).Ok? {
        if i < |pre| { assert sides[i] == pre[i]; } else { assert sides[i] == last; }
      }
    }
    if InputsMap(conf, sides) {
      forall i | 0 <= i < |pre| ensures InitialSplits(conf, pre[i].name, pre[i].events).Ok? {
        assert sides[i] == pre[i];
      }
      assert sides[|pre|] == last;
    }
  }

  /** A side input arriving before the main work joins the end of the
      queue. */
  lemma QueueOne(conf: VertexConf, grouper: Grouper, s: ManagerState, pre: seq<RootInput>, last: RootInput)
    requires RoutingOk(conf, s) && SideInputs(conf, pre + [last]) && InputsMap(conf, pre)
    requires conf.mainWorkName !in s.inputNameInputSpecMap
    requires s.inputToGroupedSplitMap == Queued(conf, grouper, pre)
    ensures Run(conf, grouper, s, [last]).0.Pass? <==> InputsMap(conf, pre + [last])
    ensures InputsMap(conf, pre + [last]) ==>
              Run(conf, grouper, s, [last]).1
              == s.(numInputsSeenSoFar := s.numInputsSeenSoFar + 1,
                    inputToGroupedSplitMap := Queued(conf, grouper, pre + [last]))
  {
    var sides := pre + [last];
    assert sides[|pre|] == last && sides[..|pre|] == pre;
    InputsMapSnoc(conf, pre, last);
    SideStep(conf, grouper, s, last);
    var initial := InitialSplits(conf, last.name, last.events);
    if initial.Ok? {
      forall i | 0 <= i < |pre| ensures s.inputToGroupedSplitMap[i].0 != last.name {
        assert sides[i] == pre[i];
      }
      QueuePutNew(s.inputToGroupedSplitMap, last.name, GroupedSplits(conf, grouper, last.name, initial.value));
    }
  }

  /** Draining one more queued input is dispatching it after the rest. */
  lemma DrainSnoc(t: ManagerState, q: Queue, name: string, grouped: GroupedMap)
    requires TasksBelow(t.bucketToTaskMap, t.taskCount) && t.taskCount >= 0
    ensures DrainStep(t.(inputToGroupedSplitMap := q + [(name, grouped)]))
            == SideEventsStep(DrainStep(t.(inputToGroupedSplitMap := q)), name, grouped)
                 .(inputToGroupedSplitMap := q + [(name, grouped)])
  {
    var q' := q + [(name, grouped)];
    assert q'[..|q|] == q;
    var btt := t.bucketToTaskMap;
    assert SideCalls(q', btt) == SideCalls(q, btt) + [AddRootInputEvents(name, SideEvents(grouped, btt))];
    assert t.calls + SideCalls(q', btt) == t.calls + SideCalls(q, btt) + [AddRootInputEvents(name, SideEvents(grouped, btt))];
  }

  /** A side input arriving after the main work is dispatched as the queue
      drain would dispatch it, last. */
  lemma DispatchOne(conf: VertexConf, grouper: Grouper, t: ManagerState, d: ManagerState, pre: seq<RootInput>, last: RootInput)
    requires RoutingOk(conf, t) && RoutingOk(conf, d) && SideInputs(conf, pre + [last]) && InputsMap(conf, pre)
    requires d == DrainStep(t.(inputToGroupedSplitMap := Queued(conf, grouper, pre)))
                   .(inputToGroupedSplitMap := [], numInputsSeenSoFar := t.numInputsSeenSoFar + |pre|)
    requires conf.mainWorkName in t.inputNameInputSpecMap
    ensures Run(conf, grouper, d, [last]).0.Pass? <==> InputsMap(conf, pre + [last])
    ensures InputsMap(conf, pre + [last]) ==> Run(conf, grouper, d, [last]).1 == Dispatched(conf, grouper, t, pre + [last])
  {
    var sides := pre + [last];
    assert sides[|pre|] == last && sides[..|pre|] == pre;
    InputsMapSnoc(conf, pre, last);
    SideStep(conf, grouper, d, last);
    var qp := Queued(conf, grouper, pre);
    SideSpecsKeys(t.inputNameInputSpecMap, qp, t.bucketToTaskMap, t.taskCount);
    var initial := InitialSplits(conf, last.name, last.events);
    if initial.Ok? {
      var g := GroupedSplits(conf, grouper, last.name, initial.value);
      assert Queued(conf, grouper, sides) == qp + [(last.name, g)];
      DrainSnoc(t, qp, last.name, g);
      var seen := d.(numInputsSeenSoFar := d.numInputsSeenSoFar + 1);
      assert SideInputStep(conf, seen, last.name, g) == SetParallelismStep(conf, SideEventsStep(seen, last.name, g));
    }
  }

  /** Before the main work, side inputs only wait in the queue, in the order
      they arrive. */
  lemma {:induction false} SidesQueued(conf: VertexConf, grouper: Grouper, s: ManagerState, sides: seq<RootInput>)
    requires RoutingOk(conf, s) && SideInputs(conf, sides)
    requires conf.mainWorkName !in s.inputNameInputSpecMap && s.inputToGroupedSplitMap == []
    ensures Run(conf, grouper, s, sides).0.Pass? <==> InputsMap(conf, sides)
    ensures InputsMap(conf, sides) ==>
              Run(conf, grouper, s, sides).1
              == s.(numInputsSeenSoFar := s.numInputsSeenSoFar + |sides|,
                    inputToGroupedSplitMap := Queued(conf, grouper, sides))
    decreases |sides|
  {
    if sides != [] {
      var n := |sides| - 1;
      var pre, last := sides[..n], sides[n];
      assert sides == pre + [last];
      assert SideInputs(conf, pre);
      SidesQueued(conf, grouper, s, pre);
      RunAppend(conf, grouper, s, pre, [last]);
      InputsMapSnoc(conf, pre, last);
      if InputsMap(conf, pre) {
        QueueOne(conf, grouper, Run(conf, grouper, s, pre).1, pre, last);
      }
    }
  }

  /** The state a run of side inputs after the main work ends in: the
      queue drain of those inputs, with the gate tried once at the end. */
  function Dispatched(conf: VertexConf, grouper: Grouper, t: ManagerState, sides: seq<RootInput>): ManagerState
    requires RoutingOk(conf, t) && InputsMap(conf, sides)
  {
    SetParallelismStep(conf, DrainStep(t.(inputToGroupedSplitMap := Queued(conf, grouper, sides)))
      .(inputToGroupedSplitMap := [], numInputsSeenSoFar := t.numInputsSeenSoFar + |sides|))
  }

  /** One more side input after the main work, before the last one. */
  lemma DispatchedSnoc(conf: VertexConf, grouper: Grouper, t: ManagerState, pre: seq<RootInput>, last: RootInput)
    requires RoutingOk(conf, t) && SideInputs(conf, pre + [last]) && InputsMap(conf, pre)
    requires conf.mainWorkName in t.inputNameInputSpecMap
    requires t.numInputsSeenSoFar + |pre| < conf.numInputs
    requires Run(conf, grouper, t, pre) == (Pass, Dispatched(conf, grouper, t, pre))
    ensures Run(conf, grouper, t, pre + [last]).0.Pass? <==> InputsMap(conf, pre + [last])
    ensures InputsMap(conf, pre + [last]) ==>
              Run(conf, grouper, t, pre + [last]) == (Pass, Dispatched(conf, grouper, t, pre + [last]))
  {
    RunAppend(conf, grouper, t, pre, [last]);
    var d := DrainStep(t.(inputToGroupedSplitMap := Queued(conf, grouper, pre)))
               .(inputToGroupedSplitMap := [], numInputsSeenSoFar := t.numInputsSeenSoFar + |pre|);
    SetParallelismCount(conf, d);
    assert Dispatched(conf, grouper, t, pre) == d;
    assert Run(conf, grouper, t, pre + [last]) == Run(conf, grouper, d, [last]);
    DispatchOne(conf, grouper, t, d, pre, last);
  }

  /** After the main work, each side input is dispatched at once; with the
      gate shut until the last of them, the run ends as the queue drain
      would. */
  lemma {:induction false} SidesDispatched(conf: VertexConf, grouper: Grouper, t: ManagerState, sides: seq<RootInput>)
    requires RoutingOk(conf, t) && SideInputs(conf, sides)
    requires conf.mainWorkName in t.inputNameInputSpecMap && t.inputToGroupedSplitMap == []
    requires t.numInputsSeenSoFar < conf.numInputs && t.numInputsSeenSoFar + |sides| <= conf.numInputs
    ensures Run(conf, grouper, t, sides).0.Pass? <==> InputsMap(conf, sides)
    ensures InputsMap(conf, sides) ==> Run(conf, grouper, t, sides) == (Pass, Dispatched(conf, grouper, t, sides))
    decreases |sides|
  {
    if sides == [] {
      assert t.calls + [] == t.calls;
      SetParallelismCount(conf, t);
    } else {
      var n := |sides| - 1;
      var pre, last := sides[..n], sides[n];
      assert sides == pre + [last];
      assert SideInputs(conf, pre);
      SidesDispatched(conf, grouper, t, pre);
      InputsMapSnoc(conf, pre, last);
      if InputsMap(conf, pre) {
        DispatchedSnoc(conf, grouper, t, pre, last);
      } else {
        RunAppend(conf, grouper, t, pre, [last]);
      }
    }
  }

  /** The main work's events map to buckets and its splits yield events. */
  predicate MainOk(conf: VertexConf, grouper: Grouper, main: RootInput)
  {
    match InitialSplits(conf, main.name, main.events)
    case Err(_) => false
    case Ok(initial) =>
      var grouped := GroupedSplits(conf, grouper, main.name, initial);
      MainEvents(Values(grouped), conf.mainWorkName != [] && initial != []).Ok?
  }

  /** The main work's grouped splits. */
  function MainGrouped(conf: VertexConf, grouper: Grouper, main: RootInput): (r: GroupedMap)
    requires InitialSplits(conf, main.name, main.events).Ok?
    ensures Wf(r) && KeysInRange(r, conf.numBuckets) && AllGrouped(Values(r))
  {
    GroupedSplits(conf, grouper, main.name, InitialSplits(conf, main.name, main.events).value)
  }

  /** Whether the main work's splits are grouped a second time. */
  function MainSecondLevel(conf: VertexConf, main: RootInput): bool
    requires InitialSplits(conf, main.name, main.events).Ok?
  {
    conf.mainWorkName != [] && InitialSplits(conf, main.name, main.events).value != []
  }

  /** MainOk in terms of the grouped splits. */
  lemma MainOkEvents(conf: VertexConf, grouper: Grouper, main: RootInput)
    ensures MainOk(conf, grouper, main) <==>
              InitialSplits(conf, main.name, main.events).Ok? &&
              MainEvents(Values(MainGrouped(conf, grouper, main)), MainSecondLevel(conf, main)).Ok?
  {
  }

  /** The state after an input's splits are routed and its events sent. */
  function WithEvents(s: ManagerState, name: string, grouped: GroupedMap, secondLevel: bool): ManagerState
    requires AllGrouped(Values(grouped)) && MainEvents(Values(grouped), secondLevel).Ok?
  {
    var routed := RouteStep(s, name, grouped, secondLevel);
    routed.(calls := routed.calls + [AddRootInputEvents(name, MainEvents(Values(grouped), secondLevel).value)])
  }

  /** Routing and sending events keeps the routing table valid. */
  lemma WithEventsOk(conf: VertexConf, s: ManagerState, name: string, grouped: GroupedMap, secondLevel: bool)
    requires RoutingOk(conf, s)
    requires Wf(grouped) && KeysInRange(grouped, conf.numBuckets) && AllGrouped(Values(grouped))
    requires MainEvents(Values(grouped), secondLevel).Ok?
    ensures RoutingOk(conf, WithEvents(s, name, grouped, secondLevel))
  {
    var routed := RouteStep(s, name, grouped, secondLevel);
    RouteStepRouted(conf, s, name, grouped, secondLevel);
    RoutingOkCalls(conf, routed, routed.calls + [AddRootInputEvents(name, MainEvents(Values(grouped), secondLevel).value)]);
  }

  /** The state after the main work is counted, routed and its events are
      sent, before the queue drain. */
  function MainRouted(conf: VertexConf, grouper: Grouper, s: ManagerState, main: RootInput): ManagerState
    requires MainOk(conf, grouper, main)
  {
    WithEvents(s.(numInputsSeenSoFar := s.numInputsSeenSoFar + 1), main.name,
               MainGrouped(conf, grouper, main), MainSecondLevel(conf, main))
  }

  /** A run of one input is that input's callback. */
  lemma RunOne(conf: VertexConf, grouper: Grouper, s: ManagerState, input: RootInput)
    requires RoutingOk(conf, s)
    ensures Run(conf, grouper, s, [input]) == RootInputStep(conf, grouper, s, input.name, input.events)
  {
    assert [input][0] == input && [input][1..] == [];
  }

  /** processAllEvents with no pending splits and more than one input. */
  lemma MainInputShape(conf: VertexConf, s: ManagerState, inputName: string, grouped: GroupedMap, secondLevel: bool)
    requires RoutingOk(conf, s) && s.finalSplits == [] && conf.numInputs != 1
    requires Wf(grouped) && KeysInRange(grouped, conf.numBuckets) && AllGrouped(Values(grouped))
    ensures MainInputStep(conf, s, inputName, grouped, secondLevel).0.Pass? <==> MainEvents(Values(grouped), secondLevel).Ok?
    ensures MainEvents(Values(grouped), secondLevel).Ok? ==>
              RoutingOk(conf, WithEvents(s, inputName, grouped, secondLevel)) &&
              MainInputStep(conf, s, inputName, grouped, secondLevel).1 == DrainAndSet(conf, WithEvents(s, inputName, grouped, secondLevel))
  {
    assert s.finalSplits + Values(grouped) == Values(grouped);
    if MainEvents(Values(grouped), secondLevel).Ok? {
      WithEventsOk(conf, s, inputName, grouped, secondLevel);
    }
  }

  /** The main work's callback fails exactly when its events or its splits
      do. */
  lemma MainRootPass(conf: VertexConf, grouper: Grouper, s: ManagerState, main: RootInput)
    requires RoutingOk(conf, s) && IsMainWork(conf, main.name)
    requires s.finalSplits == [] && conf.numInputs != 1
    ensures RootInputStep(conf, grouper, s, main.name, main.events).0.Pass? <==> MainOk(conf, grouper, main)
  {
    var seen, g, sl := RootStepDispatches(conf, grouper, s, main.name, main.events);
    MainOkEvents(conf, grouper, main);
    if InitialSplits(conf, main.name, main.events).Ok? {
      MainInputShape(conf, seen, main.name, g, sl);
    }
  }

  /** The routing table and the queue do not depend on the calls made. */
  lemma RoutingOkCalls(conf: VertexConf, s: ManagerState, calls: seq<ContextCall>)
    requires RoutingOk(conf, s)
    ensures RoutingOk(conf, s.(calls := calls))
  {
  }

  /** With more than one input and no pending splits, the main work's
      callback routes its splits, sends their events, then drains the queue,
      if any, and tries the gate. */
  lemma MainRootState(conf: VertexConf, grouper: Grouper, s: ManagerState, main: RootInput)
    requires RoutingOk(conf, s) && IsMainWork(conf, main.name)
    requires s.finalSplits == [] && conf.numInputs != 1
    requires MainOk(conf, grouper, main)
    ensures RoutingOk(conf, MainRouted(conf, grouper, s, main))
    ensures RootInputStep(conf, grouper, s, main.name, main.events).1 == DrainAndSet(conf, MainRouted(conf, grouper, s, main))
  {
    MainOkEvents(conf, grouper, main);
    var seen, g, sl := RootStepDispatches(conf, grouper, s, main.name, main.events);
    assert g == MainGrouped(conf, grouper, main) && sl == MainSecondLevel(conf, main);
    MainInputShape(conf, seen, main.name, g, sl);
    assert MainRouted(conf, grouper, s, main) == WithEvents(seen, main.name, g, sl);
  }

  /** The same for a run of the main work alone. */
  lemma MainStep(conf: VertexConf, grouper: Grouper, s: ManagerState, main: RootInput)
    requires RoutingOk(conf, s) && IsMainWork(conf, main.name)
    requires s.finalSplits == [] && conf.numInputs != 1
    ensures Run(conf, grouper, s, [main]).0.Pass? <==> MainOk(conf, grouper, main)
    ensures MainOk(conf, grouper, main) ==>
              && RoutingOk(conf, MainRouted(conf, grouper, s, main))
              && Run(conf, grouper, s, [main]).1 == DrainAndSet(conf, MainRouted(conf, grouper, s, main))
  {
    RunOne(conf, grouper, s, main);
    MainRootPass(conf, grouper, s, main);
    if MainOk(conf, grouper, main) {
      MainRootState(conf, grouper, s, main);
    }
  }

  /** The state after side inputs that all map to buckets arrived first. */
  function AfterSides(conf: VertexConf, grouper: Grouper, sides: seq<RootInput>): ManagerState
    requires InputsMap(conf, sides)
  {
    Initial().(numInputsSeenSoFar := |sides|, inputToGroupedSplitMap := Queued(conf, grouper, sides))
  }

  /** Side inputs arriving first: they fail exactly when one of them does
      not map to buckets, and otherwise wait in the queue. */
  lemma SidesFirst(conf: VertexConf, grouper: Grouper, sides: seq<RootInput>)
    requires SideInputs(conf, sides)
    ensures RoutingOk(conf, Initial())
    ensures Run(conf, grouper, Initial(), sides).0.Pass? <==> InputsMap(conf, sides)
    ensures InputsMap(conf, sides) ==>
              RoutingOk(conf, AfterSides(conf, grouper, sides))
              && Run(conf, grouper, Initial(), sides).1 == AfterSides(conf, grouper, sides)
  {
    InitialValid(conf);
    SidesQueued(conf, grouper, Initial(), sides);
  }

  /** The side inputs first, then the main work. */
  lemma QueuedFirst(conf: VertexConf, grouper: Grouper, sides: seq<RootInput>, main: RootInput)
    requires SideInputs(conf, sides) && IsMainWork(conf, main.name)
    requires 1 <= |sides| < conf.numInputs
    ensures RoutingOk(conf, Initial())
    ensures Run(conf, grouper, Initial(), sides + [main]).0.Pass? <==> InputsMap(conf, sides) && MainOk(conf, grouper, main)
    ensures InputsMap(conf, sides) && MainOk(conf, grouper, main) ==>
              && RoutingOk(conf, AfterSides(conf, grouper, sides))
              && RoutingOk(conf, MainRouted(conf, grouper, AfterSides(conf, grouper, sides), main))
              && Run(conf, grouper, Initial(), sides + [main]).1
                 == DrainAndSet(conf, MainRouted(conf, grouper, AfterSides(conf, grouper, sides), main))
  {
    SidesFirst(conf, grouper, sides);
    RunAppend(conf, grouper, Initial(), sides, [main]);
    if InputsMap(conf, sides) {
      MainStep(conf, grouper, AfterSides(conf, grouper, sides), main);
    }
  }

  /** The main work first, then the side inputs. */
  lemma MainFirst(conf: VertexConf, grouper: Grouper, sides: seq<RootInput>, main: RootInput)
    requires SideInputs(conf, sides) && IsMainWork(conf, main.name)
    requires 1 <= |sides| < conf.numInputs
    ensures RoutingOk(conf, Initial())
    ensures Run(conf, grouper, Initial(), [main] + sides).0.Pass? <==> InputsMap(conf, sides) && MainOk(conf, grouper, main)
    ensures InputsMap(conf, sides) && MainOk(conf, grouper, main) ==>
              && RoutingOk(conf, MainRouted(conf, grouper, Initial(), main))
              && Run(conf, grouper, Initial(), [main] + sides).1 == Dispatched(conf, grouper, MainRouted(conf, grouper, Initial(), main), sides)
  {
    InitialValid(conf);
    var s0 := Initial();
    MainStep(conf, grouper, s0, main);
    RunAppend(conf, grouper, s0, [main], sides);
    if MainOk(conf, grouper, main) {
      assert !IsMainWork(conf, sides[0].name);
      var a0 := MainRouted(conf, grouper, s0, main);
      assert DrainAndSet(conf, a0) == a0;
      SidesDispatched(conf, grouper, a0, sides);
    }
  }

  /** Secondary-input ordering: side inputs that arrive before the main work
      wait in the queue and are dispatched when the main work is processed.
      The run then fails exactly when the run with the same side inputs
      after the main work fails, and otherwise ends in the same state, the
      calls made on the Tez context included. */
  lemma SideInputOrder(conf: VertexConf, grouper: Grouper, sides: seq<RootInput>, main: RootInput)
    requires SideInputs(conf, sides) && IsMainWork(conf, main.name)
    requires 1 <= |sides| < conf.numInputs
    ensures Run(conf, grouper, Initial(), sides + [main]).0.Pass? <==> Run(conf, grouper, Initial(), [main] + sides).0.Pass?
    ensures Run(conf, grouper, Initial(), sides + [main]).0.Pass? ==>
              Run(conf, grouper, Initial(), sides + [main]).1 == Run(conf, grouper, Initial(), [main] + sides).1
  {
    QueuedFirst(conf, grouper, sides, main);
    MainFirst(conf, grouper, sides, main);
    if InputsMap(conf, sides) && MainOk(conf, grouper, main) {
      var q := Queued(conf, grouper, sides);
      var a0 := MainRouted(conf, grouper, Initial(), main);
      var a1 := MainRouted(conf, grouper, AfterSides(conf, grouper, sides), main);
      assert a1 == a0.(numInputsSeenSoFar := |sides| + 1, inputToGroupedSplitMap := q);
      assert DrainStep(a1) == DrainStep(a0.(inputToGroupedSplitMap := q)).(numInputsSeenSoFar := |sides| + 1);
    }
  }
}
