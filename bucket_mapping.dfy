/** getBucketSplitMapForBucket: from the sorted split table of one root input
    to the multimap bucket -> splits that the grouper and the routing use. */
module BucketMapping {
  import opened Common
  import opened Arith
  import opened Splits
  import opened Multimaps
  import opened Classification

  /** The part of CustomVertexConfiguration (read in initialize()) that the
      bucket mapping depends on. */
  datatype VertexConf = VertexConf(
    numBuckets: int32,
    mainWorkName: string,
    numInputs: int32,                              // numInputsAffectingRootInputSpecUpdate
    inputToBucketMap: Option<map<string, int32>>)  // null when absent

  /** The main work is the big table; with no main work name every input is. */
  predicate IsMainWork(conf: VertexConf, inputName: string)
  {
    conf.mainWorkName == [] || inputName == conf.mainWorkName
  }

  predicate IsSmbJoin(conf: VertexConf)
  {
    conf.numInputs != 1
  }

  /** The Preconditions.checkState that opens getBucketSplitMapForBucket. */
  predicate HasBucketSize(conf: VertexConf, inputName: string)
  {
    || IsMainWork(conf, inputName)
    || (IsSmbJoin(conf) && conf.inputToBucketMap.Some? && inputName in conf.inputToBucketMap.value)
  }

  /** inputBucketSize: numBuckets for the main work, the configured bucket
      count of the table otherwise. */
  function InputBucketSize(conf: VertexConf, inputName: string): int32
    requires HasBucketSize(conf, inputName)
  {
    if IsMainWork(conf, inputName) then conf.numBuckets else conf.inputToBucketMap.value[inputName]
  }

  /** Entry by entry, `putAll(key % d, values)`: the explicit-id loop (with
      d = inputBucketSize) and the remainder map of the redistribution (with
      d = gcd). */
  function Rekey<V>(m: Multimap<V>, d: int): Multimap<V>
    requires d != 0
  {
    if m == [] then []
    else
      var n := |m| - 1;
      PutAll(Rekey(m[..n], d), JavaRem(m[n].key, d), m[n].values)
  }

  /** The fallback loop: the entry at position i in ascending key order goes
      to `i % d`. */
  function Spread<V>(m: Multimap<V>, d: int): Multimap<V>
    requires d != 0
  {
    if m == [] then []
    else
      var n := |m| - 1;
      PutAll(Spread(m[..n], d), JavaRem(n, d), m[n].values)
  }

  predicate HasNegativeKey<V>(m: Multimap<V>)
  {
    exists i :: 0 <= i < |m| && m[i].key < 0
  }

  /** The two loops of lines 531-556. The explicit loop stops at the first
      negative key, clears what it built and hands over to the fallback loop,
      which starts from the empty map; so the outcome is the fallback map
      whenever some key is negative. A bucket count of zero makes the first
      `%` throw: in the explicit loop when the first key is non-negative, in
      the fallback loop otherwise; so every non-empty table fails then. */
  function InitialMap(t: SplitTable, size: int): Result<Multimap<HiveSplit>>
  {
    if t == [] then Ok([])
    else if size == 0 then Err(DivisionByZero)
    else if HasNegativeKey(t) then Ok(Spread(t, size))
    else Ok(Rekey(t, size))
  }

  /** BigInteger.valueOf(n).gcd(BigInteger.valueOf(k)).intValue(): the gcd
      of the absolute values, narrowed to int (only 2^31 wraps). */
  function GcdInt(n: int32, k: int32): (g: int32)
    ensures g == 0 <==> n == 0 && k == 0
    ensures g > 0 ==> g == Gcd(Abs(n), Abs(k))
  {
    var a, b := Abs(n), Abs(k);
    if a == 0 && b == 0 then 0
    else
      GcdDivides(a, b);
      GcdAtMostMax(a, b);
      var r := Gcd(a, b);
      if r == 0x8000_0000 then -0x8000_0000 else r as int32
  }

  /** A positive gcd is at most the larger argument. */
  lemma GcdAtMostMax(a: nat, b: nat)
    requires a > 0 || b > 0
    ensures Gcd(a, b) <= a || Gcd(a, b) <= b
  {
    GcdDivides(a, b);
    if a > 0 {
      GcdAtMost(a, Gcd(a, b));
    } else {
      GcdAtMost(b, Gcd(a, b));
    }
  }

  /** The loop over big-table buckets 0 .. upTo - 1 of lines 574-577. */
  function Spreading<V>(rem: Multimap<V>, g: int, upTo: nat): Multimap<V>
    requires g != 0
  {
    if upTo == 0 then []
    else PutAll(Spreading(rem, g, upTo - 1), upTo - 1, Get(rem, JavaRem(upTo - 1, g)))
  }

  /** The SMB redistribution of lines 558-580: group the map by remainder
      modulo g, then give every big-table bucket the splits of its class. */
  function Redistribute<V>(m: Multimap<V>, numBuckets: int, g: int): Multimap<V>
    requires g != 0
  {
    Spreading(Rekey(m, g), g, if numBuckets < 0 then 0 else numBuckets)
  }

  /** getBucketSplitMapForBucket. */
  function BucketSplitMap(conf: VertexConf, inputName: string, t: SplitTable): (r: Result<Multimap<HiveSplit>>)
    ensures r == Err(MissingBucketMapping) <==> !HasBucketSize(conf, inputName)
    ensures r == Err(DivisionByZero) <==>
              HasBucketSize(conf, inputName) && t != [] && InputBucketSize(conf, inputName) == 0
    ensures r.Err? ==> r.error in {MissingBucketMapping, DivisionByZero}
    ensures r.Ok? ==> Wf(r.value)
  {
    if !HasBucketSize(conf, inputName) then Err(MissingBucketMapping)
    else
      var size := InputBucketSize(conf, inputName);
      match InitialMap(t, size)
      case Err(e) => Err(e)
      case Ok(m) =>
        assert Wf(m) by {
          if t != [] {
            if HasNegativeKey(t) { SpreadWf(t, size); } else { RekeyWf(t, size); }
          }
        }
        if IsSmbJoin(conf) && conf.numBuckets != size then
          var g := GcdInt(conf.numBuckets, size);
          RekeyWf(m, g);
          SpreadingWf(Rekey(m, g), g, if conf.numBuckets < 0 then 0 else conf.numBuckets as int);
          Ok(Redistribute(m, conf.numBuckets, g))
        else Ok(m)
  }

  /** The check of lines 229-230: every bucket lies in [0, numBuckets). */
  predicate KeysInRange<V>(m: Multimap<V>, numBuckets: int)
  {
    forall i :: 0 <= i < |m| ==> 0 <= m[i].key < numBuckets
  }

  // ---------------------------------------------------------------------
  // Properties of the loops

  lemma {:induction false} RekeyWf<V>(m: Multimap<V>, d: int)
    requires d != 0
    ensures Wf(Rekey(m, d))
  {
    if m != [] {
      var n := |m| - 1;
      RekeyWf(m[..n], d);
      PutAllWf(Rekey(m[..n], d), JavaRem(m[n].key, d), m[n].values);
    }
  }

  lemma {:induction false} SpreadWf<V>(m: Multimap<V>, d: int)
    requires d != 0
    ensures Wf(Spread(m, d))
  {
    if m != [] {
      var n := |m| - 1;
      SpreadWf(m[..n], d);
      PutAllWf(Spread(m[..n], d), JavaRem(n, d), m[n].values);
    }
  }

  lemma {:induction false} SpreadingWf<V>(rem: Multimap<V>, g: int, upTo: nat)
    requires g != 0
    ensures Wf(Spreading(rem, g, upTo))
  {
    if upTo > 0 {
      SpreadingWf(rem, g, upTo - 1);
      PutAllWf(Spreading(rem, g, upTo - 1), upTo - 1, Get(rem, JavaRem(upTo - 1, g)));
    }
  }

  /** The explicit-id loop keeps every split: the values of the result are
      those of the table, with multiplicity. */
  lemma {:induction false} RekeyKeepsValues<V>(m: Multimap<V>, d: int)
    requires d != 0
    ensures multiset(Values(Rekey(m, d))) == multiset(Values(m))
  {
    if m != [] {
      var n := |m| - 1;
      RekeyKeepsValues(m[..n], d);
      ValuesPutAll(Rekey(m[..n], d), JavaRem(m[n].key, d), m[n].values);
    }
  }

  /** The fallback loop keeps every split as well. */
  lemma {:induction false} SpreadKeepsValues<V>(m: Multimap<V>, d: int)
    requires d != 0
    ensures multiset(Values(Spread(m, d))) == multiset(Values(m))
  {
    if m != [] {
      var n := |m| - 1;
      SpreadKeepsValues(m[..n], d);
      ValuesPutAll(Spread(m[..n], d), JavaRem(n, d), m[n].values);
    }
  }

  /** A value lies under bucket k after re-keying iff some entry holding it
      has a key whose remainder is k. */
  lemma {:induction false} RekeyGet<V>(m: Multimap<V>, d: int, k: int, x: V)
    requires d != 0
    ensures x in Get(Rekey(m, d), k) <==>
              exists i :: 0 <= i < |m| && JavaRem(m[i].key, d) == k && x in m[i].values
  {
    if m != [] {
      var n := |m| - 1;
      var pre := m[..n];
      RekeyGet(pre, d, k, x);
      RekeyWf(pre, d);
      PutAllGet(Rekey(pre, d), JavaRem(m[n].key, d), m[n].values, k);
      assert forall i :: 0 <= i < n ==> pre[i] == m[i];
    }
  }

  /** A value lies under bucket k after the fallback iff it came from an
      entry at a position whose remainder is k. */
  lemma {:induction false} SpreadGet<V>(m: Multimap<V>, d: int, k: int, x: V)
    requires d != 0
    ensures x in Get(Spread(m, d), k) <==>
              exists i :: 0 <= i < |m| && JavaRem(i, d) == k && x in m[i].values
  {
    if m != [] {
      var n := |m| - 1;
      var pre := m[..n];
      SpreadGet(pre, d, k, x);
      SpreadWf(pre, d);
      PutAllGet(Spread(pre, d), JavaRem(n, d), m[n].values, k);
      assert forall i :: 0 <= i < n ==> pre[i] == m[i];
    }
  }

  /** Re-keying non-negative keys lands every key in [0, |d|). */
  lemma {:induction false} RekeyKeysBounded<V>(m: Multimap<V>, d: int)
    requires d != 0
    requires forall i :: 0 <= i < |m| ==> m[i].key >= 0
    ensures KeysInRange(Rekey(m, d), Abs(d))
  {
    if m != [] {
      var n := |m| - 1;
      var pre := m[..n];
      assert forall i :: 0 <= i < n ==> pre[i] == m[i];
      RekeyKeysBounded(pre, d);
      var r := Rekey(m, d);
      PutAllKeys(Rekey(pre, d), JavaRem(m[n].key, d), m[n].values);
      forall i | 0 <= i < |r| ensures 0 <= r[i].key < Abs(d) {
        assert r[i].key in Keys(r);
        if r[i].key != JavaRem(m[n].key, d) {
          var j :| 0 <= j < |Rekey(pre, d)| && Rekey(pre, d)[j].key == r[i].key;
        }
      }
    }
  }

  /** The fallback lands every key in [0, |d|). */
  lemma {:induction false} SpreadKeysBounded<V>(m: Multimap<V>, d: int)
    requires d != 0
    ensures KeysInRange(Spread(m, d), Abs(d))
  {
    if m != [] {
      var n := |m| - 1;
      var pre := m[..n];
      SpreadKeysBounded(pre, d);
      var r := Spread(m, d);
      PutAllKeys(Spread(pre, d), JavaRem(n, d), m[n].values);
      forall i | 0 <= i < |r| ensures 0 <= r[i].key < Abs(d) {
        assert r[i].key in Keys(r);
        if r[i].key != JavaRem(n, d) {
          var j :| 0 <= j < |Spread(pre, d)| && Spread(pre, d)[j].key == r[i].key;
        }
      }
    }
  }

  /** Big-table bucket b receives exactly the class of its remainder, and
      only buckets below upTo receive anything. */
  lemma {:induction false} SpreadingGet<V>(rem: Multimap<V>, g: int, upTo: nat, b: int)
    requires g != 0
    ensures Get(Spreading(rem, g, upTo), b) == if 0 <= b < upTo then Get(rem, JavaRem(b, g)) else []
  {
    if upTo > 0 {
      var top := upTo - 1;
      var pre := Spreading(rem, g, top);
      var vs := Get(rem, JavaRem(top, g));
      SpreadingGet(rem, g, top, b);
      SpreadingWf(rem, g, top);
      PutAllGet(pre, top, vs, b);
      assert Spreading(rem, g, upTo) == PutAll(pre, top, vs);
      if b == top {
        assert Get(pre, b) + vs == vs;
      } else {
        assert Get(pre, b) + [] == Get(pre, b);
      }
    }
  }

  lemma {:induction false} SpreadingKeys<V>(rem: Multimap<V>, g: int, upTo: nat)
    requires g != 0
    ensures KeysInRange(Spreading(rem, g, upTo), upTo)
  {
    if upTo > 0 {
      SpreadingKeys(rem, g, upTo - 1);
      var pre := Spreading(rem, g, upTo - 1);
      var r := Spreading(rem, g, upTo);
      PutAllKeys(pre, upTo - 1, Get(rem, JavaRem(upTo - 1, g)));
      forall i | 0 <= i < |r| ensures 0 <= r[i].key < upTo {
        assert r[i].key in Keys(r);
        if r[i].key != upTo - 1 {
          var j :| 0 <= j < |pre| && pre[j].key == r[i].key;
        }
      }
    }
  }

  /** The redistribution: big bucket b (0 <= b < numBuckets) holds a split
      iff the split sat under a small bucket with b's remainder modulo g. */
  lemma RedistributeGet<V>(m: Multimap<V>, numBuckets: int, g: int, b: int, x: V)
    requires g != 0
    ensures x in Get(Redistribute(m, numBuckets, g), b) <==>
              0 <= b < numBuckets &&
              exists i :: 0 <= i < |m| && JavaRem(m[i].key, g) == JavaRem(b, g) && x in m[i].values
    ensures KeysInRange(Redistribute(m, numBuckets, g), numBuckets)
  {
    var upTo := if numBuckets < 0 then 0 else numBuckets;
    SpreadingGet(Rekey(m, g), g, upTo, b);
    if 0 <= b < numBuckets {
      RekeyGet(m, g, JavaRem(b, g), x);
    }
    SpreadingKeys(Rekey(m, g), g, upTo);
  }

  // ---------------------------------------------------------------------
  // What getBucketSplitMapForBucket promises

  /** The main input keeps every split of the table, and with a positive
      bucket count every key passes the range check. */
  lemma MainInputMap(conf: VertexConf, inputName: string, t: SplitTable)
    requires IsMainWork(conf, inputName) && conf.numBuckets > 0
    ensures BucketSplitMap(conf, inputName, t).Ok?
    ensures multiset(Values(BucketSplitMap(conf, inputName, t).value)) == multiset(Values(t))
    ensures KeysInRange(BucketSplitMap(conf, inputName, t).value, conf.numBuckets)
  {
    var size := conf.numBuckets as int;
    if t != [] {
      if HasNegativeKey(t) {
        SpreadKeepsValues(t, size);
        SpreadKeysBounded(t, size);
      } else {
        RekeyKeepsValues(t, size);
        RekeyKeysBounded(t, size);
      }
    }
  }

  /** The explicit-id path: when no key is negative and no redistribution
      applies, a split lies under bucket k iff its table key has remainder k
      modulo the input's bucket count. */
  lemma ExplicitPath(conf: VertexConf, inputName: string, t: SplitTable, k: int, x: HiveSplit)
    requires HasBucketSize(conf, inputName) && InputBucketSize(conf, inputName) != 0
    requires !HasNegativeKey(t)
    requires !(IsSmbJoin(conf) && conf.numBuckets != InputBucketSize(conf, inputName))
    ensures BucketSplitMap(conf, inputName, t).Ok?
    ensures x in Get(BucketSplitMap(conf, inputName, t).value, k) <==>
              exists i :: 0 <= i < |t| && JavaRem(t[i].key, InputBucketSize(conf, inputName)) == k && x in t[i].values
  {
    RekeyGet(t, InputBucketSize(conf, inputName) as int, k, x);
  }

  /** The fallback path: with some negative key and no redistribution, the
      i-th set in ascending key order lies under bucket i modulo the input's
      bucket count. */
  lemma FallbackPath(conf: VertexConf, inputName: string, t: SplitTable, k: int, x: HiveSplit)
    requires HasBucketSize(conf, inputName) && InputBucketSize(conf, inputName) != 0
    requires HasNegativeKey(t)
    requires !(IsSmbJoin(conf) && conf.numBuckets != InputBucketSize(conf, inputName))
    ensures BucketSplitMap(conf, inputName, t).Ok?
    ensures x in Get(BucketSplitMap(conf, inputName, t).value, k) <==>
              exists i :: 0 <= i < |t| && JavaRem(i, InputBucketSize(conf, inputName)) == k && x in t[i].values
  {
    SpreadGet(t, InputBucketSize(conf, inputName) as int, k, x);
  }

  /** The SMB side table with k buckets in front of a big table with n: every
      resulting key lies in [0, n), and big bucket b holds exactly the splits
      of the small buckets s (s = table key mod k) that some row hash
      s + j * k sends to b, i.e. those with s = b modulo gcd(n, k). */
  lemma SmbSideRedistribution(conf: VertexConf, inputName: string, t: SplitTable, b: int, x: HiveSplit)
    requires !IsMainWork(conf, inputName) && HasBucketSize(conf, inputName)
    requires 0 < InputBucketSize(conf, inputName) != conf.numBuckets && 0 < conf.numBuckets
    requires !HasNegativeKey(t)
    ensures BucketSplitMap(conf, inputName, t).Ok?
    ensures KeysInRange(BucketSplitMap(conf, inputName, t).value, conf.numBuckets)
    ensures x in Get(BucketSplitMap(conf, inputName, t).value, b) <==>
              0 <= b < conf.numBuckets &&
              exists i :: 0 <= i < |t| && x in t[i].values &&
                Reaches(t[i].key % InputBucketSize(conf, inputName), InputBucketSize(conf, inputName), conf.numBuckets, b)
  {
    var k := InputBucketSize(conf, inputName) as int;
    var n := conf.numBuckets as int;
    var g := GcdInt(conf.numBuckets, k as int32);
    GcdDivides(n, k);
    GcdAtMostMax(n, k);
    assert g == Gcd(n, k);
    assert BucketSplitMap(conf, inputName, t) == Ok(Redistribute(Rekey(t, k), n, g));
    RedistributeGet(Rekey(t, k), n, g, b, x);
    RedistributedTable(t, k, n, b, x);
  }

  /** The SMB side table without usable bucket ids: the fallback map is
      redistributed in the same way. Every key lies in [0, n), and big bucket
      b holds exactly the sets whose position i in key order gives a small
      bucket i mod k that some row hash sends to b. */
  lemma SmbSideFallbackRedistribution(conf: VertexConf, inputName: string, t: SplitTable, b: int, x: HiveSplit)
    requires !IsMainWork(conf, inputName) && HasBucketSize(conf, inputName)
    requires 0 < InputBucketSize(conf, inputName) != conf.numBuckets && 0 < conf.numBuckets
    requires HasNegativeKey(t)
    ensures BucketSplitMap(conf, inputName, t).Ok?
    ensures KeysInRange(BucketSplitMap(conf, inputName, t).value, conf.numBuckets)
    ensures x in Get(BucketSplitMap(conf, inputName, t).value, b) <==>
              0 <= b < conf.numBuckets &&
              exists i :: 0 <= i < |t| && x in t[i].values &&
                Reaches(i % InputBucketSize(conf, inputName), InputBucketSize(conf, inputName), conf.numBuckets, b)
  {
    var k := InputBucketSize(conf, inputName) as int;
    var n := conf.numBuckets as int;
    var g := GcdInt(conf.numBuckets, k as int32);
    GcdDivides(n, k);
    GcdAtMostMax(n, k);
    assert g == Gcd(n, k);
    assert BucketSplitMap(conf, inputName, t) == Ok(Redistribute(Spread(t, k), n, g));
    RedistributeGet(Spread(t, k), n, g, b, x);
    RedistributedFallback(t, k, n, b, x);
  }

  /** The redistribution of the fallback map, in terms of row hashes. */
  lemma RedistributedFallback(t: SplitTable, k: nat, n: nat, b: int, x: HiveSplit)
    requires 0 < k && 0 < n
    ensures Gcd(n, k) > 0
    ensures x in Get(Redistribute(Spread(t, k), n, Gcd(n, k)), b) <==>
              0 <= b < n &&
              exists i :: 0 <= i < |t| && x in t[i].values && Reaches(i % k, k, n, b)
  {
    GcdDivides(n, k);
    var g := Gcd(n, k);
    var m := Spread(t, k);
    RedistributeGet(m, n, g, b, x);
    if 0 <= b < n {
      if exists i :: 0 <= i < |m| && JavaRem(m[i].key, g) == JavaRem(b, g) && x in m[i].values {
        var i :| 0 <= i < |m| && JavaRem(m[i].key, g) == JavaRem(b, g) && x in m[i].values;
        SpreadKeysBounded(t, k);
        SpreadWf(t, k);
        GetAt(m, i);
        SpreadGet(t, k, m[i].key, x);
        var j :| 0 <= j < |t| && JavaRem(j, k) == m[i].key && x in t[j].values;
        ReachesIffSameRemainder(j % k, k, n, b);
      }
      if exists j :: 0 <= j < |t| && x in t[j].values && Reaches(j % k, k, n, b) {
        var j :| 0 <= j < |t| && x in t[j].values && Reaches(j % k, k, n, b);
        var s := j % k;
        ReachesIffSameRemainder(s, k, n, b);
        SpreadGet(t, k, s, x);
        InValuesUnderKey(m, s, x);
        var i :| 0 <= i < |m| && m[i].key == s && x in m[i].values;
      }
    }
  }

  /** The redistribution of a re-keyed table, in terms of row hashes. */
  lemma RedistributedTable(t: SplitTable, k: nat, n: nat, b: int, x: HiveSplit)
    requires 0 < k && 0 < n && !HasNegativeKey(t)
    ensures Gcd(n, k) > 0
    ensures x in Get(Redistribute(Rekey(t, k), n, Gcd(n, k)), b) <==>
              0 <= b < n &&
              exists i :: 0 <= i < |t| && x in t[i].values && Reaches(t[i].key % k, k, n, b)
  {
    GcdDivides(n, k);
    var g := Gcd(n, k);
    var m := Rekey(t, k);
    RedistributeGet(m, n, g, b, x);
    if 0 <= b < n {
      if exists i :: 0 <= i < |m| && JavaRem(m[i].key, g) == JavaRem(b, g) && x in m[i].values {
        var i :| 0 <= i < |m| && JavaRem(m[i].key, g) == JavaRem(b, g) && x in m[i].values;
        RekeyKeysBounded(t, k);
        var j := SmbForward(t, k, n, b, i, x);
      }
      if exists i :: 0 <= i < |t| && x in t[i].values && Reaches(t[i].key % k, k, n, b) {
        var j :| 0 <= j < |t| && x in t[j].values && Reaches(t[j].key % k, k, n, b);
        var i := SmbBackward(t, k, n, b, j, x);
        RekeyKeysBounded(t, k);
      }
    }
  }

  /** From an entry of the remainder map back to a table entry. */
  lemma SmbForward(t: SplitTable, k: nat, n: nat, b: nat, i: int, x: HiveSplit) returns (j: int)
    requires 0 < k && 0 < n && b < n && !HasNegativeKey(t)
    requires 0 <= i < |Rekey(t, k)| && x in Rekey(t, k)[i].values
    requires Gcd(n, k) > 0 && Rekey(t, k)[i].key % Gcd(n, k) == b % Gcd(n, k)
    ensures 0 <= j < |t| && x in t[j].values && Reaches(t[j].key % k, k, n, b)
  {
    var m := Rekey(t, k);
    RekeyWf(t, k);
    GetAt(m, i);
    RekeyGet(t, k, m[i].key, x);
    j :| 0 <= j < |t| && JavaRem(t[j].key, k) == m[i].key && x in t[j].values;
    ReachesIffSameRemainder(t[j].key % k, k, n, b);
  }

  /** From a table entry to the entry of the remainder map it lands in. */
  lemma SmbBackward(t: SplitTable, k: nat, n: nat, b: nat, j: int, x: HiveSplit) returns (i: int)
    requires 0 < k && 0 < n && b < n && !HasNegativeKey(t)
    requires 0 <= j < |t| && x in t[j].values && Reaches(t[j].key % k, k, n, b)
    ensures Gcd(n, k) > 0
    ensures 0 <= i < |Rekey(t, k)| && x in Rekey(t, k)[i].values
    ensures Rekey(t, k)[i].key % Gcd(n, k) == b % Gcd(n, k)
  {
    var m := Rekey(t, k);
    var s := t[j].key % k;
    ReachesIffSameRemainder(s, k, n, b);
    RekeyGet(t, k, s, x);
    InValuesUnderKey(m, s, x);
    i :| 0 <= i < |m| && m[i].key == s && x in m[i].values;
  }

  lemma GcdAtMost(n: nat, g: nat)
    requires 0 < n && 0 < g && n % g == 0
    ensures g <= n
  {
    var q := n / g;
    assert n == q * g;
    MulBound(q, g);
  }

  /** A value under key k of a well-formed multimap lies in the entry with
      key k. */
  lemma InValuesUnderKey<V>(m: Multimap<V>, k: int, x: V)
    requires x in Get(m, k)
    ensures exists i :: 0 <= i < |m| && m[i].key == k && x in m[i].values
  {
    var i := Find(m, k);
  }

  /** The example in the source comment: with 6 big-table buckets and 4
      small-table buckets, small bucket 1 feeds big buckets 1, 3 and 5. */
  lemma SixAndFourBuckets(b: int)
    requires 0 <= b < 6
    ensures Reaches(1, 4, 6, b) <==> b in {1, 3, 5}
  {
    ReachesIffSameRemainder(1, 4, 6, b);
    assert Gcd(6, 4) == 2;
  }
}
