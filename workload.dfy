/** The workload run() drives once the cluster is up: set key-1 .. key-n on nodes picked at
    random, read every key back from each node of a random sample, compute the two averages,
    and stop every node. Picks and the sample are supplied as sequences of positions in
    `nodes`; timings are not modelled, so an average is described by its divisor. */
module Workload {
  import opened Dht

  /** The number of iterations of range(1, n + 1): none when n < 1. */
  function Count(n: int): nat
  {
    if n >= 1 then n else 0
  }

  /** The first `count` picks are positions in a list of `size` nodes (random.choice stays in
      range). */
  predicate PicksFit(picks: seq<nat>, count: nat, size: nat)
  {
    && count <= |picks|
    && forall j :: 0 <= j < count ==> picks[j] < size
  }

  /** The set calls for keys 1 .. count: key j + 1 goes to the node at position picks[j]. */
  function SetCalls(nodes: seq<Server>, picks: seq<nat>, count: nat): seq<Call>
    requires PicksFit(picks, count, |nodes|)
  {
    if count == 0 then []
    else SetCalls(nodes, picks, count - 1) + [Set(nodes[picks[count - 1]].id, KeyName(count), ValueName(count))]
  }

  /** The set loop: `count` calls, the j-th one stores value-(j + 1) under key-(j + 1) on the
      picked node. */
  lemma {:induction false} SetCallAt(nodes: seq<Server>, picks: seq<nat>, count: nat, j: nat)
    requires PicksFit(picks, count, |nodes|)
    ensures |SetCalls(nodes, picks, count)| == count
    ensures j < count ==> SetCalls(nodes, picks, count)[j] == Set(nodes[picks[j]].id, KeyName(j + 1), ValueName(j + 1))
  {
    if count > 0 {
      SetCallAt(nodes, picks, count - 1, j);
    }
  }

  /** No key is set twice: different set calls use different keys and different values. */
  lemma SetKeysDistinct(nodes: seq<Server>, picks: seq<nat>, count: nat, j: nat, k: nat)
    requires PicksFit(picks, count, |nodes|)
    requires j < k < count
    ensures var calls := SetCalls(nodes, picks, count);
              && |calls| == count && calls[j].Set? && calls[k].Set?
              && calls[j].key != calls[k].key && calls[j].value != calls[k].value
  {
    SetCallAt(nodes, picks, count, j);
    SetCallAt(nodes, picks, count, k);
    NamesInjective(j + 1, k + 1);
  }

  /** Lines 64-70: the set loop, one set per key on a picked node. */
  method SetPhase(nodes: seq<Server>, numSets: int, picks: seq<nat>) returns (calls: seq<Call>)
    requires PicksFit(picks, Count(numSets), |nodes|)
    ensures calls == SetCalls(nodes, picks, Count(numSets))
  {
    calls := [];
    var i := 1;
    while i <= numSets
      invariant 1 <= i <= Count(numSets) + 1
      invariant calls == SetCalls(nodes, picks, i - 1)
    {
      var node := nodes[picks[i - 1]];
      calls := calls + [Set(node.id, KeyName(i), ValueName(i))];
      i := i + 1;
    }
  }

  /** `sample` is what random.sample(population, k) may return, as positions: k distinct
      positions of a population of `size`. */
  predicate IsSample(sample: seq<nat>, k: nat, size: nat)
  {
    && |sample| == k
    && (forall j :: 0 <= j < k ==> sample[j] < size)
    && (forall j, l :: 0 <= j < l < k ==> sample[j] != sample[l])
  }

  /** The nodes at the sampled positions, in sample order. */
  function Picked(nodes: seq<Server>, sample: seq<nat>): (chosen: seq<Server>)
    requires forall j :: 0 <= j < |sample| ==> sample[j] < |nodes|
    ensures |chosen| == |sample|
  {
    if sample == [] then [] else Picked(nodes, sample[..|sample| - 1]) + [nodes[sample[|sample| - 1]]]
  }

  /** The j-th chosen node is the node at the j-th sampled position. */
  lemma {:induction false} PickedAt(nodes: seq<Server>, sample: seq<nat>, j: nat)
    requires forall l :: 0 <= l < |sample| ==> sample[l] < |nodes|
    requires j < |sample|
    ensures Picked(nodes, sample)[j] == nodes[sample[j]]
  {
    var n := |sample|;
    if j < n - 1 {
      PickedAt(nodes, sample[..n - 1], j);
    }
  }

  /** One node's reads: keys 1 .. m in order. */
  function Sweep(node: nat, m: nat): seq<Call>
  {
    if m == 0 then [] else Sweep(node, m - 1) + [Get(node, KeyName(m))]
  }

  /** The i-th read of a sweep asks for key-(i + 1). */
  lemma {:induction false} SweepAt(node: nat, m: nat, i: nat)
    ensures |Sweep(node, m)| == m
    ensures i < m ==> Sweep(node, m)[i] == Get(node, KeyName(i + 1))
  {
    if m > 0 {
      SweepAt(node, m - 1, i);
    }
  }

  /** The get calls: every chosen node, in order, reads keys 1 .. m. */
  function GetCalls(chosen: seq<Server>, m: nat): seq<Call>
  {
    if chosen == [] then [] else GetCalls(chosen[..|chosen| - 1], m) + Sweep(chosen[|chosen| - 1].id, m)
  }

  lemma MulSucc(n: nat, m: nat)
    ensures n * m + m == (n + 1) * m
  {
  }

  lemma MulComm(a: int, b: int)
    ensures a * b == b * a
  {
  }

  /** A product is zero exactly when one of its factors is. */
  lemma ProductZero(a: int, b: int)
    ensures a * b == 0 <==> a == 0 || b == 0
  {
  }

  /** The get loops make |chosen| * m calls. */
  lemma {:induction false} GetCallsCount(chosen: seq<Server>, m: nat)
    ensures |GetCalls(chosen, m)| == |chosen| * m
  {
    if chosen != [] {
      var n := |chosen|;
      GetCallsCount(chosen[..n - 1], m);
      SweepAt(chosen[n - 1].id, m, 0);
      MulSucc(n - 1, m);
    }
  }

  /** Call t * m + i of the get loops is chosen node t reading key-(i + 1). */
  lemma {:induction false} GetCallAt(chosen: seq<Server>, m: nat, t: nat, i: nat)
    requires t < |chosen| && i < m
    ensures t * m + i < |GetCalls(chosen, m)|
    ensures GetCalls(chosen, m)[t * m + i] == Get(chosen[t].id, KeyName(i + 1))
  {
    var n := |chosen|;
    var front := chosen[..n - 1];
    GetCallsCount(front, m);
    SweepAt(chosen[n - 1].id, m, i);
    assert GetCalls(chosen, m) == GetCalls(front, m) + Sweep(chosen[n - 1].id, m);
    if t < n - 1 {
      GetCallAt(front, m, t, i);
      assert front[t] == chosen[t];
    } else {
      assert t * m == (n - 1) * m;
    }
  }

  /** Lines 73-79: random.sample raises unless 0 <= num_gets <= len(nodes); otherwise each
      sampled node reads every key that the set loop wrote, key-1 first. */
  method GetPhase(nodes: seq<Server>, numSets: int, numGets: int, sample: seq<nat>)
    returns (r: Outcome<seq<Call>>)
    requires 0 <= numGets <= |nodes| ==> IsSample(sample, numGets, |nodes|)
    ensures r.Raised? <==> numGets < 0 || numGets > |nodes|
    ensures r.Raised? ==> r.abort == SampleRejected
    ensures r.Ok? ==> r.value == GetCalls(Picked(nodes, sample), Count(numSets))
  {
    if numGets < 0 || numGets > |nodes| {
      return Raised(SampleRejected);
    }
    var chosen := Picked(nodes, sample);
    var calls: seq<Call> := [];
    for t := 0 to |chosen|
      invariant calls == GetCalls(chosen[..t], Count(numSets))
    {
      var node := chosen[t];
      var done := calls;
      var i := 1;
      while i <= numSets
        invariant 1 <= i <= Count(numSets) + 1
        invariant calls == done + Sweep(node.id, i - 1)
      {
        calls := calls + [Get(node.id, KeyName(i))];
        i := i + 1;
      }
      assert chosen[..t + 1][..t] == chosen[..t];
    }
    assert chosen[..|chosen|] == chosen;
    return Ok(calls);
  }

  /** Lines 81-82: the divisors of the two averages, or the ZeroDivisionError the first zero
      divisor raises. */
  function AverageDivisors(numSets: int, numGets: int): (r: Outcome<(int, int)>)
  {
    if numSets == 0 then Raised(SetAverageByZero)
    else if numSets * numGets == 0 then Raised(GetAverageByZero)
    else Ok((numSets, numSets * numGets))
  }

  /** Both averages are computed exactly when neither count is zero; a zero number of sets
      fails at the first average already. */
  lemma AverageDivisorsZero(numSets: int, numGets: int)
    ensures AverageDivisors(numSets, numGets).Ok? <==> numSets != 0 && numGets != 0
    ensures AverageDivisors(numSets, numGets) == Raised(SetAverageByZero) <==> numSets == 0
    ensures AverageDivisors(numSets, numGets) == Raised(GetAverageByZero) <==> numSets != 0 && numGets == 0
  {
    ProductZero(numSets, numGets);
  }

  /** For a positive number of sets and a drawn sample, each divisor is the number of calls
      its average is taken over. */
  lemma AverageDivisorsCountCalls(nodes: seq<Server>, picks: seq<nat>, sample: seq<nat>, numSets: int)
    requires numSets > 0 && |sample| > 0
    requires PicksFit(picks, numSets, |nodes|)
    requires forall j :: 0 <= j < |sample| ==> sample[j] < |nodes|
    ensures AverageDivisors(numSets, |sample|).Ok?
    ensures AverageDivisors(numSets, |sample|).value.0 == |SetCalls(nodes, picks, numSets)|
    ensures AverageDivisors(numSets, |sample|).value.1 == |GetCalls(Picked(nodes, sample), numSets)|
  {
    var chosen := Picked(nodes, sample);
    assert |chosen| == |sample|;
    ProductZero(numSets, |sample|);
    SetCallAt(nodes, picks, numSets, 0);
    GetCallsCount(chosen, numSets);
    MulComm(|chosen|, numSets);
  }

  /** The stop calls of lines 88-89, one per node in list order. */
  function StopCalls(nodes: seq<Server>): seq<Call>
  {
    if nodes == [] then [] else StopCalls(nodes[..|nodes| - 1]) + [Stop(nodes[|nodes| - 1].id)]
  }

  /** The k-th stop call stops the k-th node. */
  lemma {:induction false} StopCallAt(nodes: seq<Server>, k: nat)
    ensures |StopCalls(nodes)| == |nodes|
    ensures k < |nodes| ==> StopCalls(nodes)[k] == Stop(nodes[k].id)
  {
    if nodes != [] {
      var n := |nodes|;
      StopCallAt(nodes[..n - 1], k);
      if k < n - 1 {
        assert nodes[..n - 1][k] == nodes[k];
      }
    }
  }

  /** Lines 88-89: stop every node. */
  method Shutdown(nodes: seq<Server>) returns (calls: seq<Call>)
    ensures calls == StopCalls(nodes)
  {
    calls := [];
    for k := 0 to |nodes|
      invariant calls == StopCalls(nodes[..k])
    {
      assert nodes[..k + 1][..k] == nodes[..k];
      calls := calls + [Stop(nodes[k].id)];
    }
    assert nodes[..|nodes|] == nodes;
  }

  /** The set and get loops never stop a node. */
  lemma {:induction false} WorkloadNoStop(nodes: seq<Server>, picks: seq<nat>, chosen: seq<Server>, m: nat)
    requires PicksFit(picks, m, |nodes|)
    ensures NoStop(SetCalls(nodes, picks, m))
    ensures NoStop(GetCalls(chosen, m))
  {
    forall j | 0 <= j < |SetCalls(nodes, picks, m)|
      ensures !SetCalls(nodes, picks, m)[j].Stop?
    {
      SetCallAt(nodes, picks, m, j);
    }
    if chosen != [] {
      var n := |chosen|;
      WorkloadNoStop(nodes, picks, chosen[..n - 1], m);
      var sweep := Sweep(chosen[n - 1].id, m);
      forall i | 0 <= i < |sweep|
        ensures !sweep[i].Stop?
      {
        SweepAt(chosen[n - 1].id, m, i);
      }
      NoStopAppend(GetCalls(chosen[..n - 1], m), sweep);
    }
  }

  /** The calls of lines 64-79: sets, then the reads of the sampled nodes. */
  function ReadWriteCalls(nodes: seq<Server>, numSets: int, picks: seq<nat>, sample: seq<nat>): seq<Call>
    requires PicksFit(picks, Count(numSets), |nodes|)
    requires forall j :: 0 <= j < |sample| ==> sample[j] < |nodes|
  {
    SetCalls(nodes, picks, Count(numSets)) + GetCalls(Picked(nodes, sample), Count(numSets))
  }

  /** The set and get loops stop no node, and neither does the set loop alone. */
  lemma ReadWriteNoStop(nodes: seq<Server>, numSets: int, picks: seq<nat>, sample: seq<nat>)
    requires PicksFit(picks, Count(numSets), |nodes|)
    requires forall j :: 0 <= j < |sample| ==> sample[j] < |nodes|
    ensures NoStop(SetCalls(nodes, picks, Count(numSets)))
    ensures NoStop(ReadWriteCalls(nodes, numSets, picks, sample))
  {
    var m := Count(numSets);
    WorkloadNoStop(nodes, picks, Picked(nodes, sample), m);
    NoStopAppend(SetCalls(nodes, picks, m), GetCalls(Picked(nodes, sample), m));
  }

  /** The calls of lines 63-89 when they all run: sets, then gets, then stops. */
  function WorkloadCalls(nodes: seq<Server>, numSets: int, picks: seq<nat>, sample: seq<nat>): seq<Call>
    requires PicksFit(picks, Count(numSets), |nodes|)
    requires forall j :: 0 <= j < |sample| ==> sample[j] < |nodes|
  {
    ReadWriteCalls(nodes, numSets, picks, sample) + StopCalls(nodes)
  }

  /** A run past the averages stops every node exactly once, in list order, after every
      other call: the last |nodes| calls stop nodes[0], nodes[1], ... and no set or get
      call stops a node. */
  lemma WorkloadStopsEveryNode(nodes: seq<Server>, numSets: int, picks: seq<nat>, sample: seq<nat>, k: nat)
    requires PicksFit(picks, Count(numSets), |nodes|)
    requires forall j :: 0 <= j < |sample| ==> sample[j] < |nodes|
    requires k < |nodes|
    ensures var c := WorkloadCalls(nodes, numSets, picks, sample);
              |c| >= |nodes| && c[|c| - |nodes| + k] == Stop(nodes[k].id)
    ensures var c := WorkloadCalls(nodes, numSets, picks, sample);
              |c| >= |nodes| && NoStop(c[..|c| - |nodes|])
  {
    var before := ReadWriteCalls(nodes, numSets, picks, sample);
    var c := WorkloadCalls(nodes, numSets, picks, sample);
    StopCallAt(nodes, k);
    ReadWriteNoStop(nodes, numSets, picks, sample);
    assert c[..|c| - |nodes|] == before;
  }

  /** Lines 63-89 on a built cluster: the set loop, the get loops, the averages and the
      stops. random.sample rejects a sample size outside 0 .. len(nodes), after every set
      call; past it the run ends as the averages do, a zero divisor raising after every set
      and get call. A completed run makes the set, get and stop calls in that order; a run
      that raises has stopped no node. */
  method RunWorkload(nodes: seq<Server>, numSets: int, numGets: int, picks: seq<nat>, sample: seq<nat>)
    returns (calls: seq<Call>, result: Outcome<(int, int)>)
    requires PicksFit(picks, Count(numSets), |nodes|)
    requires 0 <= numGets <= |nodes| ==> IsSample(sample, numGets, |nodes|)
    ensures numGets < 0 || numGets > |nodes| ==> result == Raised(SampleRejected)
    ensures 0 <= numGets <= |nodes| ==> result == AverageDivisors(numSets, numGets)
    ensures result.Ok? ==> calls == WorkloadCalls(nodes, numSets, picks, sample)
    ensures result == Raised(SampleRejected) ==> calls == SetCalls(nodes, picks, Count(numSets))
    ensures result.Raised? && 0 <= numGets <= |nodes| ==> calls == ReadWriteCalls(nodes, numSets, picks, sample)
    ensures result.Raised? ==> NoStop(calls)
  {
    var m := Count(numSets);
    calls := SetPhase(nodes, numSets, picks);
    WorkloadNoStop(nodes, picks, [], m);
    var got := GetPhase(nodes, numSets, numGets, sample);
    if got.Raised? {
      return calls, Raised(got.abort);
    }
    WorkloadNoStop(nodes, picks, Picked(nodes, sample), m);
    NoStopAppend(calls, got.value);
    calls := calls + got.value;
    result := AverageDivisors(numSets, numGets);
    if result.Raised? {
      return;
    }
    var stopCalls := Shutdown(nodes);
    calls := calls + stopCalls;
  }
}
