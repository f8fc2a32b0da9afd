/** run() as a whole: build the cluster, set the keys, read them back from a sample of
    nodes, compute the averages and stop every node. Everything the run leaves to chance or
    to the network is an Oracle; the run is described by the calls it makes and by how it
    ends. */
module Harness {
  import opened Ports
  import opened Dht
  import opened Bootstrap
  import opened Cluster
  import opened Workload

  /** What node1's bootstrap does, the retry script of every later node, the nodes
      random.choice picks in the set loop and the positions random.sample draws. */
  datatype Oracle = Oracle(seed: BootResult, joins: seq<Script>, setPicks: seq<nat>, sample: seq<nat>)

  /** Every position the oracle picks or draws lies in the node list, and a sample that
      random.sample returns has the requested size. */
  predicate OracleInRange(o: Oracle, numNodes: int, numSets: int, numGets: int)
  {
    && ScriptsFit(o.joins, ClusterSize(numNodes) - 1)
    && PicksFit(o.setPicks, Count(numSets), ClusterSize(numNodes))
    && (0 <= numGets <= ClusterSize(numNodes) ==>
          |o.sample| == numGets && forall j :: 0 <= j < |o.sample| ==> o.sample[j] < ClusterSize(numNodes))
  }

  /** The oracle's choices are ones the random module can make for these arguments: in
      range, and the sampled positions distinct. */
  predicate OracleFits(o: Oracle, numNodes: int, numSets: int, numGets: int)
  {
    && OracleInRange(o, numNodes, numSets, numGets)
    && (0 <= numGets <= ClusterSize(numNodes) ==> IsSample(o.sample, numGets, ClusterSize(numNodes)))
  }

  /** Construction reaches the set loop: node1's bootstrap does not raise and no retry loop
      ends the run at its reap. */
  predicate ClusterBuilt(o: Oracle, numNodes: int)
    requires ScriptsFit(o.joins, ClusterSize(numNodes) - 1)
  {
    o.seed != Error && NoJoinAborts(o.joins, ClusterSize(numNodes) - 1)
  }

  /** How run() ends, stated directly: node1's bootstrap raising ends it first, then the
      first retry loop that ends at its reap, then random.sample rejecting the sample size, then a
      zero divisor; otherwise it completes with the two divisors. */
  function RunResult(numNodes: int, numSets: int, numGets: int, o: Oracle): Outcome<(int, int)>
    requires ScriptsFit(o.joins, ClusterSize(numNodes) - 1)
  {
    var size := ClusterSize(numNodes);
    if o.seed == Error then Raised(SeedBootstrapRaised)
    else if FirstAbort(o.joins, size - 1).Some? then
      Raised(EndedAtReap(FirstAbort(o.joins, size - 1).value.0, FirstAbort(o.joins, size - 1).value.1))
    else if numGets < 0 || numGets > size then Raised(SampleRejected)
    else AverageDivisors(numSets, numGets)
  }

  /** The run reaches its end exactly when construction succeeds, the sample size is between
      1 and the number of nodes, and the number of sets is not zero; each other case ends
      with its own exception, and a completed run averages over num_sets and
      num_sets * num_gets. */
  lemma RunResultMeaning(numNodes: int, numSets: int, numGets: int, o: Oracle)
    requires ScriptsFit(o.joins, ClusterSize(numNodes) - 1)
    ensures RunResult(numNodes, numSets, numGets, o).Ok? <==>
              ClusterBuilt(o, numNodes) && 0 < numGets <= ClusterSize(numNodes) && numSets != 0
    ensures RunResult(numNodes, numSets, numGets, o) == Raised(SeedBootstrapRaised) <==> o.seed == Error
    ensures RunResult(numNodes, numSets, numGets, o).Raised? && RunResult(numNodes, numSets, numGets, o).abort.EndedAtReap? <==>
              o.seed != Error && !NoJoinAborts(o.joins, ClusterSize(numNodes) - 1)
    ensures RunResult(numNodes, numSets, numGets, o) == Raised(SampleRejected) <==>
              ClusterBuilt(o, numNodes) && (numGets < 0 || numGets > ClusterSize(numNodes))
    ensures RunResult(numNodes, numSets, numGets, o) == Raised(SetAverageByZero) <==>
              ClusterBuilt(o, numNodes) && 0 <= numGets <= ClusterSize(numNodes) && numSets == 0
    ensures RunResult(numNodes, numSets, numGets, o) == Raised(GetAverageByZero) <==>
              ClusterBuilt(o, numNodes) && numGets == 0 && numSets != 0
    ensures RunResult(numNodes, numSets, numGets, o).Ok? ==>
              RunResult(numNodes, numSets, numGets, o).value == (numSets, numSets * numGets)
  {
    FirstAbortNone(o.joins, ClusterSize(numNodes) - 1);
    AverageDivisorsZero(numSets, numGets);
  }

  /** The calls run() makes, stated directly: node1's two calls when its bootstrap raises;
      the construction calls up to the reap of the first retry loop that ends the run; and
      otherwise the construction calls followed by the set calls when random.sample rejects
      the sample size, by the set and get calls when an average divides by zero, and by the
      set, get and stop calls when the run completes. */
  function RunCalls(numNodes: int, numSets: int, numGets: int, o: Oracle): seq<Call>
    requires OracleInRange(o, numNodes, numSets, numGets)
  {
    var size := ClusterSize(numNodes);
    var nodes := Nodes(size);
    var first := FirstAbort(o.joins, size - 1);
    if o.seed == Error then SeedCalls()
    else if first.Some? then AbortedClusterCalls(o.joins, first.value.0)
    else if numGets < 0 || numGets > size then
      ClusterCalls(o.joins, size - 1) + SetCalls(nodes, o.setPicks, Count(numSets))
    else if AverageDivisors(numSets, numGets).Raised? then
      ClusterCalls(o.joins, size - 1) + ReadWriteCalls(nodes, numSets, o.setPicks, o.sample)
    else ClusterCalls(o.joins, size - 1) + WorkloadCalls(nodes, numSets, o.setPicks, o.sample)
  }

  /** The log of each way run() can end: a raising seed bootstrap leaves node1's two calls; a
      retry loop that ends the run leaves the construction calls up to that node's reap; a
      rejected sample size leaves the construction and set calls; a zero divisor leaves the
      construction, set and get calls; a completed run adds the stops. */
  lemma RunCallsByOutcome(numNodes: int, numSets: int, numGets: int, o: Oracle)
    requires OracleInRange(o, numNodes, numSets, numGets)
    ensures var result, calls := RunResult(numNodes, numSets, numGets, o), RunCalls(numNodes, numSets, numGets, o);
              result == Raised(SeedBootstrapRaised) ==> calls == SeedCalls()
    ensures var result, calls := RunResult(numNodes, numSets, numGets, o), RunCalls(numNodes, numSets, numGets, o);
              result.Raised? && result.abort.EndedAtReap? ==>
                2 <= result.abort.node <= |o.joins| + 1 && calls == AbortedClusterCalls(o.joins, result.abort.node)
    ensures var result, calls := RunResult(numNodes, numSets, numGets, o), RunCalls(numNodes, numSets, numGets, o);
              result == Raised(SampleRejected) ==>
                calls == ClusterCalls(o.joins, ClusterSize(numNodes) - 1)
                         + SetCalls(Nodes(ClusterSize(numNodes)), o.setPicks, Count(numSets))
    ensures var result, calls := RunResult(numNodes, numSets, numGets, o), RunCalls(numNodes, numSets, numGets, o);
              result == Raised(SetAverageByZero) || result == Raised(GetAverageByZero) ==>
                calls == ClusterCalls(o.joins, ClusterSize(numNodes) - 1)
                         + ReadWriteCalls(Nodes(ClusterSize(numNodes)), numSets, o.setPicks, o.sample)
    ensures var result, calls := RunResult(numNodes, numSets, numGets, o), RunCalls(numNodes, numSets, numGets, o);
              result.Ok? ==>
                calls == ClusterCalls(o.joins, ClusterSize(numNodes) - 1)
                         + WorkloadCalls(Nodes(ClusterSize(numNodes)), numSets, o.setPicks, o.sample)
  {
    var size := ClusterSize(numNodes);
    var first := FirstAbort(o.joins, size - 1);
    if o.seed != Error && first.None? && 0 <= numGets <= size {
      AverageDivisorsZero(numSets, numGets);
    }
  }

  /** No run that raises has stopped a node: the only stop calls are those of the shutdown
      loop at the very end. */
  lemma RunRaisesNoStop(numNodes: int, numSets: int, numGets: int, o: Oracle)
    requires OracleInRange(o, numNodes, numSets, numGets)
    requires RunResult(numNodes, numSets, numGets, o).Raised?
    ensures NoStop(RunCalls(numNodes, numSets, numGets, o))
  {
    var size := ClusterSize(numNodes);
    var nodes := Nodes(size);
    var first := FirstAbort(o.joins, size - 1);
    var calls := RunCalls(numNodes, numSets, numGets, o);
    if o.seed == Error {
      ClusterCallsNoStop(o.joins, 0);
      assert calls == ClusterCalls(o.joins, 0);
    } else if first.Some? {
      AbortedClusterCallsNoStop(o.joins, first.value.0);
    } else {
      var cluster := ClusterCalls(o.joins, size - 1);
      ClusterCallsNoStop(o.joins, size - 1);
      if numGets < 0 || numGets > size {
        var sets := SetCalls(nodes, o.setPicks, Count(numSets));
        WorkloadNoStop(nodes, o.setPicks, [], Count(numSets));
        NoStopAppend(cluster, sets);
      } else if AverageDivisors(numSets, numGets).Raised? {
        var readWrite := ReadWriteCalls(nodes, numSets, o.setPicks, o.sample);
        ReadWriteNoStop(nodes, numSets, o.setPicks, o.sample);
        NoStopAppend(cluster, readWrite);
        assert calls == cluster + readWrite;
      }
    }
  }

  /** Lines 23-89: construction, then the workload on the full cluster. The run ends as
      RunResult says and makes the calls of RunCalls. */
  method Run(numNodes: int, numSets: int, numGets: int, oracle: Oracle)
    returns (calls: seq<Call>, result: Outcome<(int, int)>)
    requires OracleFits(oracle, numNodes, numSets, numGets)
    ensures result == RunResult(numNodes, numSets, numGets, oracle)
    ensures calls == RunCalls(numNodes, numSets, numGets, oracle)
  {
    var nodes, status;
    nodes, calls, status := BuildCluster(numNodes, oracle.seed, oracle.joins);
    if status.Raised? {
      if oracle.seed != Error {
        FirstAbortAt(oracle.joins, |nodes|, ClusterSize(numNodes) - 1);
      }
      return calls, Raised(status.abort);
    }
    var size := ClusterSize(numNodes);
    FirstAbortNone(oracle.joins, size - 1);
    assert nodes == Nodes(size);
    var rest;
    rest, result := RunWorkload(nodes, numSets, numGets, oracle.setPicks, oracle.sample);
    calls := calls + rest;
  }

  /** Every read of a completed run asks for a key the set loop wrote: the t-th sampled node
      (position o.sample[t]) reads key-(i + 1) in get call t * m + i, and set call i wrote
      value-(i + 1) under that key on node o.setPicks[i]. */
  lemma ReadsFollowWrites(numNodes: int, numSets: int, numGets: int, o: Oracle, t: nat, i: nat)
    requires OracleInRange(o, numNodes, numSets, numGets) && 0 <= numGets <= ClusterSize(numNodes)
    requires t < numGets && i < Count(numSets)
    ensures var nodes, m := Nodes(ClusterSize(numNodes)), Count(numSets);
              && t * m + i < |GetCalls(Picked(nodes, o.sample), m)|
              && GetCalls(Picked(nodes, o.sample), m)[t * m + i] == Get(o.sample[t], KeyName(i + 1))
    ensures var nodes, m := Nodes(ClusterSize(numNodes)), Count(numSets);
              && i < |SetCalls(nodes, o.setPicks, m)|
              && SetCalls(nodes, o.setPicks, m)[i] == Set(o.setPicks[i], KeyName(i + 1), ValueName(i + 1))
  {
    var size := ClusterSize(numNodes);
    var nodes, m := Nodes(size), Count(numSets);
    GetCallAt(Picked(nodes, o.sample), m, t, i);
    PickedAt(nodes, o.sample, t);
    NodesLayout(size, o.sample[t]);
    SetCallAt(nodes, o.setPicks, m, i);
    NodesLayout(size, o.setPicks[i]);
  }
}
