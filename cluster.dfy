/** Cluster construction in run(): node1 listens on the base port and bootstraps against
    itself; then each node i = 2 .. num_nodes listens on base + i, runs the retry loop against
    the nodes created so far, and is appended to `nodes` whatever the loop's outcome. */
module Cluster {
  import opened Ports
  import opened Dht
  import opened Bootstrap

  /** len(nodes) after construction: range(2, num_nodes + 1) is empty below 2. */
  function ClusterSize(numNodes: int): nat
  {
    if numNodes >= 1 then numNodes else 1
  }

  /** Scripts for the first `count` nodes after node1: `joins[j]` scripts the node at
      position j + 1, whose picks are among the j + 1 nodes created before it. */
  predicate ScriptsFit(joins: seq<Script>, count: nat)
  {
    && count <= |joins|
    && forall j :: 0 <= j < count ==> PeersBelow(joins[j], j + 1)
  }

  /** The calls for node1: listen on the base port, bootstrap against itself. */
  function SeedCalls(): seq<Call>
  {
    [Listen(0, BasePort), Bootstrap(0, BasePort)]
  }

  /** The calls for the node at position k >= 1 when its retry loop does not end the run. */
  function NodeCalls(k: nat, script: Script): seq<Call>
  {
    [Listen(k, ListenPort(k))] + AttemptCalls(k, script[..AttemptsMade(script)])
  }

  /** The calls for the node at position k >= 1 when its retry loop ends the run: after the
      failed attempt, its own listen port is reaped. */
  function AbortedNodeCalls(k: nat, script: Script): seq<Call>
  {
    NodeCalls(k, script) + [Reap(ListenPort(k))]
  }

  /** The calls for node1 and the nodes at positions 1 .. count, in creation order. */
  function ClusterCalls(joins: seq<Script>, count: nat): seq<Call>
    requires count <= |joins|
  {
    if count == 0 then SeedCalls() else ClusterCalls(joins, count - 1) + NodeCalls(count, joins[count - 1])
  }

  /** The calls of a construction that node i's retry loop ends: those of node1 and of the
      nodes before node i, then node i's calls up to its reap. */
  function AbortedClusterCalls(joins: seq<Script>, i: nat): seq<Call>
    requires 2 <= i <= |joins| + 1
  {
    ClusterCalls(joins, i - 2) + AbortedNodeCalls(i - 1, joins[i - 2])
  }

  /** How the retry loops of the first `count` nodes after node1 ended. */
  function JoinResults(joins: seq<Script>, count: nat): seq<JoinOutcome>
    requires count <= |joins|
  {
    if count == 0 then [] else JoinResults(joins, count - 1) + [JoinResult(joins[count - 1])]
  }

  /** None of the first `count` nodes after node1 ends the run in its retry loop. */
  predicate NoJoinAborts(joins: seq<Script>, count: nat)
    requires count <= |joins|
  {
    count == 0 || (NoJoinAborts(joins, count - 1) && !AbortsJoin(joins[count - 1]))
  }

  /** Once a node's retry loop ends the run, no longer prefix is free of aborts. */
  lemma {:induction false} AbortBlocks(joins: seq<Script>, j: nat, count: nat)
    requires j < count <= |joins| && AbortsJoin(joins[j])
    ensures !NoJoinAborts(joins, count)
  {
    if j < count - 1 {
      AbortBlocks(joins, j, count - 1);
    }
  }

  /** The retry loop that ends the run first among the first `count` nodes after node1, as
      the node's number i (it sits at position i - 1 of `nodes`) and the attempt that
      raised; None when no such loop ends the run. */
  function FirstAbort(joins: seq<Script>, count: nat): (r: Option<(nat, nat)>)
    requires count <= |joins|
    ensures r.Some? ==> 2 <= r.value.0 <= count + 1
  {
    if count == 0 then None
    else if FirstAbort(joins, count - 1).Some? then FirstAbort(joins, count - 1)
    else if AbortsJoin(joins[count - 1]) then Some((count + 1, JoinResult(joins[count - 1]).attempt))
    else None
  }

  /** There is a first aborting loop exactly when some loop aborts. */
  lemma {:induction false} FirstAbortNone(joins: seq<Script>, count: nat)
    requires count <= |joins|
    ensures FirstAbort(joins, count).None? <==> NoJoinAborts(joins, count)
  {
    if count > 0 {
      FirstAbortNone(joins, count - 1);
    }
  }

  /** The loop of the node at position k that aborts after k - 1 loops that did not is the
      first aborting one, however many nodes follow. */
  lemma {:induction false} FirstAbortAt(joins: seq<Script>, k: nat, count: nat)
    requires 1 <= k <= count <= |joins|
    requires NoJoinAborts(joins, k - 1) && AbortsJoin(joins[k - 1])
    ensures FirstAbort(joins, count) == Some((k + 1, JoinResult(joins[k - 1]).attempt))
  {
    if count > k {
      FirstAbortAt(joins, k, count - 1);
    } else {
      FirstAbortNone(joins, k - 1);
    }
  }

  /** The first n entries of `nodes`: node1, then the nodes created after it, each with the
      port it was told to listen on. */
  function Nodes(n: nat): (nodes: seq<Server>)
    ensures |nodes| == n
  {
    if n == 0 then [] else Nodes(n - 1) + [Server(n - 1, ListenPort(n - 1))]
  }

  /** Position k holds the k-th node created, listening on its listen port. */
  lemma {:induction false} NodesLayout(n: nat, k: nat)
    requires k < n
    ensures Nodes(n)[k] == Server(k, ListenPort(k))
  {
    if k < n - 1 {
      NodesLayout(n - 1, k);
    }
  }

  /** No node appears twice in `nodes`, so `nodes.index` finds the picked node itself. */
  lemma NodesDistinct(n: nat)
    ensures Distinct(Nodes(n))
  {
    forall j, k | 0 <= j < k < n
      ensures Nodes(n)[j] != Nodes(n)[k]
    {
      NodesLayout(n, j);
      NodesLayout(n, k);
    }
  }

  /** One turn of the construction loop for node i (lines 37-60): create the node, listen on
      base + i, and run its retry loop against `nodes`. */
  method AddNode(i: nat, nodes: seq<Server>, script: Script)
    returns (node: Server, calls: seq<Call>, outcome: JoinOutcome)
    requires i >= 2 && nodes == Nodes(i - 1)
    requires PeersBelow(script, i - 1)
    ensures node == Server(i - 1, ListenPort(i - 1))
    ensures outcome == JoinResult(script)
    ensures !outcome.Reaped? ==> calls == NodeCalls(i - 1, script)
    ensures outcome.Reaped? ==> calls == AbortedNodeCalls(i - 1, script)
  {
    node := Server(i - 1, BasePort + i);
    calls := [Listen(i - 1, BasePort + i)];
    NodesDistinct(i - 1);
    var made, joinCalls;
    made, outcome, joinCalls := JoinNode(i, nodes, script);
    calls := calls + joinCalls;
  }

  /** Lines 35-61 of run(), once node1 has listened and bootstrapped (the log starts with
      those two calls): every node i = 2 .. num_nodes is created and added, unless its retry loop ends
      the run. */
  method JoinOthers(numNodes: int, joins: seq<Script>)
    returns (nodes: seq<Server>, calls: seq<Call>, status: Outcome<seq<JoinOutcome>>)
    requires ScriptsFit(joins, ClusterSize(numNodes) - 1)
    ensures nodes == Nodes(|nodes|) && 1 <= |nodes| <= ClusterSize(numNodes)
    ensures status.Ok? <==> NoJoinAborts(joins, ClusterSize(numNodes) - 1)
    ensures status.Ok? ==> |nodes| == ClusterSize(numNodes)
    ensures status.Ok? ==> calls == ClusterCalls(joins, |nodes| - 1)
    ensures status.Ok? ==> status.value == JoinResults(joins, |nodes| - 1)
    ensures status.Raised? ==> status.abort.EndedAtReap?
    ensures status.Raised? ==> status.abort.node == |nodes| + 1 && |nodes| < ClusterSize(numNodes)
    ensures status.Raised? ==> NoJoinAborts(joins, |nodes| - 1)
    ensures status.Raised? ==> JoinResult(joins[|nodes| - 1]) == Reaped(status.abort.attempt)
    ensures status.Raised? ==> calls == AbortedClusterCalls(joins, |nodes| + 1)
  {
    nodes := [Server(0, BasePort)];
    calls := SeedCalls();
    var outcomes: seq<JoinOutcome> := [];
    var i := 2;
    while i <= numNodes
      invariant 2 <= i && |nodes| == i - 1 <= ClusterSize(numNodes)
      invariant nodes == Nodes(i - 1)
      invariant NoJoinAborts(joins, i - 2)
      invariant calls == ClusterCalls(joins, i - 2)
      invariant outcomes == JoinResults(joins, i - 2)
    {
      var node, nodeCalls, outcome := AddNode(i, nodes, joins[i - 2]);
      if outcome.Reaped? {
        calls := calls + nodeCalls;
        AbortBlocks(joins, i - 2, ClusterSize(numNodes) - 1);
        status := Raised(EndedAtReap(i, outcome.attempt));
        return;
      }
      calls := calls + nodeCalls;
      nodes := nodes + [node];
      outcomes := outcomes + [outcome];
      i := i + 1;
    }
    status := Ok(outcomes);
  }

  /** Lines 26-61 of run(). `seed` is what node1's bootstrap did and `joins[j]` scripts the
      retry loop of the node at position j + 1. On success `status` holds how each of those
      loops ended. */
  method BuildCluster(numNodes: int, seed: BootResult, joins: seq<Script>)
    returns (nodes: seq<Server>, calls: seq<Call>, status: Outcome<seq<JoinOutcome>>)
    requires ScriptsFit(joins, ClusterSize(numNodes) - 1)
    ensures nodes == Nodes(|nodes|) && 1 <= |nodes| <= ClusterSize(numNodes)
    ensures status.Ok? <==> seed != Error && NoJoinAborts(joins, ClusterSize(numNodes) - 1)
    ensures status.Ok? ==> |nodes| == ClusterSize(numNodes)
    ensures status.Ok? ==> calls == ClusterCalls(joins, |nodes| - 1)
    ensures status.Ok? ==> status.value == JoinResults(joins, |nodes| - 1)
    ensures status == Raised(SeedBootstrapRaised) <==> seed == Error
    ensures status == Raised(SeedBootstrapRaised) ==> calls == SeedCalls()
    ensures status.Raised? && seed != Error ==> status.abort.EndedAtReap?
    ensures status.Raised? && status.abort.EndedAtReap? ==>
              && status.abort.node == |nodes| + 1
              && |nodes| < ClusterSize(numNodes)
              && NoJoinAborts(joins, |nodes| - 1)
              && JoinResult(joins[|nodes| - 1]) == Reaped(status.abort.attempt)
              && calls == AbortedClusterCalls(joins, |nodes| + 1)
  {
    nodes := [Server(0, BasePort)];
    calls := [Listen(0, BasePort), Bootstrap(0, BasePort)];
    if seed == Error {
      status := Raised(SeedBootstrapRaised);
      return;
    }
    nodes, calls, status := JoinOthers(numNodes, joins);
  }

  /** Construction never stops a node, whether or not a retry loop ends the run. */
  lemma {:induction false} ClusterCallsNoStop(joins: seq<Script>, count: nat)
    requires count <= |joins|
    ensures NoStop(ClusterCalls(joins, count))
  {
    if count > 0 {
      ClusterCallsNoStop(joins, count - 1);
      NoStopAppend(ClusterCalls(joins, count - 1), NodeCalls(count, joins[count - 1]));
    }
  }

  /** A construction that a retry loop ends stops no node either. */
  lemma AbortedClusterCallsNoStop(joins: seq<Script>, i: nat)
    requires 2 <= i <= |joins| + 1
    ensures NoStop(AbortedClusterCalls(joins, i))
  {
    ClusterCallsNoStop(joins, i - 2);
    var node := AbortedNodeCalls(i - 1, joins[i - 2]);
    assert NoStop(node);
    NoStopAppend(ClusterCalls(joins, i - 2), node);
  }
}
