# Kademlia multi-node harness: a Dafny model of `run()`

`examples/multiNodes.py` starts a small Kademlia network in one process and drives a
workload against it. Its coroutine `run()` does four things:

- **Cluster construction.** node1 listens on port 8468 and bootstraps against itself.
  Each node `i = 2 .. num_nodes` then listens on `8468 + i` and joins through a retry loop
  of up to five bootstrap attempts. Every attempt targets a node picked at random from the
  nodes created so far. The new node is appended to `nodes` however its loop ended.
- **Set loop.** `num_sets` set calls store `value-i` under `key-i` on randomly picked nodes.
- **Get loops.** `random.sample(nodes, num_gets)` picks distinct nodes, and each of them
  reads `key-1 .. key-num_sets`.
- **Averages and shutdown.** The two averages divide by `num_sets` and
  `num_sets * num_gets`. Then every node is stopped.

The model replaces every collaborator by data:

- The DHT node (`kademlia.network.Server`) is a handle: a creation index plus the port it
  was told to listen on.
- Each call `run()` makes on a node, on `kill_process_by_port` or on `asyncio.sleep` is a
  `Call` appended to a log. A run is described by the calls it makes and by how it ends: it
  completes with the two divisors, or ends with one of five `Abort`s: four exceptions, and
  the end at the reap described below.
- An `Oracle` supplies everything left to chance or to the network: what node1's bootstrap
  does, a five-attempt script per later node (the position `random.choice` picks and
  whether `bootstrap` returns a truthy result, an empty one, or raises), the set loop's
  picks, and the positions `random.sample` draws.

Modules:

- `Ports`: the port arithmetic.
- `Dht`: the call vocabulary and the key names.
- `Bootstrap`: the retry loop of one node.
- `Cluster`: construction.
- `Workload`: sets, gets, averages and stops.
- `Harness`: the whole run.

Each loop of the source is a method with a loop. It is proved against a recursive function
that lists the calls it makes, and lemmas state what those calls are.

Behaviour of the code as written that the model makes explicit:

- **Bootstrap targets are off by one.** The node at position `k >= 1` listens on
  `8468 + k + 1`. The target computed for it is `8468 + nodes.index(node)`, which is
  `8468 + k`. Picking position 1 therefore targets a port nobody listens on (8469). Picking
  position `k >= 2` reaches the node at position `k - 1`.
- **A bootstrap exception before the last attempt ends the run at the reap.** Attempts are
  counted from 0, as `attempt` in the loop. An exception on attempt 0-3 leads to line 58,
  `await kill_process_by_port(8468 + i)`. That port is node i's own listen port, bound at
  line 38 by this same process, so the reaper terminates the harness itself. Should the
  reaper return instead, it returns `None`, and awaiting `None` raises. Either way no call
  follows the reap, and `node.stop()` and the backoff sleep of lines 59-60 are never reached.
  The model ends such a run with `EndedAtReap`. The stop-and-sleep schedule the branch
  requests is modelled on its own, as `RetrySchedule`.
- **Nodes are not stopped when the run raises.** Only the last loop stops nodes, and there
  is no `try/finally`, so a run that raises has stopped no node.
- **Negative sample sizes are rejected too.** `random.sample` raises for a negative size as
  well as for one above `len(nodes)`.
- **Zero counts divide by zero.** With `num_sets == 0` the first average divides by zero.
  With `num_gets == 0` the second one does. A negative `num_sets` runs no set or get call
  and gives a negative divisor.

What the code does not do:

- The listen port of node i is `8468 + i`; it is not the base port plus the node's position.
- No bootstrap exception leads to a stop, a sleep and a further attempt.
- No lifecycle state is kept per node; a node whose retry loop gave up is appended like any other.
- No node is stopped on a path that raises.

## Model

| member | source | states |
|---|---|---|
| `Ports.ListenPortsDistinct` | examples/multiNodes.py:28-38 | node1 listens on 8468 and node i on 8468 + i, so two positions share a listen port only if they are the same position |
| `Ports.ListenPortRange` | examples/multiNodes.py:28-38 | every listen port is at least 8468 and 8469 is never bound |
| `Ports.BootstrapTargetOffByOne` | examples/multiNodes.py:42-43 | the target 8468 + index equals the picked node's listen port only for node1; for every later position it is one less |
| `Ports.BootstrapTargetOwner` | examples/multiNodes.py:36-43 | the node listening on the target is node1 for a pick of node1, nobody for a pick of position 1, and the node one position earlier for a pick of position k >= 2 |
| `Dht.DecimalInjective` | examples/multiNodes.py:67 | the decimal rendering of a non-negative int used in the f-strings determines the number |
| `Dht.NamesInjective` | examples/multiNodes.py:67 | `key-i` and `value-i` are equal for two indices exactly when the indices are equal |
| `Bootstrap.AttemptsMadeMeaning` | examples/multiNodes.py:40-52 | a node makes between 1 and 5 bootstrap calls; every call before the last returned an empty result, and the last returned a non-empty result unless it was the fifth |
| `Bootstrap.SkipEmpty` | examples/multiNodes.py:47-48 | reaching an attempt after only empty results, the rest of the loop behaves as if it had started there |
| `Bootstrap.JoinOutcomeAt` | examples/multiNodes.py:41-58 | the attempt at which the loop joins or raises is the first non-empty one, and giving up means every earlier attempt was empty |
| `Bootstrap.JoinResultMeaning` | examples/multiNodes.py:41-58 | the loop joins at attempt a iff a succeeded after only empty results; it ends the run at a iff a raised after only empty results and a < 4; it logs exhaustion iff attempts 0-3 were empty and 4 raised; it gives up silently iff all five were empty |
| `Bootstrap.IndexOf` | examples/multiNodes.py:43 | `nodes.index(x)`: the first position holding x |
| `Bootstrap.JoinNode` | examples/multiNodes.py:40-58 | the retry loop makes AttemptsMade bootstrap calls, each against 8468 + the position picked, ends as JoinResult says, and its log is JoinCalls: the reap of its own listen port follows exactly when it ends the run |
| `Bootstrap.JoinCallsShape` | examples/multiNodes.py:41-58 | in the retry loop's log an empty result is followed by the next bootstrap, never by a reap, stop or sleep; the loop only bootstraps and reaps; a reap comes only as the last call, right after an attempt 0-3 that raised, and exactly when the loop ends the run |
| `Bootstrap.TotalBackoffClosedForm` | examples/multiNodes.py:60 | the delays `2**attempt` requested after attempts 0 .. n-1 add up to 2^n - 1 |
| `Bootstrap.RetrySleeps` | examples/multiNodes.py:41-60 | in the stop-and-sleep schedule the exception branch requests, the sleeps are exactly BackoffDelay (2^b seconds) of the retried attempts, one each, in attempt order; attempt b is retried iff it is reached (no earlier success), raises, and is one of attempts 0-3; so no sleep is requested for an empty or successful result, and the sleeps grow strictly |
| `Bootstrap.RetryScheduleShape` | examples/multiNodes.py:41-60 | the schedule starts with a bootstrap, and every sleep comes right after a bootstrap, the reap of the node's own port and the node's stop, as at lines 57-60 |
| `Bootstrap.RetrySleepTotal` | examples/multiNodes.py:41-60 | the sleeps that schedule requests add up to at most 1 + 2 + 4 + 8 = 15 seconds, and to exactly 15 iff attempts 0-3 all raise |
| `Cluster.AbortBlocks` | examples/multiNodes.py:36-58 | once one node's retry loop ends the run, construction does not complete |
| `Cluster.FirstAbortNone` | examples/multiNodes.py:36-58 | there is a first aborting retry loop exactly when construction does not get past the loop |
| `Cluster.FirstAbortAt` | examples/multiNodes.py:36-58 | the first node whose retry loop raises early is the one the run ends on, whatever nodes would follow |
| `Cluster.NodesLayout` | examples/multiNodes.py:35-38 | position k of `nodes` holds the k-th node created, listening on its listen port |
| `Cluster.NodesDistinct` | examples/multiNodes.py:35-43 | no node appears twice in `nodes`, so `nodes.index` finds the picked node's own position |
| `Cluster.AddNode` | examples/multiNodes.py:37-61 | one turn of the construction loop: the new node listens on 8468 + i, runs its retry loop, and the calls are its listen plus its loop's calls |
| `Cluster.JoinOthers` | examples/multiNodes.py:35-61 | nodes 2 .. num_nodes are created in order and appended whatever their loop's outcome; construction completes iff no retry loop ends the run, and otherwise stops at the first such node, whose reap is the last call |
| `Cluster.BuildCluster` | examples/multiNodes.py:26-61 | construction yields max(num_nodes, 1) nodes in creation order with the calls of ClusterCalls, raises at node1's bootstrap iff it raises (after node1's two calls), and otherwise ends at the first retry loop that reaps, with the calls of AbortedClusterCalls |
| `Cluster.ClusterCallsNoStop` | examples/multiNodes.py:26-61 | construction that completes never stops a node |
| `Cluster.AbortedClusterCallsNoStop` | examples/multiNodes.py:35-58 | construction that a retry loop ends never stops a node either |
| `Workload.SetCallAt` | examples/multiNodes.py:64-67 | the set loop makes num_sets calls; call j stores `value-(j+1)` under `key-(j+1)` on the picked node |
| `Workload.SetKeysDistinct` | examples/multiNodes.py:64-67 | no key or value is written twice |
| `Workload.SetPhase` | examples/multiNodes.py:64-70 | the set loop makes exactly the calls of SetCalls, in increasing i |
| `Workload.PickedAt` | examples/multiNodes.py:73 | the t-th sampled node is the node at the t-th drawn position |
| `Workload.SweepAt` | examples/multiNodes.py:74-76 | one sampled node reads key-1 .. key-num_sets, in that order |
| `Workload.GetCallsCount` | examples/multiNodes.py:73-79 | the get loops make num_gets * num_sets calls |
| `Workload.GetCallAt` | examples/multiNodes.py:73-79 | get call t * num_sets + i is the t-th sampled node reading `key-(i+1)` |
| `Workload.GetPhase` | examples/multiNodes.py:73-79 | random.sample raises iff num_gets is negative or above len(nodes); otherwise the get loops make the calls of GetCalls on the sampled nodes |
| `Workload.AverageDivisorsZero` | examples/multiNodes.py:81-82 | both averages are computed iff num_sets and num_gets are non-zero; a zero num_sets fails at the first average and a zero num_gets at the second |
| `Workload.AverageDivisorsCountCalls` | examples/multiNodes.py:64-82 | for positive counts each divisor equals the number of calls its average is taken over |
| `Workload.StopCallAt` | examples/multiNodes.py:88-89 | the shutdown loop stops node k in its k-th call, one call per node |
| `Workload.Shutdown` | examples/multiNodes.py:88-89 | the shutdown loop makes exactly the calls of StopCalls |
| `Workload.WorkloadNoStop` | examples/multiNodes.py:64-79 | the set and get loops stop no node |
| `Workload.ReadWriteNoStop` | examples/multiNodes.py:64-79 | the set loop alone, and the set loop followed by the get loops, stop no node |
| `Workload.WorkloadStopsEveryNode` | examples/multiNodes.py:63-89 | after sets and gets the last len(nodes) calls stop every node once, in list order, and no earlier call stops one |
| `Workload.RunWorkload` | examples/multiNodes.py:63-89 | a rejected sample size raises after all set calls; otherwise the run ends as the averages do, a zero divisor raising after all set and get calls; a completed run makes the set, get and stop calls in order; a run that raises has stopped no node |
| `Harness.RunResultMeaning` | examples/multiNodes.py:23-89 | the run completes iff construction completes, 0 < num_gets <= len(nodes) and num_sets != 0; each other case raises its own exception; a completed run averages over num_sets and num_sets * num_gets |
| `Harness.Run` | examples/multiNodes.py:23-89 | the run ends as RunResult says and makes exactly the calls of RunCalls |
| `Harness.RunRaisesNoStop` | examples/multiNodes.py:23-89 | a run that raises has stopped no node, since the only stops are those of the last loop |
| `Harness.ReadsFollowWrites` | examples/multiNodes.py:64-79 | in a completed run the t-th sampled node reads `key-(i+1)`, which set call i wrote on the node picked for it |

## Left out

- `kill_process_by_port` (examples/multiNodes.py:9-18) is a single `Reap(port)` call. The model does not cover which process it terminates. The port reaped is the failing node's own listen port, which this same process holds; the model only records that no call follows the reap.
- `node.stop()` and `asyncio.sleep(2**attempt)` after a bootstrap exception (lines 59-60) are never reached as written, so `Run` never issues them. `RetrySchedule` lists them as the branch requests them; time passing is not modelled.
- The DHT node's internals, and exceptions raised by `listen`, `set` or `get`, are left out; those calls always return in the model. Of a `bootstrap` result only its truthiness matters.
- Timing (`time.time()`) and the float averages are reduced to the divisors and to call counts.
- `random.choice` and `random.sample` are oracle inputs constrained to what they can return: positions in range, and distinct positions of the requested count.
- Logging, `logging.basicConfig`, the argparse entry point, `asyncio.run` scheduling and the commented-out keep-alive sleep are left out.
- Python integers are unbounded, like Dafny's `int`, so no width is modelled.
