/** The harness's view of the external DHT node (kademlia.network.Server) and of the
    other collaborators run() calls. The harness never looks inside a Server: it knows a
    node by its creation index, which is also its position in `nodes`, and by the port it
    was told to listen on. Every call run() makes on a collaborator becomes a Call, and a
    run is described by the sequence of Calls it makes. */
module Dht {

  /** A node handle: `id` is the creation index (node1 is 0, node i is i - 1). */
  datatype Server = Server(id: nat, port: int)

  /** What one `bootstrap` call produced: a truthy result, a falsy one, or an exception. */
  datatype BootResult = Success | Empty | Error

  /** One call on a collaborator, in the order run() makes them. */
  datatype Call =
    | Listen(node: nat, port: int)                   // Server.listen
    | Bootstrap(node: nat, target: int)              // Server.bootstrap([("localhost", target)])
    | Reap(port: int)                                // kill_process_by_port
    | Stop(node: nat)                                // Server.stop
    | Sleep(seconds: nat)                            // asyncio.sleep (requested by the retry loop)
    | Set(node: nat, key: string, value: string)     // Server.set
    | Get(node: nat, key: string)                    // Server.get

  /** Why a run ended before reaching its end. EndedAtReap: after an early bootstrap exception
      of node i, kill_process_by_port(base + i) terminates the process holding node i's listen
      port, which is this very process; should it return instead, awaiting the None it
      returns raises a TypeError. Either way the run makes no call after the reap. */
  datatype Abort =
    | SeedBootstrapRaised                  // node1.bootstrap raised; it is not guarded
    | EndedAtReap(node: nat, attempt: nat) // node i's retry loop reached kill_process_by_port (see below)
    | SampleRejected                       // random.sample: sample size negative or above len(nodes)
    | SetAverageByZero                     // total_set_time / num_sets with num_sets == 0
    | GetAverageByZero                     // total_get_time / (num_sets * num_gets) == 0 divisor

  /** The value of a step of run(), or the exception that ended the run there. */
  datatype Outcome<T> = Ok(value: T) | Raised(abort: Abort)

  datatype Option<T> = None | Some(value: T)

  function DigitChar(d: nat): char
    requires d < 10
  {
    ('0' as int + d) as char
  }

  /** Python's decimal rendering of a non-negative int, as an f-string prints it. */
  function Decimal(n: nat): (s: string)
    ensures |s| >= 1
    ensures n < 10 <==> |s| == 1
  {
    if n < 10 then [DigitChar(n)] else Decimal(n / 10) + [DigitChar(n % 10)]
  }

  /** Different numbers print differently. */
  lemma {:induction false} DecimalInjective(a: nat, b: nat)
    requires Decimal(a) == Decimal(b)
    ensures a == b
  {
    if a >= 10 && b >= 10 {
      var da, db := Decimal(a), Decimal(b);
      assert da[..|da| - 1] == Decimal(a / 10);
      assert db[..|db| - 1] == Decimal(b / 10);
      assert da[|da| - 1] == DigitChar(a % 10);
      assert db[|db| - 1] == DigitChar(b % 10);
      DecimalInjective(a / 10, b / 10);
    }
  }

  /** The key f"key-{i}". */
  function KeyName(i: nat): string
  {
    "key-" + Decimal(i)
  }

  /** The value f"value-{i}". */
  function ValueName(i: nat): string
  {
    "value-" + Decimal(i)
  }

  /** Keys and values name their index: distinct indices give distinct keys and values. */
  lemma NamesInjective(i: nat, j: nat)
    ensures KeyName(i) == KeyName(j) <==> i == j
    ensures ValueName(i) == ValueName(j) <==> i == j
  {
    if KeyName(i) == KeyName(j) {
      assert Decimal(i) == KeyName(i)[4..] == KeyName(j)[4..] == Decimal(j);
      DecimalInjective(i, j);
    }
    if ValueName(i) == ValueName(j) {
      assert Decimal(i) == ValueName(i)[6..] == ValueName(j)[6..] == Decimal(j);
      DecimalInjective(i, j);
    }
  }

  /** No call stops a node. */
  predicate NoStop(calls: seq<Call>)
  {
    forall k :: 0 <= k < |calls| ==> !calls[k].Stop?
  }

  /** Two call sequences that stop no node do not once joined. */
  lemma NoStopAppend(a: seq<Call>, b: seq<Call>)
    requires NoStop(a) && NoStop(b)
    ensures NoStop(a + b)
  {
    forall k | 0 <= k < |a + b|
      ensures !(a + b)[k].Stop?
    {
      if k >= |a| {
        assert (a + b)[k] == b[k - |a|];
      }
    }
  }
}
