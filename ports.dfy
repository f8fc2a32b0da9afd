/** Port arithmetic of the cluster. Node1 listens on the base port; node i (i >= 2), which
    ends up at position i - 1 of `nodes`, listens on base + i. The bootstrap target for a
    chosen node is computed from its position instead, as base + position. */
module Ports {

  const BasePort: int := 8468

  /** The port the node at position k of `nodes` listens on. */
  function ListenPort(k: nat): int
  {
    if k == 0 then BasePort else BasePort + k + 1
  }

  /** The port a new node bootstraps against when it picked the node at position k. */
  function BootstrapTarget(k: nat): int
  {
    BasePort + k
  }

  /** No two nodes are told to listen on the same port. */
  lemma ListenPortsDistinct(j: nat, k: nat)
    ensures ListenPort(j) == ListenPort(k) <==> j == k
  {
  }

  /** Every listen port is at least the base port, and base + 1 is never bound. */
  lemma ListenPortRange(k: nat)
    ensures ListenPort(k) >= BasePort
    ensures ListenPort(k) != BasePort + 1
  {
  }

  /** The target equals the chosen node's listen port only for node1; for any later node
      it is one less. */
  lemma BootstrapTargetOffByOne(k: nat)
    ensures BootstrapTarget(k) == ListenPort(k) <==> k == 0
    ensures k >= 1 ==> BootstrapTarget(k) == ListenPort(k) - 1
  {
  }

  /** Who actually listens on the target: picking node1 reaches node1, picking position 1
      reaches nobody, and picking position k >= 2 reaches the node at position k - 1. */
  lemma BootstrapTargetOwner(k: nat, j: nat)
    ensures ListenPort(j) == BootstrapTarget(k) <==> (k == 0 && j == 0) || (k >= 2 && j == k - 1)
  {
  }
}
