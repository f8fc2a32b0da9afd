/** The per-node bootstrap retry loop of run(): up to five attempts, each against a node
    picked at random from the nodes created so far. A truthy result ends the loop, an empty
    one moves straight on to the next attempt, and an exception on the last attempt is only
    logged. An exception on an earlier attempt calls kill_process_by_port on the node's own
    listen port, which this process holds, so the run ends there: the reaper terminates the
    process, or, if it returns, awaiting its None raises. The stop and the backoff sleep
    that follow in the text are requested but never reached; RetrySchedule lists them. */
module Bootstrap {
  import opened Ports
  import opened Dht

  const Retries: nat := 5

  /** One scripted attempt: the position `choice(nodes)` picked and what `bootstrap` did. */
  datatype Attempt = Attempt(peer: nat, result: BootResult)

  /** What each of the five possible attempts for one node would pick and produce; the loop
      consumes a prefix of it. */
  type Script = s: seq<Attempt> | |s| == Retries
    witness [Attempt(0, Success), Attempt(0, Success), Attempt(0, Success), Attempt(0, Success), Attempt(0, Success)]

  /** How the retry loop for one node ended. */
  datatype JoinOutcome =
    | Joined(attempt: nat)            // bootstrap of that attempt returned a truthy result
    | GaveUp(exhaustionLogged: bool)  // all attempts used; logged only when the last one raised
    | Reaped(attempt: nat)            // that attempt raised and the run ended at the reap

  /** The number of bootstrap calls the loop makes when it reaches attempt `a`: it stops at
      the first non-empty result, or after the last attempt. */
  function Scan(script: Script, a: nat): (made: nat)
    requires a < Retries
    ensures a < made <= Retries
    decreases Retries - a
  {
    if script[a].result != Empty || a == Retries - 1 then a + 1 else Scan(script, a + 1)
  }

  /** The number of bootstrap calls the loop makes for a node. */
  function AttemptsMade(script: Script): nat
  {
    Scan(script, 0)
  }

  /** How the loop ends when it reaches attempt `a`. */
  function JoinFrom(script: Script, a: nat): JoinOutcome
    requires a < Retries
    decreases Retries - a
  {
    match script[a].result
    case Success => Joined(a)
    case Error => if a < Retries - 1 then Reaped(a) else GaveUp(true)
    case Empty => if a < Retries - 1 then JoinFrom(script, a + 1) else GaveUp(false)
  }

  /** How the retry loop ends for a node with this script. */
  function JoinResult(script: Script): JoinOutcome
  {
    JoinFrom(script, 0)
  }

  /** The loop ends the run: an attempt before the fifth raised. */
  predicate AbortsJoin(script: Script)
  {
    JoinResult(script).Reaped?
  }

  /** Attempts 0 .. a - 1 all returned an empty result. */
  predicate EmptyBefore(script: Script, a: nat)
    requires a <= Retries
  {
    forall b :: 0 <= b < a ==> script[b].result == Empty
  }

  /** Reaching attempt `a` after only empty results: the loop from there on is the loop from
      the start. */
  lemma {:induction false} SkipEmpty(script: Script, a: nat)
    requires a < Retries && EmptyBefore(script, a)
    ensures Scan(script, 0) == Scan(script, a)
    ensures JoinFrom(script, 0) == JoinFrom(script, a)
  {
    if a > 0 {
      SkipEmpty(script, a - 1);
    }
  }

  /** The loop makes between one and five calls, every call but the last returned an empty
      result, and the last one returned a non-empty result unless it was the fifth. */
  lemma {:induction false} AttemptsMadeMeaning(script: Script, a: nat)
    requires a < Retries
    ensures 1 <= Scan(script, a) <= Retries
    ensures forall b :: a <= b < Scan(script, a) - 1 ==> script[b].result == Empty
    ensures Scan(script, a) < Retries ==> script[Scan(script, a) - 1].result != Empty
    decreases Retries - a
  {
    if script[a].result == Empty && a < Retries - 1 {
      AttemptsMadeMeaning(script, a + 1);
    }
  }

  /** The outcome of the loop, stated without the scan: the node joins at attempt a exactly
      when a succeeded after only empty results; the run ends at attempt a exactly when a
      raised after only empty results and a is not the last; the exhaustion is logged
      exactly when the first four were empty and the fifth raised; the loop gives up
      silently exactly when all five were empty. */
  lemma JoinResultMeaning(script: Script, a: nat)
    requires a < Retries
    ensures JoinResult(script) == Joined(a) <==> script[a].result == Success && EmptyBefore(script, a)
    ensures JoinResult(script) == Reaped(a) <==>
              script[a].result == Error && a < Retries - 1 && EmptyBefore(script, a)
    ensures JoinResult(script) == GaveUp(true) <==>
              EmptyBefore(script, Retries - 1) && script[Retries - 1].result == Error
    ensures JoinResult(script) == GaveUp(false) <==> EmptyBefore(script, Retries)
  {
    JoinOutcomeAt(script, 0);
    if EmptyBefore(script, a) {
      SkipEmpty(script, a);
    }
    if EmptyBefore(script, Retries - 1) {
      SkipEmpty(script, Retries - 1);
    }
  }

  /** The outcome names the attempt the loop stopped at, and earlier attempts were empty. */
  lemma {:induction false} JoinOutcomeAt(script: Script, a: nat)
    requires a < Retries
    ensures JoinFrom(script, a).Joined? || JoinFrom(script, a).Reaped? ==>
              var b := JoinFrom(script, a).attempt;
              a <= b < Retries && (forall c :: a <= c < b ==> script[c].result == Empty)
              && script[b].result == (if JoinFrom(script, a).Joined? then Success else Error)
              && (JoinFrom(script, a).Reaped? ==> b < Retries - 1)
    ensures JoinFrom(script, a) == GaveUp(true) ==>
              (forall c :: a <= c < Retries - 1 ==> script[c].result == Empty) && script[Retries - 1].result == Error
    ensures JoinFrom(script, a) == GaveUp(false) ==> forall c :: a <= c < Retries ==> script[c].result == Empty
    decreases Retries - a
  {
    if script[a].result == Empty && a < Retries - 1 {
      JoinOutcomeAt(script, a + 1);
    }
  }

  /** The bootstrap calls made by node `node` for the given attempts, in order. */
  function AttemptCalls(node: nat, attempts: seq<Attempt>): seq<Call>
  {
    seq(|attempts|, a requires 0 <= a < |attempts| => Bootstrap(node, BootstrapTarget(attempts[a].peer)))
  }

  /** The calls the retry loop makes for node `node`, which listens on `port`: one bootstrap
      per attempt made, then the reap of its own port when an early attempt raised. */
  function JoinCalls(node: nat, port: int, script: Script): seq<Call>
  {
    AttemptCalls(node, script[..AttemptsMade(script)]) + (if AbortsJoin(script) then [Reap(port)] else [])
  }

  /** What the retry loop's log looks like: an empty result is followed by the next
      bootstrap (never by a reap, stop or sleep); the loop only bootstraps and reaps; and a
      reap happens only as the last call, right after an attempt before the fifth raised,
      exactly when the loop ends the run. */
  lemma JoinCallsShape(node: nat, port: int, script: Script, a: nat)
    requires a < Retries
    ensures var log := JoinCalls(node, port, script);
              script[a].result == Empty && a + 1 < |log| ==> log[a + 1].Bootstrap?
    ensures var log := JoinCalls(node, port, script);
              forall k :: 0 <= k < |log| ==> log[k].Bootstrap? || log[k] == Reap(port)
    ensures var log := JoinCalls(node, port, script);
              forall k :: 0 <= k < |log| && log[k].Reap? ==>
                1 <= k == |log| - 1 < Retries && script[k - 1].result == Error
    ensures var log := JoinCalls(node, port, script);
              |log| >= 1 && (log[|log| - 1].Reap? <==> AbortsJoin(script))
  {
    var made := AttemptsMade(script);
    AttemptsMadeMeaning(script, 0);
    JoinOutcomeAt(script, 0);
    var log := JoinCalls(node, port, script);
    var boots := AttemptCalls(node, script[..made]);
    assert |boots| == made;
    if AbortsJoin(script) {
      assert made == JoinResult(script).attempt + 1;
    }
  }

  /** Every pick is a position among the first `poolSize` nodes (random.choice stays in range). */
  predicate PeersBelow(script: Script, poolSize: nat)
  {
    forall a :: 0 <= a < Retries ==> script[a].peer < poolSize
  }

  predicate Distinct(pool: seq<Server>)
  {
    forall j, k :: 0 <= j < k < |pool| ==> pool[j] != pool[k]
  }

  /** `nodes.index(x)`: the first position holding x. */
  method IndexOf(pool: seq<Server>, x: Server) returns (k: nat)
    requires x in pool
    ensures k < |pool| && pool[k] == x
    ensures forall j :: 0 <= j < k ==> pool[j] != x
  {
    k := 0;
    while pool[k] != x
      invariant k < |pool|
      invariant x in pool[k..]
      invariant forall j :: 0 <= j < k ==> pool[j] != x
      decreases |pool| - k
    {
      assert pool[k..] == [pool[k]] + pool[k + 1..];
      k := k + 1;
    }
  }

  /** The retry loop for node i (i >= 2), which listens on base + i and is not yet in `pool`. */
  method JoinNode(i: nat, pool: seq<Server>, script: Script)
    returns (made: nat, outcome: JoinOutcome, calls: seq<Call>)
    requires i >= 2
    requires Distinct(pool)
    requires PeersBelow(script, |pool|)
    ensures made == AttemptsMade(script)
    ensures outcome == JoinResult(script)
    ensures calls == JoinCalls(i - 1, ListenPort(i - 1), script)
  {
    calls := [];
    made := 0;
    outcome := GaveUp(false);
    for attempt := 0 to Retries
      invariant made == attempt
      invariant forall a :: 0 <= a < attempt && a < Retries - 1 ==> script[a].result == Empty
      invariant calls == AttemptCalls(i - 1, script[..attempt])
      invariant outcome == GaveUp(attempt == Retries && script[Retries - 1].result == Error)
      invariant attempt == Retries ==> script[Retries - 1].result != Success
      invariant attempt < Retries ==> EmptyBefore(script, attempt)
    {
      var chosen := pool[script[attempt].peer];
      var index := IndexOf(pool, chosen);
      var bootstrapPort := BasePort + index;
      assert script[..attempt + 1] == script[..attempt] + [script[attempt]];
      calls := calls + [Bootstrap(i - 1, bootstrapPort)];
      made := attempt + 1;
      match script[attempt].result {
        case Success =>
          SkipEmpty(script, attempt);
          outcome := Joined(attempt);
          break;
        case Empty =>
        case Error =>
          if attempt == Retries - 1 {
            outcome := GaveUp(true);
          } else {
            SkipEmpty(script, attempt);
            calls := calls + [Reap(BasePort + i)];
            outcome := Reaped(attempt);
            return;
          }
      }
    }
    if outcome.GaveUp? {
      SkipEmpty(script, Retries - 1);
    }
  }

  /** The delay :60 asks for after a failed attempt: 2 ** attempt seconds. */
  function BackoffDelay(attempt: nat): (r: nat)
    ensures r >= 1
  {
    if attempt == 0 then 1 else 2 * BackoffDelay(attempt - 1)
  }

  /** Total of the delays requested after attempts 0 .. n - 1. */
  function TotalBackoff(n: nat): nat
  {
    if n == 0 then 0 else TotalBackoff(n - 1) + BackoffDelay(n - 1)
  }

  /** The delays after attempts 0 .. n - 1 add up to 2^n - 1; for the four attempts that
      can be followed by a retry, 1 + 2 + 4 + 8 = 15 seconds. */
  lemma {:induction false} TotalBackoffClosedForm(n: nat)
    ensures TotalBackoff(n) == BackoffDelay(n) - 1
  {
    if n > 0 {
      TotalBackoffClosedForm(n - 1);
    }
  }

  /** A later attempt asks for a longer delay. */
  lemma {:induction false} BackoffIncreasing(a: nat, b: nat)
    requires a < b
    ensures BackoffDelay(a) < BackoffDelay(b)
    decreases b
  {
    if a < b - 1 {
      BackoffIncreasing(a, b - 1);
    }
  }

  /** The delays after attempts a .. b - 1 add up to at least the first of them. */
  lemma {:induction false} TotalBackoffGrows(a: nat, b: nat)
    requires a < b
    ensures TotalBackoff(b) >= TotalBackoff(a) + BackoffDelay(a)
    decreases b
  {
    if a < b - 1 {
      TotalBackoffGrows(a, b - 1);
    }
  }

  /** The calls lines 41-60 ask for from attempt `a` on, for node `node` listening on `port`,
      had kill_process_by_port handed control back: an exception before the last attempt is
      followed by the reap, the node's stop and a sleep of BackoffDelay(attempt) seconds, then
      the next attempt. As written the run ends at the reap (JoinCalls); this is the retry
      schedule the branch requests. */
  function RetrySchedule(node: nat, port: int, script: Script, a: nat): seq<Call>
    requires a <= Retries
    decreases Retries - a
  {
    if a == Retries then []
    else
      var boot := Bootstrap(node, BootstrapTarget(script[a].peer));
      if script[a].result == Success then [boot]
      else if script[a].result == Error && a < Retries - 1 then
        [boot, Reap(port), Stop(node), Sleep(BackoffDelay(a))] + RetrySchedule(node, port, script, a + 1)
      else [boot] + RetrySchedule(node, port, script, a + 1)
  }

  /** The lengths of the sleeps among `calls`, in call order. */
  function Sleeps(calls: seq<Call>): seq<nat>
  {
    if calls == [] then []
    else (if calls[0].Sleep? then [calls[0].seconds] else []) + Sleeps(calls[1..])
  }

  lemma {:induction false} SleepsAppend(x: seq<Call>, y: seq<Call>)
    ensures Sleeps(x + y) == Sleeps(x) + Sleeps(y)
  {
    if x != [] {
      var first := if x[0].Sleep? then [x[0].seconds] else [];
      assert (x + y)[0] == x[0];
      assert (x + y)[1..] == x[1..] + y;
      SleepsAppend(x[1..], y);
      calc {
        Sleeps(x + y);
        first + Sleeps(x[1..] + y);
        first + (Sleeps(x[1..]) + Sleeps(y));
        (first + Sleeps(x[1..])) + Sleeps(y);
      }
    } else {
      assert x + y == y;
    }
  }

  lemma SleepsOfAttempt(boot: Call)
    requires boot.Bootstrap?
    ensures Sleeps([boot]) == []
  {
    assert [boot][1..] == [];
  }

  /** A failed attempt followed by reap, stop and sleep sleeps once. */
  lemma SleepsOfRetry(boot: Call, port: int, node: nat, d: nat)
    requires boot.Bootstrap?
    ensures Sleeps([boot, Reap(port), Stop(node), Sleep(d)]) == [d]
  {
    var s3 := [Sleep(d)];
    assert s3[1..] == [];
    assert Sleeps(s3) == [d];
    var s2 := [Stop(node)] + s3;
    assert s2[1..] == s3;
    assert Sleeps(s2) == [d];
    var s1 := [Reap(port)] + s2;
    assert s1[1..] == s2;
    assert Sleeps(s1) == [d];
    assert [boot, Reap(port), Stop(node), Sleep(d)] == [boot] + s1;
    assert ([boot] + s1)[1..] == s1;
  }

  /** The sum of a sequence of delays. */
  function Sum(delays: seq<nat>): nat
  {
    if delays == [] then 0 else delays[0] + Sum(delays[1..])
  }

  /** The delays the retry schedule from attempt a requests, by attempt: BackoffDelay(a)
      when attempt a raises and is not the last, then those of the later attempts unless a
      succeeded. */
  function RequestedDelays(script: Script, a: nat): seq<nat>
    requires a <= Retries
    decreases Retries - a
  {
    if a == Retries || script[a].result == Success then []
    else if script[a].result == Error && a < Retries - 1 then [BackoffDelay(a)] + RequestedDelays(script, a + 1)
    else RequestedDelays(script, a + 1)
  }

  /** The attempts from a on that the schedule follows with a retry: those reached (no
      earlier success) that raise and are not the last, in attempt order. */
  function RetriedAttempts(script: Script, a: nat): seq<nat>
    requires a <= Retries
    decreases Retries - a
  {
    if a == Retries || script[a].result == Success then []
    else if script[a].result == Error && a < Retries - 1 then [a] + RetriedAttempts(script, a + 1)
    else RetriedAttempts(script, a + 1)
  }

  /** An attempt is retried exactly when it is reached, raises and is not the last. */
  lemma {:induction false} RetriedAttemptsMembership(script: Script, a: nat, b: nat)
    requires a <= Retries
    ensures b in RetriedAttempts(script, a) <==>
              a <= b < Retries - 1 && script[b].result == Error && ReachedFrom(script, a, b)
    decreases Retries - a
  {
    if a < Retries && script[a].result != Success {
      RetriedAttemptsMembership(script, a + 1, b);
    }
  }

  /** The requested delays are, one by one, BackoffDelay of the retried attempts. */
  lemma {:induction false} DelaysOfRetriedAttempts(script: Script, a: nat)
    requires a <= Retries
    ensures |RequestedDelays(script, a)| == |RetriedAttempts(script, a)|
    ensures forall j :: 0 <= j < |RequestedDelays(script, a)| ==>
              RequestedDelays(script, a)[j] == BackoffDelay(RetriedAttempts(script, a)[j])
    decreases Retries - a
  {
    if a < Retries && script[a].result != Success {
      DelaysOfRetriedAttempts(script, a + 1);
    }
  }

  /** The sleeps among the scheduled calls are the requested delays. */
  lemma {:induction false} SleepsAreRequested(node: nat, port: int, script: Script, a: nat)
    requires a <= Retries
    ensures Sleeps(RetrySchedule(node, port, script, a)) == RequestedDelays(script, a)
    decreases Retries - a
  {
    if a < Retries {
      var boot := Bootstrap(node, BootstrapTarget(script[a].peer));
      var rest := RetrySchedule(node, port, script, a + 1);
      SleepsOfAttempt(boot);
      SleepsAreRequested(node, port, script, a + 1);
      if script[a].result == Error && a < Retries - 1 {
        var head := [boot, Reap(port), Stop(node), Sleep(BackoffDelay(a))];
        SleepsAppend(head, rest);
        SleepsOfRetry(boot, port, node, BackoffDelay(a));
      } else if script[a].result != Success {
        SleepsAppend([boot], rest);
      }
    } else {
      assert Sleeps(RetrySchedule(node, port, script, a)) == [];
    }
  }

  /** No delay requested from attempt a on is shorter than attempt a's own. */
  lemma {:induction false} DelaysFrom(script: Script, a: nat)
    requires a <= Retries
    ensures forall j :: 0 <= j < |RequestedDelays(script, a)| ==> BackoffDelay(a) <= RequestedDelays(script, a)[j]
    decreases Retries - a
  {
    if a < Retries {
      DelaysFrom(script, a + 1);
      BackoffIncreasing(a, a + 1);
    }
  }

  /** Each delay is longer than every earlier one. */
  predicate Increasing(delays: seq<nat>)
  {
    forall j, k :: 0 <= j < k < |delays| ==> delays[j] < delays[k]
  }

  lemma IncreasingCons(d: nat, rest: seq<nat>)
    requires Increasing(rest)
    requires forall k :: 0 <= k < |rest| ==> d < rest[k]
    ensures Increasing([d] + rest)
  {
    var s := [d] + rest;
    forall j, k | 0 <= j < k < |s|
      ensures s[j] < s[k]
    {
      assert s[k] == rest[k - 1];
      if j > 0 {
        assert s[j] == rest[j - 1];
      }
    }
  }

  lemma {:induction false} DelaysIncrease(script: Script, a: nat)
    requires a <= Retries
    ensures Increasing(RequestedDelays(script, a))
    decreases Retries - a
  {
    if a < Retries {
      DelaysIncrease(script, a + 1);
      if script[a].result == Error && a < Retries - 1 {
        DelaysFrom(script, a + 1);
        BackoffIncreasing(a, a + 1);
        IncreasingCons(BackoffDelay(a), RequestedDelays(script, a + 1));
      }
    }
  }

  /** Attempts a .. b - 1 did not succeed, so attempt b is reached. */
  predicate ReachedFrom(script: Script, a: nat, b: nat)
    requires b <= Retries
  {
    forall c :: a <= c < b ==> script[c].result != Success
  }

  lemma {:induction false} DelaysMembership(script: Script, a: nat, b: nat)
    requires a <= Retries
    ensures BackoffDelay(b) in RequestedDelays(script, a) <==>
              a <= b < Retries - 1 && script[b].result == Error && ReachedFrom(script, a, b)
    decreases Retries - a
  {
    if a < Retries && script[a].result != Success {
      DelaysMembership(script, a + 1, b);
      if b != a && script[a].result == Error && a < Retries - 1 && BackoffDelay(b) == BackoffDelay(a) {
        if b < a { BackoffIncreasing(b, a); } else { BackoffIncreasing(a, b); }
      }
    }
  }

  /** Attempts a .. 3, the ones that can be followed by a retry, all raise. */
  predicate RaiseFrom(script: Script, a: nat)
  {
    forall c :: a <= c < Retries - 1 ==> script[c].result == Error
  }

  lemma {:induction false} DelaysTotal(script: Script, a: nat)
    requires a < Retries
    ensures Sum(RequestedDelays(script, a)) + TotalBackoff(a) <= TotalBackoff(Retries - 1)
    ensures Sum(RequestedDelays(script, a)) + TotalBackoff(a) == TotalBackoff(Retries - 1) <==> RaiseFrom(script, a)
    decreases Retries - a
  {
    if a < Retries - 1 {
      DelaysTotal(script, a + 1);
      TotalBackoffGrows(a, Retries - 1);
      assert RaiseFrom(script, a) <==> script[a].result == Error && RaiseFrom(script, a + 1);
      var r := RequestedDelays(script, a + 1);
      if script[a].result == Error {
        assert ([BackoffDelay(a)] + r)[1..] == r;
      }
    }
  }

  /** Which sleeps the retry schedule of a node requests: one of BackoffDelay(b) seconds
      exactly when attempt b is reached (no earlier attempt succeeded), raises, and is not
      the last, so no sleep follows an empty or a successful result. The sleeps grow
      strictly: each such attempt sleeps once, in attempt order. */
  lemma RetrySleeps(node: nat, port: int, script: Script, b: nat)
    ensures BackoffDelay(b) in Sleeps(RetrySchedule(node, port, script, 0)) <==>
              b < Retries - 1 && script[b].result == Error && forall c :: 0 <= c < b ==> script[c].result != Success
    ensures Increasing(Sleeps(RetrySchedule(node, port, script, 0)))
    ensures b in RetriedAttempts(script, 0) <==>
              b < Retries - 1 && script[b].result == Error && forall c :: 0 <= c < b ==> script[c].result != Success
    ensures var sleeps := Sleeps(RetrySchedule(node, port, script, 0));
            |sleeps| == |RetriedAttempts(script, 0)| &&
            forall j :: 0 <= j < |sleeps| ==> sleeps[j] == BackoffDelay(RetriedAttempts(script, 0)[j])
  {
    SleepsAreRequested(node, port, script, 0);
    DelaysMembership(script, 0, b);
    DelaysIncrease(script, 0);
    RetriedAttemptsMembership(script, 0, b);
    DelaysOfRetriedAttempts(script, 0);
  }

  /** Where the sleeps sit: the schedule starts with a bootstrap, and every sleep comes right
      after a bootstrap, the reap of the node's own port and the node's stop. */
  lemma {:induction false} RetryScheduleShape(node: nat, port: int, script: Script, a: nat)
    requires a <= Retries
    ensures var log := RetrySchedule(node, port, script, a); a < Retries ==> |log| >= 1 && log[0].Bootstrap?
    ensures var log := RetrySchedule(node, port, script, a);
            forall k :: 0 <= k < |log| && log[k].Sleep? ==>
              3 <= k && log[k - 3].Bootstrap? && log[k - 2] == Reap(port) && log[k - 1] == Stop(node)
    decreases Retries - a
  {
    if a < Retries && script[a].result != Success {
      var log := RetrySchedule(node, port, script, a);
      var rest := RetrySchedule(node, port, script, a + 1);
      RetryScheduleShape(node, port, script, a + 1);
      var n := |log| - |rest|;
      assert log[n..] == rest;
      forall k | n <= k < |log| && log[k].Sleep?
        ensures 3 <= k && log[k - 3].Bootstrap? && log[k - 2] == Reap(port) && log[k - 1] == Stop(node)
      {
        assert rest[k - n].Sleep?;
        assert log[k - 3] == rest[k - n - 3];
        assert log[k - 2] == rest[k - n - 2];
        assert log[k - 1] == rest[k - n - 1];
      }
    }
  }

  /** The retry schedule of a node sleeps at most 1 + 2 + 4 + 8 = 15 seconds in all, and
      exactly that long when the first four attempts all raise. */
  lemma RetrySleepTotal(node: nat, port: int, script: Script)
    ensures Sum(Sleeps(RetrySchedule(node, port, script, 0))) <= TotalBackoff(Retries - 1) == 15
    ensures Sum(Sleeps(RetrySchedule(node, port, script, 0))) == 15 <==>
              forall c :: 0 <= c < Retries - 1 ==> script[c].result == Error
  {
    SleepsAreRequested(node, port, script, 0);
    TotalBackoffClosedForm(Retries - 1);
    DelaysTotal(script, 0);
  }
}
