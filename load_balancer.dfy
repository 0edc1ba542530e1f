/** The laptop client's load balancer: a dictionary of host records, kept in
    insertion order, from which one available host is picked by the
    configured strategy, plus the per-host job counters. */
module LoadBalancing {
  import opened Wrappers
  import opened Text
  import opened Sorting

  /** What the balancer knows of a peer: its id, its URL and its measured
      latency (non-positive when never measured). */
  datatype Peer = Peer(nodeId: string, url: string, latencyMs: real)

  datatype HostStatus = HostStatus(peer: Peer, activeJobs: int, maxJobs: int, lastChecked: real, healthy: bool)

  const RoundRobin: string := "round_robin"
  const LeastLoaded: string := "least_loaded"
  const LowestLatency: string := "lowest_latency"
  const RandomChoice: string := "random"

  /** The latency that stands in for one never measured. */
  const UnknownLatency: real := 9999.0

  /** A host takes work when it is healthy and below its job limit. */
  predicate Usable(h: HostStatus)
  {
    h.healthy && h.activeJobs < h.maxJobs
  }

  /** The usable hosts, in the dictionary's order. */
  function Available(order: seq<string>, hosts: map<string, HostStatus>): (r: seq<HostStatus>)
    requires forall k :: k in order ==> k in hosts
    ensures forall h :: h in r ==> Usable(h)
    ensures forall h :: h in r ==> exists k :: k in order && hosts[k] == h
    ensures forall k :: k in order && Usable(hosts[k]) ==> hosts[k] in r
  {
    if |order| == 0 then []
    else
      var rest := Available(order[1..], hosts);
      var h := hosts[order[0]];
      if Usable(h) then [h] + rest else rest
  }

  /** The ranking key of `_lowest_latency`. */
  function LatencyKey(h: HostStatus): (key: real)
    ensures key > 0.0
    ensures h.peer.latencyMs > 0.0 ==> key == h.peer.latencyMs
  {
    if h.peer.latencyMs > 0.0 then h.peer.latencyMs else UnknownLatency
  }

  function LoadLe(a: HostStatus, b: HostStatus): bool
  {
    a.activeJobs <= b.activeJobs
  }

  function LatencyLe(a: HostStatus, b: HostStatus): bool
  {
    LatencyKey(a) <= LatencyKey(b)
  }

  lemma HostOrdersTotal()
    ensures TotalPreorder(LoadLe) && TotalPreorder(LatencyLe)
  {
  }

  /** Which of the available hosts `select_host` returns: round robin takes
      the slot after the stored index, the two `min` strategies take the
      first host of least key, `random` takes the slot the random source
      named, and an unknown strategy takes the first host. */
  function Choose(strategy: string, avail: seq<HostStatus>, rrIndex: nat, choice: nat): (i: nat)
    requires |avail| > 0
    ensures i < |avail|
    ensures strategy == RoundRobin ==> i == RoundRobinIndex(rrIndex, 1, |avail|)
    ensures strategy == LeastLoaded ==>
      (forall k :: 0 <= k < |avail| ==> avail[i].activeJobs <= avail[k].activeJobs) &&
      (forall k :: 0 <= k < i ==> avail[k].activeJobs > avail[i].activeJobs)
    ensures strategy == LowestLatency ==>
      (forall k :: 0 <= k < |avail| ==> LatencyKey(avail[i]) <= LatencyKey(avail[k])) &&
      (forall k :: 0 <= k < i ==> LatencyKey(avail[k]) > LatencyKey(avail[i]))
    ensures strategy == RandomChoice ==> i == choice % |avail|
    ensures strategy !in {RoundRobin, LeastLoaded, LowestLatency, RandomChoice} ==> i == 0
  {
    HostOrdersTotal();
    if strategy == RoundRobin then (rrIndex + 1) % |avail|
    else if strategy == LeastLoaded then
      FirstMinIndexIsFirstMinimum(avail, LoadLe);
      FirstMinIndex(avail, LoadLe)
    else if strategy == LowestLatency then
      FirstMinIndexIsFirstMinimum(avail, LatencyLe);
      FirstMinIndex(avail, LatencyLe)
    else if strategy == RandomChoice then choice % |avail|
    else 0
  }

  /** `mark_job_started` on one record. */
  function JobStarted(h: HostStatus): (r: HostStatus)
    ensures r.activeJobs == h.activeJobs + 1 && r == h.(activeJobs := r.activeJobs)
  {
    h.(activeJobs := h.activeJobs + 1)
  }

  /** `mark_job_completed` on one record: one job fewer, never below 0. */
  function JobCompleted(h: HostStatus): (r: HostStatus)
    ensures r.activeJobs >= 0 && r == h.(activeJobs := r.activeJobs)
    ensures h.activeJobs >= 1 ==> r.activeJobs == h.activeJobs - 1
    ensures h.activeJobs <= 0 ==> r.activeJobs == 0
  {
    h.(activeJobs := if h.activeJobs - 1 > 0 then h.activeJobs - 1 else 0)
  }

  /** A completed job undoes a started one on any record with a
      non-negative count; on a negative count it resets the count to 0. */
  lemma CompletedUndoesStarted(h: HostStatus)
    ensures h.activeJobs >= 0 ==> JobCompleted(JobStarted(h)) == h
    ensures h.activeJobs < 0 ==> JobCompleted(JobStarted(h)) == h.(activeJobs := 0)
  {
  }

  /** The stored index after t round-robin selections from `rrIndex` while
      n hosts stay available; it is also the slot the t-th selection
      returns. */
  function RoundRobinIndex(rrIndex: nat, t: nat, n: nat): (i: nat)
    requires n > 0
    ensures t > 0 ==> i < n
  {
    if t == 0 then rrIndex else (RoundRobinIndex(rrIndex, t - 1, n) + 1) % n
  }

  lemma NextSlot(i: nat, n: nat)
    requires i < n
    ensures (i + 1) % n == if i + 1 < n then i + 1 else 0
  {
    if i + 1 == n {
      assert n % n == 0;
    }
  }

  /** From a slot below n the index walks up by one and wraps once. */
  lemma {:induction false} RoundRobinWalk(i: nat, t: nat, n: nat)
    requires i < n && t <= n
    ensures RoundRobinIndex(i, t, n) == if i + t < n then i + t else i + t - n
  {
    if t > 0 {
      RoundRobinWalk(i, t - 1, n);
      NextSlot(RoundRobinIndex(i, t - 1, n), n);
    }
  }

  /** The first selection moves any stored index below n; the rest walk on
      from there. */
  lemma {:induction false} RoundRobinShift(i: nat, t: nat, n: nat)
    requires n > 0 && t > 0
    ensures RoundRobinIndex(i, t, n) == RoundRobinIndex(RoundRobinIndex(i, 1, n), t - 1, n)
  {
    if t > 1 {
      RoundRobinShift(i, t - 1, n);
    }
  }

  /** Round robin over an unchanged set of n available hosts returns every
      one of them within n consecutive selections, whatever the stored
      index. */
  lemma RoundRobinVisitsAll(rrIndex: nat, n: nat, j: nat)
    requires j < n
    ensures exists t :: 1 <= t <= n && RoundRobinIndex(rrIndex, t, n) == j
  {
    var s := RoundRobinIndex(rrIndex, 1, n);
    var t := if j >= s then j - s + 1 else j - s + n + 1;
    RoundRobinShift(rrIndex, t, n);
    RoundRobinWalk(s, t - 1, n);
    assert RoundRobinIndex(rrIndex, t, n) == j;
  }

  class LoadBalancer {
    const strategy: string
    /** The host ids in insertion order (the order of `_hosts.values()`). */
    var order: seq<string>
    var hosts: map<string, HostStatus>
    var rrIndex: nat

    ghost predicate Valid()
      reads this
    {
      Distinct(order) && (forall k :: k in hosts <==> k in order)
    }

    constructor (strategy: string)
      ensures Valid() && this.strategy == strategy
      ensures order == [] && hosts == map[] && rrIndex == 0
    {
      this.strategy := strategy;
      order := [];
      hosts := map[];
      rrIndex := 0;
    }

    /** `update_host`: a fresh healthy record for the peer, checked at `now`;
      a known id keeps its place in the order. */
    method UpdateHost(peer: Peer, activeJobs: int, maxJobs: int, now: real)
      requires Valid()
      modifies this
      ensures Valid() && rrIndex == old(rrIndex)
      ensures hosts == old(hosts)[peer.nodeId := HostStatus(peer, activeJobs, maxJobs, now, true)]
      ensures order == if peer.nodeId in old(hosts) then old(order) else old(order) + [peer.nodeId]
    {
      if peer.nodeId !in hosts {
        order := order + [peer.nodeId];
      }
      hosts := hosts[peer.nodeId := HostStatus(peer, activeJobs, maxJobs, now, true)];
    }

    /** `remove_host`: afterwards the id is gone; removing an unknown id
      changes nothing, so a second removal is a no-op. */
    method RemoveHost(nodeId: string)
      requires Valid()
      modifies this
      ensures Valid() && nodeId !in hosts && rrIndex == old(rrIndex)
      ensures hosts == old(hosts) - {nodeId} && order == Without(old(order), nodeId)
      ensures nodeId !in old(hosts) ==> hosts == old(hosts) && order == old(order)
    {
      WithoutDistinct(order, nodeId);
      order := Without(order, nodeId);
      hosts := hosts - {nodeId};
    }

    /** `select_host`: None exactly when no host is usable; otherwise the
      chosen host's peer. Only round robin moves the stored index. `choice`
      is the slot the random source picks for the `random` strategy. */
    method SelectHost(choice: nat) returns (r: Option<Peer>)
      requires Valid()
      modifies this
      ensures Valid() && hosts == old(hosts) && order == old(order)
      ensures var avail := Available(order, hosts);
        (r.None? <==> |avail| == 0) &&
        (r.None? ==> rrIndex == old(rrIndex)) &&
        (r.Some? ==>
          r.value == avail[Choose(strategy, avail, old(rrIndex), choice)].peer &&
          rrIndex == if strategy == RoundRobin then RoundRobinIndex(old(rrIndex), 1, |avail|) else old(rrIndex))
      ensures r.Some? ==> exists k :: k in hosts && Usable(hosts[k]) && hosts[k].peer == r.value
      ensures r.None? <==> forall k :: k in hosts ==> !Usable(hosts[k])
    {
      var avail := Available(order, hosts);
      if |avail| == 0 {
        r := None;
        return;
      }
      var i := Choose(strategy, avail, rrIndex, choice);
      if strategy == RoundRobin {
        rrIndex := i;
      }
      r := Some(avail[i].peer);
      assert avail[i] in avail;
    }

    /** `mark_job_started`: one more job on a known host; unknown ids are
      ignored. */
    method MarkJobStarted(nodeId: string)
      requires Valid()
      modifies this
      ensures Valid() && order == old(order) && rrIndex == old(rrIndex)
      ensures hosts == if nodeId in old(hosts) then old(hosts)[nodeId := JobStarted(old(hosts)[nodeId])] else old(hosts)
    {
      if nodeId in hosts {
        hosts := hosts[nodeId := JobStarted(hosts[nodeId])];
      }
    }

    /** `mark_job_completed`: one job fewer on a known host, floored at 0. */
    method MarkJobCompleted(nodeId: string)
      requires Valid()
      modifies this
      ensures Valid() && order == old(order) && rrIndex == old(rrIndex)
      ensures hosts == if nodeId in old(hosts) then old(hosts)[nodeId := JobCompleted(old(hosts)[nodeId])] else old(hosts)
    {
      if nodeId in hosts {
        hosts := hosts[nodeId := JobCompleted(hosts[nodeId])];
      }
    }
  }
}
