/** The on-chain event listener: a list of subscriptions, each with a block
    cursor, polled in bounded block windows; fetched event logs are handed
    to the subscription's handler, and the built-in handlers decide which
    notifications to send and at what severity. The chain, the contracts
    and the handlers' message text are not part of this model: the block
    height and the log fetch are inputs. */
module AlertListening {
  import opened Wrappers

  /** Which handler a subscription calls: one of the six built-in ones, or
      a callback registered from outside (opaque here). */
  datatype Handler =
    | OnDeepfakeDetected
    | OnVideoRedetected
    | OnSameIpReupload
    | OnNewLocationSpread
    | OnViralSpread
    | OnAlertCreated
    | External(name: string)

  datatype Subscription = Subscription(contractName: string, eventName: string, callback: Handler, lastBlock: int)

  /** The numeric arguments of one event log. */
  datatype EventLog = EventLog(args: map<string, int>)

  /** One handler call: which subscription (by position) got which log. */
  datatype Delivery = Delivery(sub: nat, log: EventLog)

  datatype Alert = Alert(alertType: string, severity: string)

  /** The contracts `_get_contract` knows; any other name fails the poll of
      that subscription. */
  const KnownContracts: set<string> := {"VideoRegistry", "TrackingLedger", "AlertManager"}

  /** The built-in subscriptions, in registration order. */
  const DefaultEvents: seq<(string, string, Handler)> := [
    ("VideoRegistry", "DeepfakeDetected", OnDeepfakeDetected),
    ("VideoRegistry", "VideoRedetected", OnVideoRedetected),
    ("TrackingLedger", "SameIPReupload", OnSameIpReupload),
    ("TrackingLedger", "NewLocationSpread", OnNewLocationSpread),
    ("TrackingLedger", "ViralSpreadWarning", OnViralSpread),
    ("AlertManager", "AlertCreated", OnAlertCreated)
  ]

  /** `_register_defaults`: six subscriptions, all starting at the current
      block, or at block 0 when the block number could not be read. */
  function DefaultSubscriptions(blockLookup: Option<int>): (r: seq<Subscription>)
    ensures |r| == 6
    ensures forall i :: 0 <= i < 6 ==>
      (r[i].contractName, r[i].eventName, r[i].callback) == DefaultEvents[i] &&
      r[i].lastBlock == (if blockLookup.Some? then blockLookup.value else 0)
  {
    var start := if blockLookup.Some? then blockLookup.value else 0;
    seq(6, i requires 0 <= i < 6 => Subscription(DefaultEvents[i].0, DefaultEvents[i].1, DefaultEvents[i].2, start))
  }

  /** The block window one poll asks for: nothing once the cursor has
      reached the chain head, otherwise from the block after the cursor to
      the head, cut to `maxBlocks` blocks. */
  function Window(lastBlock: int, currentBlock: int, maxBlocks: int): (w: Option<(int, int)>)
    ensures w.None? <==> lastBlock >= currentBlock
    ensures w.Some? ==>
      var (fromBlock, toBlock) := w.value;
      fromBlock == lastBlock + 1 && toBlock <= currentBlock &&
      toBlock - fromBlock + 1 <= maxBlocks &&
      (toBlock == currentBlock || toBlock - fromBlock + 1 == maxBlocks)
    ensures w.Some? && maxBlocks >= 1 ==> w.value.0 <= w.value.1
  {
    if lastBlock >= currentBlock then None
    else
      var fromBlock := lastBlock + 1;
      var last := fromBlock + maxBlocks - 1;
      Some((fromBlock, if currentBlock < last then currentBlock else last))
  }

  /** The log fetch: contract name, event name and the inclusive block
      range, giving the logs or None when the lookup or the query raises. */
  type Fetch = (string, string, int, int) -> Option<seq<EventLog>>

  datatype PollResult = PollResult(sub: Subscription, logs: seq<EventLog>)

  /** One subscription's share of `poll_once`: on a successful fetch every
      log goes to the handler and the cursor moves to the window's end
      whatever the handlers do; a skipped or failed poll leaves the cursor
      where it was. */
  function PollOne(sub: Subscription, currentBlock: int, maxBlocks: int, fetch: Fetch): (r: PollResult)
    ensures r.sub == sub.(lastBlock := r.sub.lastBlock)
    ensures sub.lastBlock >= currentBlock ==> r.sub == sub && r.logs == []
    ensures r.sub.lastBlock != sub.lastBlock ==> r.sub.lastBlock <= currentBlock
    ensures r.sub.lastBlock != sub.lastBlock && maxBlocks >= 1 ==> r.sub.lastBlock > sub.lastBlock
    ensures sub.contractName !in KnownContracts ==> r.sub == sub && r.logs == []
  {
    match Window(sub.lastBlock, currentBlock, maxBlocks)
    case None => PollResult(sub, [])
    case Some((fromBlock, toBlock)) =>
      if sub.contractName !in KnownContracts then PollResult(sub, [])
      else
        match fetch(sub.contractName, sub.eventName, fromBlock, toBlock)
        case None => PollResult(sub, [])
        case Some(logs) => PollResult(sub.(lastBlock := toBlock), logs)
  }

  /** The handler calls of one poll over the first n subscriptions, in
      order. */
  function Deliveries(subs: seq<Subscription>, n: nat, currentBlock: int, maxBlocks: int, fetch: Fetch): (r: seq<Delivery>)
    requires n <= |subs|
    ensures forall d :: d in r ==> d.sub < n
  {
    if n == 0 then []
    else
      var logs := PollOne(subs[n - 1], currentBlock, maxBlocks, fetch).logs;
      Deliveries(subs, n - 1, currentBlock, maxBlocks, fetch) + seq(|logs|, k requires 0 <= k < |logs| => Delivery(n - 1, logs[k]))
  }

  /** A failing handler stops nothing: every log fetched for every
      subscription is handed over. */
  lemma {:induction false} EveryLogDelivered(subs: seq<Subscription>, n: nat, currentBlock: int, maxBlocks: int, fetch: Fetch, i: nat, k: nat)
    requires n <= |subs| && i < n
    requires k < |PollOne(subs[i], currentBlock, maxBlocks, fetch).logs|
    ensures Delivery(i, PollOne(subs[i], currentBlock, maxBlocks, fetch).logs[k]) in Deliveries(subs, n, currentBlock, maxBlocks, fetch)
  {
    var logs := PollOne(subs[n - 1], currentBlock, maxBlocks, fetch).logs;
    var tail := seq(|logs|, j requires 0 <= j < |logs| => Delivery(n - 1, logs[j]));
    if i == n - 1 {
      assert tail[k] == Delivery(i, logs[k]);
    } else {
      EveryLogDelivered(subs, n - 1, currentBlock, maxBlocks, fetch, i, k);
    }
  }

  /** The cursor after t polls that all fetch successfully, with the head
      fixed at `currentBlock`. */
  function CursorAfter(lastBlock: int, currentBlock: int, maxBlocks: int, t: nat): int
  {
    if t == 0 then lastBlock
    else
      var prev := CursorAfter(lastBlock, currentBlock, maxBlocks, t - 1);
      match Window(prev, currentBlock, maxBlocks)
      case None => prev
      case Some((_, toBlock)) => toBlock
  }

  /** With a positive window size, t successful polls move a cursor behind
      the head by at least t blocks and never past the head, so the cursor
      catches up after `currentBlock - lastBlock` polls at most. */
  lemma {:induction false} CursorCatchesUp(lastBlock: int, currentBlock: int, maxBlocks: int, t: nat)
    requires maxBlocks >= 1 && lastBlock <= currentBlock
    ensures CursorAfter(lastBlock, currentBlock, maxBlocks, t) <= currentBlock
    ensures CursorAfter(lastBlock, currentBlock, maxBlocks, t) >= if lastBlock + t < currentBlock then lastBlock + t else currentBlock
  {
    if t > 0 {
      CursorCatchesUp(lastBlock, currentBlock, maxBlocks, t - 1);
    }
  }

  /** The built-in handlers' notification decision for one log, given
      whether a notifier is configured; external callbacks send nothing
      through the listener. */
  function HandlerAlert(h: Handler, log: EventLog, hasNotifier: bool): (r: Option<Alert>)
    ensures !hasNotifier ==> r.None?
    ensures h == OnVideoRedetected ==>
      (r.Some? <==> hasNotifier && "detectionCount" in log.args && log.args["detectionCount"] >= 3)
    ensures h == OnNewLocationSpread && hasNotifier ==>
      r.Some? && r.value.alertType == "GEO_SPREAD" &&
      (r.value.severity == "CRITICAL" <==> "uniqueCountries" in log.args && log.args["uniqueCountries"] >= 5) &&
      (r.value.severity == "CRITICAL" || r.value.severity == "HIGH")
    ensures h.OnAlertCreated? || h.External? ==> r.None?
    ensures hasNotifier && h == OnDeepfakeDetected ==> r == Some(Alert("DEEPFAKE_DETECTED", "HIGH"))
    ensures hasNotifier && h == OnSameIpReupload ==> r == Some(Alert("SAME_IP_REUPLOAD", "HIGH"))
    ensures hasNotifier && h == OnViralSpread ==> r == Some(Alert("VIRAL_SPREAD", "CRITICAL"))
    ensures h == OnVideoRedetected && r.Some? ==> r.value == Alert("VIDEO_REDETECTED", "MEDIUM")
  {
    if !hasNotifier then None
    else
      match h
      case OnDeepfakeDetected => Some(Alert("DEEPFAKE_DETECTED", "HIGH"))
      case OnVideoRedetected =>
        var count := if "detectionCount" in log.args then log.args["detectionCount"] else 0;
        if count >= 3 then Some(Alert("VIDEO_REDETECTED", "MEDIUM")) else None
      case OnSameIpReupload => Some(Alert("SAME_IP_REUPLOAD", "HIGH"))
      case OnNewLocationSpread =>
        var countries := if "uniqueCountries" in log.args then log.args["uniqueCountries"] else 0;
        Some(Alert("GEO_SPREAD", if countries >= 5 then "CRITICAL" else "HIGH"))
      case OnViralSpread => Some(Alert("VIRAL_SPREAD", "CRITICAL"))
      case OnAlertCreated => None
      case External(_) => None
  }

  class AlertListener {
    var subscriptions: seq<Subscription>
    const maxBlocksPerPoll: int
    const hasNotifier: bool

    /** `__init__`: the built-in subscriptions, starting from the block
      number read at construction (None when that read failed). */
    constructor (maxBlocksPerPoll: int, hasNotifier: bool, blockLookup: Option<int>)
      ensures subscriptions == DefaultSubscriptions(blockLookup)
      ensures this.maxBlocksPerPoll == maxBlocksPerPoll && this.hasNotifier == hasNotifier
    {
      this.maxBlocksPerPoll := maxBlocksPerPoll;
      this.hasNotifier := hasNotifier;
      subscriptions := DefaultSubscriptions(blockLookup);
    }

    /** `subscribe`: append a subscription starting at the current block. */
    method Subscribe(contractName: string, eventName: string, callback: Handler, currentBlock: int)
      modifies this
      ensures subscriptions == old(subscriptions) + [Subscription(contractName, eventName, callback, currentBlock)]
    {
      subscriptions := subscriptions + [Subscription(contractName, eventName, callback, currentBlock)];
    }

    /** `poll_once` at chain height `currentBlock`: every subscription is
      polled in turn; the result lists the handler calls made. */
    method PollOnce(currentBlock: int, fetch: Fetch) returns (delivered: seq<Delivery>)
      modifies this
      ensures |subscriptions| == |old(subscriptions)|
      ensures forall i :: 0 <= i < |subscriptions| ==>
        subscriptions[i] == PollOne(old(subscriptions)[i], currentBlock, maxBlocksPerPoll, fetch).sub
      ensures delivered == Deliveries(old(subscriptions), |old(subscriptions)|, currentBlock, maxBlocksPerPoll, fetch)
    {
      ghost var start := subscriptions;
      var i := 0;
      delivered := [];
      while i < |subscriptions|
        invariant |subscriptions| == |start| && 0 <= i <= |start|
        invariant forall j :: 0 <= j < i ==> subscriptions[j] == PollOne(start[j], currentBlock, maxBlocksPerPoll, fetch).sub
        invariant subscriptions[i..] == start[i..]
        invariant delivered == Deliveries(start, i, currentBlock, maxBlocksPerPoll, fetch)
      {
        var sub := subscriptions[i];
        var w := Window(sub.lastBlock, currentBlock, maxBlocksPerPoll);
        if w.Some? && sub.contractName in KnownContracts {
          var (fromBlock, toBlock) := w.value;
          var fetched := fetch(sub.contractName, sub.eventName, fromBlock, toBlock);
          if fetched.Some? {
            delivered := HandOver(delivered, i, fetched.value);
            subscriptions := subscriptions[i := sub.(lastBlock := toBlock)];
          }
        }
        i := i + 1;
      }
    }

    /** The handler calls for one subscription's logs, in log order. */
    static method HandOver(delivered: seq<Delivery>, sub: nat, logs: seq<EventLog>) returns (r: seq<Delivery>)
      ensures r == delivered + seq(|logs|, j requires 0 <= j < |logs| => Delivery(sub, logs[j]))
    {
      r := delivered;
      var k := 0;
      while k < |logs|
        invariant 0 <= k <= |logs|
        invariant r == delivered + seq(k, j requires 0 <= j < k => Delivery(sub, logs[j]))
      {
        r := r + [Delivery(sub, logs[k])];
        k := k + 1;
      }
    }

    /** The notifications one poll sends, in handler-call order. */
    function Notifications(delivered: seq<Delivery>, subs: seq<Subscription>): (r: seq<Alert>)
      reads this
      requires forall d :: d in delivered ==> d.sub < |subs|
      ensures |r| <= |delivered|
      ensures !hasNotifier ==> r == []
    {
      if |delivered| == 0 then []
      else
        var d := delivered[|delivered| - 1];
        var rest := Notifications(delivered[..|delivered| - 1], subs);
        match HandlerAlert(subs[d.sub].callback, d.log, hasNotifier)
        case None => rest
        case Some(a) => rest + [a]
    }
  }
}
