/** The persistent transaction queue of the blockchain writer: rows move from
    QUEUED through PENDING to CONFIRMED, or back to RETRYING and finally
    FAILED; a processing pass sends `register_video` rows in contract-sized
    batches and every other row on its own; a nonce counter is read from the
    chain once and then incremented. The SQLite table is a map from row id to
    row; the contract calls and the clock are parameters. */
module TransactionQueue {
  import opened Wrappers
  import opened Sorting

  datatype TxStatus = Queued | Pending | Confirmed | Failed | Retrying

  /** One row of the queue table; the payload is kept as its JSON text. */
  datatype QueuedTx = QueuedTx(
    id: nat,
    txType: string,
    payload: string,
    status: TxStatus,
    txHash: string,
    retries: int,
    maxRetries: int,
    createdAt: real,
    updatedAt: real,
    error: string,
    gasUsed: int,
    blockNumber: int)

  /** What a confirmed contract call reports back. */
  datatype Receipt = Receipt(txHash: string, gasUsed: int, blockNumber: int)

  type Table = map<nat, QueuedTx>

  /** Most videos the registry contract accepts in one batch call. */
  const ContractBatchLimit: int := 50

  const BatchableType: string := "register_video"

  /** The transaction types `_dispatch` knows how to send. */
  const DispatchTypes: set<string> := {
    "register_video", "spread_event", "lineage", "first_detection_alert",
    "reupload_alert", "geo_spread_alert", "check_thresholds", "acknowledge_alert"}

  /** `min(batch_size, 50)`. */
  function EffectiveBatchSize(requested: int): (r: int)
    ensures r <= ContractBatchLimit
    ensures r == requested || r == ContractBatchLimit
    ensures requested < ContractBatchLimit ==> r == requested
  {
    if requested < ContractBatchLimit then requested else ContractBatchLimit
  }

  /** Every row is stored under its own id. */
  ghost predicate WellKeyed(rows: Table, nextId: nat)
  {
    forall id :: id in rows ==> rows[id].id == id && id < nextId
  }

  predicate DistinctIds(txs: seq<QueuedTx>)
  {
    forall i, j :: 0 <= i < j < |txs| ==> txs[i].id != txs[j].id
  }

  /** Every listed transaction is the current row under its id. */
  ghost predicate RowsOf(rows: Table, txs: seq<QueuedTx>)
  {
    forall tx :: tx in txs ==> tx.id in rows && rows[tx.id] == tx
  }

  // ---------------------------------------------------------------------
  // get_queued
  // ---------------------------------------------------------------------

  predicate Waiting(tx: QueuedTx)
  {
    tx.status == Queued || tx.status == Retrying
  }

  predicate CreatedLe(a: QueuedTx, b: QueuedTx)
  {
    a.createdAt <= b.createdAt
  }

  lemma CreatedLeTotal()
    ensures TotalPreorder(CreatedLe)
  {
  }

  /** The waiting rows with id below n, in id order (the table scan). */
  function Scan(rows: Table, n: nat): (r: seq<QueuedTx>)
    ensures forall i :: 0 <= i < |r| ==> r[i].id < n
  {
    if n == 0 then []
    else Scan(rows, n - 1) + (if n - 1 in rows && rows[n - 1].id == n - 1 && Waiting(rows[n - 1]) then [rows[n - 1]] else [])
  }

  lemma {:induction false} ScanMembers(rows: Table, n: nat)
    ensures DistinctIds(Scan(rows, n))
    ensures forall tx :: tx in Scan(rows, n) <==> (tx.id < n && tx.id in rows && rows[tx.id] == tx && Waiting(tx))
  {
    if n > 0 {
      ScanMembers(rows, n - 1);
    }
  }

  /** SQL `LIMIT`: a negative limit means no limit. */
  function SqlLimit(s: seq<QueuedTx>, limit: int): (r: seq<QueuedTx>)
    ensures |r| <= |s| && r == s[..|r|]
    ensures limit >= 0 ==> |r| == if limit < |s| then limit else |s|
    ensures limit < 0 ==> r == s
  {
    if limit < 0 || limit >= |s| then s else s[..limit]
  }

  /** `get_queued`: the QUEUED and RETRYING rows, oldest `created_at` first,
      at most `limit` of them. `ORDER BY created_at` leaves the order of
      rows created at the same instant open; the model chooses id order. */
  function QueuedRows(rows: Table, nextId: nat, limit: int): seq<QueuedTx>
  {
    SqlLimit(SortBy(Scan(rows, nextId), CreatedLe), limit)
  }

  lemma MultisetCountDistinct(s: seq<QueuedTx>, x: QueuedTx)
    requires DistinctIds(s)
    ensures multiset(s)[x] <= 1
  {
    if |s| > 0 {
      var init := s[..|s| - 1];
      assert s == init + [s[|s| - 1]];
      MultisetCountDistinct(init, x);
      if x == s[|s| - 1] {
        assert x !in init;
      }
    }
  }

  lemma TwoCopies<T>(t: seq<T>, i: int, j: int)
    requires 0 <= i < j < |t| && t[i] == t[j]
    ensures multiset(t)[t[i]] >= 2
  {
    assert t == t[..j] + t[j..];
    assert t[i] in multiset(t[..j]);
    assert t[j..][0] == t[j];
    assert t[j] in multiset(t[j..]);
  }

  /** Rows stored under their ids, none of them twice, have distinct ids. */
  lemma DistinctFromCounts(rows: Table, t: seq<QueuedTx>)
    requires RowsOf(rows, t)
    requires forall x :: multiset(t)[x] <= 1
    ensures DistinctIds(t)
  {
    forall i, j | 0 <= i < j < |t|
      ensures t[i].id != t[j].id
    {
      if t[i].id == t[j].id {
        TwoCopies(t, i, j);
      }
    }
  }

  /** Sorting rows that are each stored under their id keeps the ids
      distinct. */
  lemma SortKeepsDistinct(rows: Table, s: seq<QueuedTx>)
    requires DistinctIds(s) && RowsOf(rows, s)
    ensures DistinctIds(SortBy(s, CreatedLe)) && RowsOf(rows, SortBy(s, CreatedLe))
  {
    var t := SortBy(s, CreatedLe);
    SortByPermutation(s, CreatedLe);
    forall tx | tx in t
      ensures tx in s
    {
      assert tx in multiset(t);
    }
    forall x
      ensures multiset(t)[x] <= 1
    {
      MultisetCountDistinct(s, x);
    }
    DistinctFromCounts(rows, t);
  }

  /** What `get_queued` promises: only waiting rows, as stored, each once,
      oldest first, at most `limit` of them. */
  lemma QueuedRowsSpec(rows: Table, nextId: nat, limit: int)
    requires WellKeyed(rows, nextId)
    ensures var q := QueuedRows(rows, nextId, limit);
      RowsOf(rows, q) && DistinctIds(q) && Sorted(q, CreatedLe) &&
      (forall tx :: tx in q ==> Waiting(tx)) &&
      (limit >= 0 ==> |q| <= limit)
  {
    var s := Scan(rows, nextId);
    var t := SortBy(s, CreatedLe);
    ScanMembers(rows, nextId);
    SortKeepsDistinct(rows, s);
    CreatedLeTotal();
    SortBySorted(s, CreatedLe);
    SortByPermutation(s, CreatedLe);
    forall tx | tx in t
      ensures Waiting(tx)
    {
      assert tx in multiset(t);
    }
  }

  /** A waiting row is left out of `get_queued` only when the limit is
      reached, and then it is no older than any returned row. */
  lemma QueuedRowsComplete(rows: Table, nextId: nat, limit: int, id: nat)
    requires WellKeyed(rows, nextId)
    requires id in rows && Waiting(rows[id]) && rows[id] !in QueuedRows(rows, nextId, limit)
    ensures 0 <= limit == |QueuedRows(rows, nextId, limit)|
    ensures forall tx :: tx in QueuedRows(rows, nextId, limit) ==> tx.createdAt <= rows[id].createdAt
  {
    var s := Scan(rows, nextId);
    var t := SortBy(s, CreatedLe);
    var q := QueuedRows(rows, nextId, limit);
    var x := rows[id];
    ScanMembers(rows, nextId);
    assert x in s;
    SortByPermutation(s, CreatedLe);
    assert x in multiset(t);
    var k :| 0 <= k < |t| && t[k] == x;
    assert k >= |q|;
    CreatedLeTotal();
    SortBySorted(s, CreatedLe);
    forall tx | tx in q
      ensures tx.createdAt <= x.createdAt
    {
      var i :| 0 <= i < |q| && q[i] == tx;
      assert CreatedLe(t[i], t[k]);
    }
  }

  // ---------------------------------------------------------------------
  // Row updates
  // ---------------------------------------------------------------------

  function Ids(txs: seq<QueuedTx>): (r: seq<nat>)
    ensures |r| == |txs| && forall i :: 0 <= i < |txs| ==> r[i] == txs[i].id
  {
    seq(|txs|, i requires 0 <= i < |txs| => txs[i].id)
  }

  function Payloads(txs: seq<QueuedTx>): (r: seq<string>)
    ensures |r| == |txs| && forall i :: 0 <= i < |txs| ==> r[i] == txs[i].payload
  {
    seq(|txs|, i requires 0 <= i < |txs| => txs[i].payload)
  }

  /** `_update_status`: the listed rows take the status and the time. */
  function SetStatus(rows: Table, ids: seq<nat>, status: TxStatus, now: real): Table
  {
    map id | id in rows :: if id in ids then rows[id].(status := status, updatedAt := now) else rows[id]
  }

  /** Marking one more id of the list: only that row (if present) changes. */
  lemma SetStatusStep(start: Table, ids: seq<nat>, i: nat, status: TxStatus, now: real)
    requires i < |ids|
    ensures var r := SetStatus(start, ids[..i], status, now);
      SetStatus(start, ids[..i + 1], status, now) ==
        if ids[i] in r then r[ids[i] := r[ids[i]].(status := status, updatedAt := now)] else r
  {
    assert ids[..i + 1] == ids[..i] + [ids[i]];
  }

  function Confirm(row: QueuedTx, receipt: Receipt, now: real): QueuedTx
  {
    row.(status := Confirmed, txHash := receipt.txHash, gasUsed := receipt.gasUsed,
         blockNumber := receipt.blockNumber, updatedAt := now)
  }

  /** `_update_confirmed`: the listed rows become CONFIRMED with the
      receipt's hash, gas and block. */
  function ConfirmRows(rows: Table, ids: seq<nat>, receipt: Receipt, now: real): Table
  {
    map id | id in rows :: if id in ids then Confirm(rows[id], receipt, now) else rows[id]
  }

  /** One row of `_handle_failure`: the retry count read from the snapshot
      `tx` goes up by one, and the row is FAILED once that reaches its
      maximum, RETRYING before. */
  function Failure(row: QueuedTx, tx: QueuedTx, error: string, now: real): QueuedTx
  {
    var retries := tx.retries + 1;
    row.(status := if retries >= tx.maxRetries then Failed else Retrying, retries := retries,
         error := error, updatedAt := now)
  }

  /** `_handle_failure` over a list of snapshots, in order. */
  function FailRows(rows: Table, txs: seq<QueuedTx>, error: string, now: real): (r: Table)
    ensures r.Keys == rows.Keys
  {
    if |txs| == 0 then rows
    else
      var r := FailRows(rows, txs[..|txs| - 1], error, now);
      var tx := txs[|txs| - 1];
      if tx.id in r then r[tx.id := Failure(r[tx.id], tx, error, now)] else r
  }

  /** The final row of a sent transaction, given what the call returned. */
  function Outcome(row: QueuedTx, tx: QueuedTx, result: Result<Receipt, string>, now: real): QueuedTx
  {
    match result
    case Ok(receipt) => Confirm(row, receipt, now)
    case Err(e) => Failure(row, tx, e, now)
  }

  /** Sending one batch (or one transaction): mark PENDING, then CONFIRMED or
      failed according to the call's result. */
  function Send(rows: Table, txs: seq<QueuedTx>, result: Result<Receipt, string>, now: real): Table
  {
    if |txs| == 0 then rows
    else
      var pending := SetStatus(rows, Ids(txs), Pending, now);
      match result
      case Ok(receipt) => ConfirmRows(pending, Ids(txs), receipt, now)
      case Err(e) => FailRows(pending, txs, e, now)
  }

  /** Where a sent row ends: CONFIRMED with its retries, or one more retry
      and FAILED exactly when that reaches the maximum; its identity,
      content and creation time are kept. */
  ghost predicate Settled(row: QueuedTx, tx: QueuedTx, after: QueuedTx)
  {
    after.id == row.id && after.txType == row.txType && after.payload == row.payload &&
    after.createdAt == row.createdAt && after.maxRetries == row.maxRetries &&
    ((after.status == Confirmed && after.retries == row.retries) ||
     ((after.status == Retrying || after.status == Failed) && after.retries == tx.retries + 1 &&
      (after.status == Failed <==> tx.retries + 1 >= tx.maxRetries)))
  }

  lemma OutcomeSettled(row: QueuedTx, tx: QueuedTx, result: Result<Receipt, string>, now: real)
    ensures Settled(row, tx, Outcome(row, tx, result, now))
    ensures Outcome(row, tx, result, now).status == Confirmed <==> result.Ok?
  {
  }

  lemma {:induction false} FailRowsEffect(rows: Table, txs: seq<QueuedTx>, error: string, now: real)
    requires DistinctIds(txs)
    ensures forall id :: id in rows && id !in Ids(txs) ==> FailRows(rows, txs, error, now)[id] == rows[id]
    ensures forall j :: 0 <= j < |txs| && txs[j].id in rows ==>
      FailRows(rows, txs, error, now)[txs[j].id] == Failure(rows[txs[j].id], txs[j], error, now)
  {
    if |txs| > 0 {
      var n := |txs|;
      var init, tx := txs[..n - 1], txs[n - 1];
      assert DistinctIds(init);
      FailRowsEffect(rows, init, error, now);
      var prev, r := FailRows(rows, init, error, now), FailRows(rows, txs, error, now);
      assert r == if tx.id in prev then prev[tx.id := Failure(prev[tx.id], tx, error, now)] else prev;
      IdsOfInit(txs);
      forall j | 0 <= j < n && txs[j].id in rows
        ensures r[txs[j].id] == Failure(rows[txs[j].id], txs[j], error, now)
      {
        if j < n - 1 {
          assert init[j] == txs[j];
        }
      }
    }
  }

  /** With distinct ids, the last id is not among the earlier ones, and an id
      of the earlier ones is an id of the whole list. */
  lemma IdsOfInit(txs: seq<QueuedTx>)
    requires DistinctIds(txs) && |txs| > 0
    ensures txs[|txs| - 1].id !in Ids(txs[..|txs| - 1])
    ensures forall id :: id in Ids(txs[..|txs| - 1]) ==> id in Ids(txs)
  {
    assert Ids(txs[..|txs| - 1]) == Ids(txs)[..|txs| - 1];
  }

  /** Sending touches only the sent rows, and each of them gets the outcome
      of the call. */
  lemma SendEffect(rows: Table, txs: seq<QueuedTx>, result: Result<Receipt, string>, now: real)
    requires DistinctIds(txs)
    ensures Send(rows, txs, result, now).Keys == rows.Keys
    ensures forall id :: id in rows && id !in Ids(txs) ==> Send(rows, txs, result, now)[id] == rows[id]
    ensures forall j :: 0 <= j < |txs| && txs[j].id in rows ==>
      Send(rows, txs, result, now)[txs[j].id] == Outcome(rows[txs[j].id], txs[j], result, now)
  {
    if |txs| > 0 && result.Err? {
      FailRowsEffect(SetStatus(rows, Ids(txs), Pending, now), txs, result.error, now);
    }
  }

  // ---------------------------------------------------------------------
  // Dispatch and chunking
  // ---------------------------------------------------------------------

  /** `_dispatch`: a known type goes to its contract call (a parameter); an
      unknown one is a ValueError. */
  function Dispatch(tx: QueuedTx, call: (string, string) -> Result<Receipt, string>): (r: Result<Receipt, string>)
    ensures tx.txType !in DispatchTypes ==> r == Err("Unknown tx_type: " + tx.txType)
    ensures tx.txType in DispatchTypes ==> r == call(tx.txType, tx.payload)
  {
    if tx.txType in DispatchTypes then call(tx.txType, tx.payload) else Err("Unknown tx_type: " + tx.txType)
  }

  /** `batchable[i : i + size]` for i in `range(0, len, size)`. */
  function Chunks<T>(s: seq<T>, size: int): seq<seq<T>>
    requires size > 0
    decreases |s|
  {
    if |s| == 0 then []
    else if |s| <= size then [s]
    else [s[..size]] + Chunks(s[size..], size)
  }

  function Concat<T>(ss: seq<seq<T>>): seq<T>
  {
    if |ss| == 0 then [] else ss[0] + Concat(ss[1..])
  }

  /** The chunks are non-empty, hold at most `size` elements (exactly `size`
      except the last), and concatenate back to the list. */
  lemma {:induction false} ChunksSpec<T>(s: seq<T>, size: int)
    requires size > 0
    ensures Concat(Chunks(s, size)) == s
    ensures forall k :: 0 <= k < |Chunks(s, size)| ==> 0 < |Chunks(s, size)[k]| <= size
    ensures forall k :: 0 <= k < |Chunks(s, size)| - 1 ==> |Chunks(s, size)[k]| == size
    decreases |s|
  {
    if |s| > size {
      var rest := Chunks(s[size..], size);
      ChunksSpec(s[size..], size);
      assert Chunks(s, size)[1..] == rest;
      assert s == s[..size] + s[size..];
    }
  }

  /** One turn of the chunking loop (`i` advancing by `size` is the list
      losing its first chunk): the first chunk, then the chunks of the
      rest. */
  lemma ChunkStep<T>(s: seq<T>, size: int)
    requires size > 0 && |s| > 0
    ensures var end := if size <= |s| then size else |s|;
      Chunks(s, size) == [s[..end]] + Chunks(s[end..], size)
  {
    if |s| <= size {
      assert s[..|s|] == s;
      assert s[|s|..] == [];
    }
  }

  function Batchable(txs: seq<QueuedTx>): (r: seq<QueuedTx>)
  {
    if |txs| == 0 then []
    else Batchable(txs[..|txs| - 1]) + (if txs[|txs| - 1].txType == BatchableType then [txs[|txs| - 1]] else [])
  }

  function Individual(txs: seq<QueuedTx>): (r: seq<QueuedTx>)
  {
    if |txs| == 0 then []
    else Individual(txs[..|txs| - 1]) + (if txs[|txs| - 1].txType != BatchableType then [txs[|txs| - 1]] else [])
  }

  /** The two lists split the pending rows by type, keeping their order. */
  lemma {:induction false} PartitionMembers(txs: seq<QueuedTx>)
    requires DistinctIds(txs)
    ensures DistinctIds(Batchable(txs)) && DistinctIds(Individual(txs))
    ensures forall tx :: tx in Batchable(txs) <==> tx in txs && tx.txType == BatchableType
    ensures forall tx :: tx in Individual(txs) <==> tx in txs && tx.txType != BatchableType
  {
    if |txs| > 0 {
      var init := txs[..|txs| - 1];
      PartitionMembers(init);
      var last := txs[|txs| - 1];
      assert txs == init + [last];
      forall tx | tx in init
        ensures tx.id != last.id
      {
        var k :| 0 <= k < |init| && init[k] == tx;
      }
    }
  }

  /** The batch pass over the chunks, in order. */
  function SendChunks(rows: Table, chunks: seq<seq<QueuedTx>>, batchCall: seq<string> -> Result<Receipt, string>, now: real): Table
  {
    if |chunks| == 0 then rows
    else SendChunks(Send(rows, chunks[0], batchCall(Payloads(chunks[0])), now), chunks[1..], batchCall, now)
  }

  /** The single pass over the other rows, in order. */
  function SendSingles(rows: Table, txs: seq<QueuedTx>, call: (string, string) -> Result<Receipt, string>, now: real): Table
  {
    if |txs| == 0 then rows
    else SendSingles(Send(rows, [txs[0]], Dispatch(txs[0], call), now), txs[1..], call, now)
  }

  /** The table after a `process_queue` pass over `pending` that raised
      nothing. A negative batch size gives an empty `range`: the batchable
      rows are not sent. */
  function ProcessedTable(rows: Table, pending: seq<QueuedTx>, batchSize: int,
                          batchCall: seq<string> -> Result<Receipt, string>,
                          call: (string, string) -> Result<Receipt, string>, now: real): Table
  {
    var afterBatches := if batchSize > 0 then SendChunks(rows, Chunks(Batchable(pending), batchSize), batchCall, now) else rows;
    SendSingles(afterBatches, Individual(pending), call, now)
  }

  lemma DistinctConcat(a: seq<QueuedTx>, b: seq<QueuedTx>)
    requires DistinctIds(a + b)
    ensures DistinctIds(a) && DistinctIds(b)
    ensures forall x, y :: x in a && y in b ==> x.id != y.id
  {
    assert forall i :: 0 <= i < |a| ==> (a + b)[i] == a[i];
    assert forall i :: 0 <= i < |b| ==> (a + b)[|a| + i] == b[i];
    forall x, y | x in a && y in b
      ensures x.id != y.id
    {
      var i :| 0 <= i < |a| && a[i] == x;
      var j :| 0 <= j < |b| && b[j] == y;
      assert (a + b)[|a| + j] == y;
    }
  }

  lemma InIds(txs: seq<QueuedTx>, id: nat)
    ensures id in Ids(txs) <==> exists tx :: tx in txs && tx.id == id
  {
    if id in Ids(txs) {
      var k :| 0 <= k < |txs| && Ids(txs)[k] == id;
      assert txs[k] in txs;
    }
  }

  /** The batch pass settles exactly the rows of the chunks. */
  lemma {:induction false} SendChunksEffect(rows: Table, chunks: seq<seq<QueuedTx>>,
                                           batchCall: seq<string> -> Result<Receipt, string>, now: real)
    requires DistinctIds(Concat(chunks))
    ensures SendChunks(rows, chunks, batchCall, now).Keys == rows.Keys
    ensures forall id :: id in rows && (forall tx :: tx in Concat(chunks) ==> tx.id != id) ==>
      SendChunks(rows, chunks, batchCall, now)[id] == rows[id]
    ensures forall tx :: tx in Concat(chunks) && tx.id in rows ==>
      Settled(rows[tx.id], tx, SendChunks(rows, chunks, batchCall, now)[tx.id])
  {
    if |chunks| > 0 {
      var c := chunks[0];
      var result := batchCall(Payloads(c));
      var mid := Send(rows, c, result, now);
      var final := SendChunks(rows, chunks, batchCall, now);
      DistinctConcat(c, Concat(chunks[1..]));
      SendEffect(rows, c, result, now);
      SendChunksEffect(mid, chunks[1..], batchCall, now);
      forall id | id in rows && (forall tx :: tx in Concat(chunks) ==> tx.id != id)
        ensures final[id] == rows[id]
      {
        InIds(c, id);
      }
      forall tx | tx in Concat(chunks) && tx.id in rows
        ensures Settled(rows[tx.id], tx, final[tx.id])
      {
        if tx in c {
          var j :| 0 <= j < |c| && c[j] == tx;
          OutcomeSettled(rows[tx.id], tx, result, now);
        } else {
          InIds(c, tx.id);
        }
      }
    }
  }

  /** The single pass gives each row the outcome of its own dispatch. */
  lemma {:induction false} SendSinglesEffect(rows: Table, txs: seq<QueuedTx>,
                                            call: (string, string) -> Result<Receipt, string>, now: real)
    requires DistinctIds(txs)
    ensures SendSingles(rows, txs, call, now).Keys == rows.Keys
    ensures forall id :: id in rows && (forall tx :: tx in txs ==> tx.id != id) ==>
      SendSingles(rows, txs, call, now)[id] == rows[id]
    ensures forall tx :: tx in txs && tx.id in rows ==>
      SendSingles(rows, txs, call, now)[tx.id] == Outcome(rows[tx.id], tx, Dispatch(tx, call), now)
  {
    if |txs| > 0 {
      var first, rest := txs[0], txs[1..];
      var result := Dispatch(first, call);
      var mid := Send(rows, [first], result, now);
      var final := SendSingles(rows, txs, call, now);
      assert final == SendSingles(mid, rest, call, now);
      DistinctTail(txs);
      SendOneEffect(rows, first, result, now);
      SendSinglesEffect(mid, rest, call, now);
      forall id | id in rows && (forall tx :: tx in txs ==> tx.id != id)
        ensures final[id] == rows[id]
      {
        assert first in txs;
      }
      forall tx | tx in txs && tx.id in rows
        ensures final[tx.id] == Outcome(rows[tx.id], tx, Dispatch(tx, call), now)
      {
        if tx != first {
          assert tx in rest;
        }
      }
    }
  }

  /** Sending one transaction settles its row and no other. */
  lemma SendOneEffect(rows: Table, tx: QueuedTx, result: Result<Receipt, string>, now: real)
    ensures Send(rows, [tx], result, now).Keys == rows.Keys
    ensures forall id :: id in rows && id != tx.id ==> Send(rows, [tx], result, now)[id] == rows[id]
    ensures tx.id in rows ==> Send(rows, [tx], result, now)[tx.id] == Outcome(rows[tx.id], tx, result, now)
  {
    assert Ids([tx]) == [tx.id];
    SendEffect(rows, [tx], result, now);
  }

  lemma DistinctTail(txs: seq<QueuedTx>)
    requires DistinctIds(txs) && |txs| > 0
    ensures DistinctIds(txs[1..])
    ensures forall tx :: tx in txs[1..] ==> tx.id != txs[0].id
  {
    assert txs == [txs[0]] + txs[1..];
    DistinctConcat([txs[0]], txs[1..]);
  }

  /** The batch phase: with a positive batch size every batched row is
      settled by its chunk's call and no other row changes; otherwise the
      table is left as it was. */
  lemma BatchPhaseEffect(rows: Table, batch: seq<QueuedTx>, batchSize: int,
                         batchCall: seq<string> -> Result<Receipt, string>, now: real)
    requires DistinctIds(batch) && RowsOf(rows, batch)
    ensures var mid := if batchSize > 0 then SendChunks(rows, Chunks(batch, batchSize), batchCall, now) else rows;
      mid.Keys == rows.Keys &&
      (forall id :: id in rows && (forall tx :: tx in batch ==> tx.id != id) ==> mid[id] == rows[id]) &&
      (forall tx :: tx in batch ==> if batchSize > 0 then Settled(tx, tx, mid[tx.id]) else mid[tx.id] == tx)
  {
    if batchSize > 0 {
      ChunksSpec(batch, batchSize);
      SendChunksEffect(rows, Chunks(batch, batchSize), batchCall, now);
    }
  }

  /** What a processing pass does to the table: keys and every row outside
      the pending list are kept; a pending row of another type ends with the
      outcome of its own dispatch (an unknown type counts as a failed send);
      a pending `register_video` row is settled when the batch size is
      positive and left as it was when it is negative. */
  lemma ProcessedTableEffect(rows: Table, nextId: nat, batchSize: int,
                             batchCall: seq<string> -> Result<Receipt, string>,
                             call: (string, string) -> Result<Receipt, string>, now: real)
    requires WellKeyed(rows, nextId)
    ensures var pending := QueuedRows(rows, nextId, 200);
      var t := ProcessedTable(rows, pending, batchSize, batchCall, call, now);
      t.Keys == rows.Keys && RowsOf(rows, pending) &&
      (forall id :: id in rows && rows[id] !in pending ==> t[id] == rows[id]) &&
      (forall tx :: tx in pending && tx.txType != BatchableType ==>
         t[tx.id] == Outcome(tx, tx, Dispatch(tx, call), now)) &&
      (forall tx :: tx in pending && tx.txType == BatchableType ==>
         if batchSize > 0 then Settled(tx, tx, t[tx.id]) else t[tx.id] == tx)
  {
    var pending := QueuedRows(rows, nextId, 200);
    QueuedRowsSpec(rows, nextId, 200);
    ProcessedUntouched(rows, pending, batchSize, batchCall, call, now);
    ProcessedSent(rows, pending, batchSize, batchCall, call, now);
  }

  /** Rows of the pass are distinct and apart from one another: the two
      phases never touch the same row. */
  lemma PassSetup(rows: Table, pending: seq<QueuedTx>)
    requires DistinctIds(pending) && RowsOf(rows, pending)
    ensures DistinctIds(Batchable(pending)) && DistinctIds(Individual(pending))
    ensures RowsOf(rows, Batchable(pending)) && RowsOf(rows, Individual(pending))
    ensures forall tx :: tx in Batchable(pending) <==> tx in pending && tx.txType == BatchableType
    ensures forall tx :: tx in Individual(pending) <==> tx in pending && tx.txType != BatchableType
    ensures forall b, x :: b in Batchable(pending) && x in Individual(pending) ==> b.id != x.id
  {
    PartitionMembers(pending);
  }

  /** A row the pass does not send keeps its value. */
  lemma ProcessedUntouched(rows: Table, pending: seq<QueuedTx>, batchSize: int,
                           batchCall: seq<string> -> Result<Receipt, string>,
                           call: (string, string) -> Result<Receipt, string>, now: real)
    requires DistinctIds(pending) && RowsOf(rows, pending)
    ensures var t := ProcessedTable(rows, pending, batchSize, batchCall, call, now);
      t.Keys == rows.Keys &&
      (forall id :: id in rows && rows[id] !in pending ==> t[id] == rows[id])
  {
    PassSetup(rows, pending);
    var batch, single := Batchable(pending), Individual(pending);
    var mid := if batchSize > 0 then SendChunks(rows, Chunks(batch, batchSize), batchCall, now) else rows;
    BatchPhaseEffect(rows, batch, batchSize, batchCall, now);
    SendSinglesEffect(mid, single, call, now);
    forall id | id in rows && rows[id] !in pending
      ensures (forall tx :: tx in batch ==> tx.id != id) && (forall tx :: tx in single ==> tx.id != id)
    {
    }
  }

  /** A sent row ends with the outcome of its phase. */
  lemma ProcessedSent(rows: Table, pending: seq<QueuedTx>, batchSize: int,
                      batchCall: seq<string> -> Result<Receipt, string>,
                      call: (string, string) -> Result<Receipt, string>, now: real)
    requires DistinctIds(pending) && RowsOf(rows, pending)
    ensures var t := ProcessedTable(rows, pending, batchSize, batchCall, call, now);
      (forall tx :: tx in pending && tx.txType != BatchableType ==>
         tx.id in t && t[tx.id] == Outcome(tx, tx, Dispatch(tx, call), now)) &&
      (forall tx :: tx in pending && tx.txType == BatchableType ==>
         tx.id in t && if batchSize > 0 then Settled(tx, tx, t[tx.id]) else t[tx.id] == tx)
  {
    PassSetup(rows, pending);
    var batch, single := Batchable(pending), Individual(pending);
    var mid := if batchSize > 0 then SendChunks(rows, Chunks(batch, batchSize), batchCall, now) else rows;
    BatchPhaseEffect(rows, batch, batchSize, batchCall, now);
    SendSinglesEffect(mid, single, call, now);
    forall tx | tx in single
      ensures tx.id in mid && mid[tx.id] == tx
    {
      forall b | b in batch
        ensures b.id != tx.id
      {
      }
    }
  }

  // ---------------------------------------------------------------------
  // Purge, retry and nonce
  // ---------------------------------------------------------------------

  /** `purge_completed`: CONFIRMED and FAILED rows last updated before the
      cutoff are deleted. */
  function Purged(rows: Table, cutoff: real): (r: Table)
  {
    map id | id in rows && !((rows[id].status == Confirmed || rows[id].status == Failed) && rows[id].updatedAt < cutoff) :: rows[id]
  }

  lemma PurgedSpec(rows: Table, cutoff: real)
    ensures forall id :: id in Purged(rows, cutoff) ==> id in rows && Purged(rows, cutoff)[id] == rows[id]
    ensures forall id :: id in rows && id !in Purged(rows, cutoff) <==>
      id in rows && (rows[id].status == Confirmed || rows[id].status == Failed) && rows[id].updatedAt < cutoff
  {
  }

  /** `retry_failed`: every FAILED row is QUEUED again with no retries and
      no error. */
  function Requeued(rows: Table, now: real): (r: Table)
  {
    map id | id in rows :: if rows[id].status == Failed then rows[id].(status := Queued, retries := 0, error := "", updatedAt := now) else rows[id]
  }

  lemma RequeuedSpec(rows: Table, now: real)
    ensures Requeued(rows, now).Keys == rows.Keys
    ensures forall id :: id in rows && rows[id].status != Failed ==> Requeued(rows, now)[id] == rows[id]
    ensures forall id :: id in rows && rows[id].status == Failed ==>
      var r := Requeued(rows, now)[id];
      r.status == Queued && Waiting(r) && r.retries == 0 && r.error == "" &&
      r.id == rows[id].id && r.payload == rows[id].payload && r.createdAt == rows[id].createdAt
    ensures forall id :: id in Requeued(rows, now) ==> Requeued(rows, now)[id].status != Failed
  {
  }

  /** `_get_nonce`: the chain count when no nonce is cached, one more than
      the cached one otherwise. */
  function NextNonce(cached: Option<int>, chainCount: int): int
  {
    if cached.None? then chainCount else cached.value + 1
  }

  /** The nonces handed out by successive calls, each call given the chain
      count it would read. */
  function Nonces(cached: Option<int>, chainCounts: seq<int>): (r: seq<int>)
    ensures |r| == |chainCounts|
    decreases |chainCounts|
  {
    if |chainCounts| == 0 then []
    else
      var n := NextNonce(cached, chainCounts[0]);
      [n] + Nonces(Some(n), chainCounts[1..])
  }

  /** After a reset, the first call reads the chain and every later call
      counts up from it, whatever the chain says by then. */
  lemma {:induction false} NoncesAfterReset(chainCounts: seq<int>)
    requires |chainCounts| >= 1
    ensures forall i :: 0 <= i < |chainCounts| ==> Nonces(None, chainCounts)[i] == chainCounts[0] + i
  {
    NoncesCountUp(chainCounts[0], chainCounts[1..]);
  }

  lemma {:induction false} NoncesCountUp(start: int, chainCounts: seq<int>)
    ensures forall i :: 0 <= i < |chainCounts| ==> Nonces(Some(start), chainCounts)[i] == start + 1 + i
    decreases |chainCounts|
  {
    if |chainCounts| > 0 {
      NoncesCountUp(start + 1, chainCounts[1..]);
    }
  }

  // ---------------------------------------------------------------------
  // The manager
  // ---------------------------------------------------------------------

  class TransactionManager {
    var rows: Table
    /** The next AUTOINCREMENT id. */
    var nextId: nat
    var nonce: Option<int>
    const batchSize: int
    const maxRetries: int

    ghost predicate Valid()
      reads this
    {
      WellKeyed(rows, nextId)
    }

    /** A manager over an empty queue table. */
    constructor (requestedBatchSize: int, maxRetries: int)
      ensures Valid() && rows == map[] && nonce.None?
      ensures batchSize == EffectiveBatchSize(requestedBatchSize) && this.maxRetries == maxRetries
    {
      rows := map[];
      nextId := 1;
      nonce := None;
      batchSize := EffectiveBatchSize(requestedBatchSize);
      this.maxRetries := maxRetries;
    }

    /** `enqueue`: one new QUEUED row with no retries under a fresh id. */
    method Enqueue(txType: string, payload: string, now: real) returns (qid: nat)
      requires Valid()
      modifies this
      ensures Valid() && nonce == old(nonce)
      ensures qid !in old(rows) && nextId == qid + 1
      ensures rows == old(rows)[qid := QueuedTx(qid, txType, payload, Queued, "", 0, maxRetries, now, now, "", 0, 0)]
    {
      qid := nextId;
      rows := rows[qid := QueuedTx(qid, txType, payload, Queued, "", 0, maxRetries, now, now, "", 0, 0)];
      nextId := nextId + 1;
    }

    /** `get_queued`: scan the table, order by creation time, apply the
      limit. */
    method GetQueued(limit: int) returns (txs: seq<QueuedTx>)
      ensures txs == QueuedRows(rows, nextId, limit)
    {
      var scanned: seq<QueuedTx> := [];
      var id := 0;
      while id < nextId
        invariant 0 <= id <= nextId
        invariant scanned == Scan(rows, id)
      {
        if id in rows && rows[id].id == id && Waiting(rows[id]) {
          scanned := scanned + [rows[id]];
        }
        id := id + 1;
      }
      txs := SqlLimit(SortBy(scanned, CreatedLe), limit);
    }

    /** `get_status`. */
    function GetStatus(qid: int): (r: Option<QueuedTx>)
      reads this
      ensures r.Some? <==> qid >= 0 && qid in rows
      ensures r.Some? ==> r.value == rows[qid]
    {
      if qid >= 0 && qid in rows then Some(rows[qid]) else None
    }

    method UpdateStatus(ids: seq<nat>, status: TxStatus, now: real)
      requires Valid()
      modifies this
      ensures Valid() && nextId == old(nextId) && nonce == old(nonce)
      ensures rows == SetStatus(old(rows), ids, status, now)
    {
      ghost var start := rows;
      var i := 0;
      while i < |ids|
        invariant 0 <= i <= |ids|
        invariant rows == SetStatus(start, ids[..i], status, now)
        invariant nextId == old(nextId) && nonce == old(nonce)
      {
        var qid := ids[i];
        SetStatusStep(start, ids, i, status, now);
        if qid in rows {
          rows := rows[qid := rows[qid].(status := status, updatedAt := now)];
        }
        i := i + 1;
      }
      assert ids[..i] == ids;
    }

    method UpdateConfirmed(ids: seq<nat>, receipt: Receipt, now: real)
      requires Valid()
      modifies this
      ensures Valid() && nextId == old(nextId) && nonce == old(nonce)
      ensures rows == ConfirmRows(old(rows), ids, receipt, now)
    {
      ghost var start := rows;
      var i := 0;
      while i < |ids|
        invariant 0 <= i <= |ids|
        invariant rows == ConfirmRows(start, ids[..i], receipt, now)
        invariant nextId == old(nextId) && nonce == old(nonce)
      {
        var qid := ids[i];
        if qid in rows {
          rows := rows[qid := Confirm(rows[qid], receipt, now)];
        }
        assert ids[..i + 1] == ids[..i] + [qid];
        i := i + 1;
      }
      assert ids[..i] == ids;
    }

    method HandleFailure(txs: seq<QueuedTx>, error: string, now: real)
      requires Valid()
      modifies this
      ensures Valid() && nextId == old(nextId) && nonce == old(nonce)
      ensures rows == FailRows(old(rows), txs, error, now)
    {
      ghost var start := rows;
      var i := 0;
      while i < |txs|
        invariant 0 <= i <= |txs|
        invariant rows == FailRows(start, txs[..i], error, now)
        invariant Valid() && nextId == old(nextId) && nonce == old(nonce)
      {
        var tx := txs[i];
        if tx.id in rows {
          rows := rows[tx.id := Failure(rows[tx.id], tx, error, now)];
        }
        assert txs[..i + 1][..i] == txs[..i];
        i := i + 1;
      }
      assert txs[..i] == txs;
    }

    /** `_process_batch` / `_process_single`, with the call's result given. */
    method SendRows(txs: seq<QueuedTx>, result: Result<Receipt, string>, now: real)
      requires Valid()
      modifies this
      ensures Valid() && nextId == old(nextId) && nonce == old(nonce)
      ensures rows == Send(old(rows), txs, result, now)
    {
      if |txs| == 0 {
        return;
      }
      var ids := Ids(txs);
      UpdateStatus(ids, Pending, now);
      match result {
        case Ok(receipt) => UpdateConfirmed(ids, receipt, now);
        case Err(e) => HandleFailure(txs, e, now);
      }
    }

    /** `process_queue`: up to 200 waiting rows; `register_video` rows go out
      in chunks of `batchSize`, the others one by one. With a zero batch
      size `range` raises before anything is sent. */
    method ProcessQueue(now: real, batchCall: seq<string> -> Result<Receipt, string>,
                        call: (string, string) -> Result<Receipt, string>)
      returns (err: Option<string>)
      requires Valid()
      modifies this
      ensures Valid() && nextId == old(nextId) && nonce == old(nonce)
      ensures var pending := QueuedRows(old(rows), nextId, 200);
        if |pending| == 0 then err.None? && rows == old(rows)
        else if batchSize == 0 then err == Some("range() arg 3 must not be zero") && rows == old(rows)
        else err.None? && rows == ProcessedTable(old(rows), pending, batchSize, batchCall, call, now)
    {
      err := None;
      var pending := GetQueued(200);
      if |pending| == 0 {
        return;
      }
      if batchSize == 0 {
        return Some("range() arg 3 must not be zero");
      }
      if batchSize > 0 {
        SendBatches(Batchable(pending), batchCall, now);
      }
      SendEach(Individual(pending), call, now);
    }

    /** The batch loop of `process_queue`. */
    method SendBatches(batch: seq<QueuedTx>, batchCall: seq<string> -> Result<Receipt, string>, now: real)
      requires Valid() && batchSize > 0
      modifies this
      ensures Valid() && nextId == old(nextId) && nonce == old(nonce)
      ensures rows == SendChunks(old(rows), Chunks(batch, batchSize), batchCall, now)
    {
      ghost var start := rows;
      var rest := batch;
      while |rest| > 0
        invariant Valid() && nextId == old(nextId) && nonce == old(nonce)
        invariant SendChunks(rows, Chunks(rest, batchSize), batchCall, now) ==
                  SendChunks(start, Chunks(batch, batchSize), batchCall, now)
      {
        var end := if batchSize <= |rest| then batchSize else |rest|;
        var chunk := rest[..end];
        ChunkStep(rest, batchSize);
        SendRows(chunk, batchCall(Payloads(chunk)), now);
        rest := rest[end..];
      }
    }

    /** The single-transaction loop of `process_queue`. */
    method SendEach(single: seq<QueuedTx>, call: (string, string) -> Result<Receipt, string>, now: real)
      requires Valid()
      modifies this
      ensures Valid() && nextId == old(nextId) && nonce == old(nonce)
      ensures rows == SendSingles(old(rows), single, call, now)
    {
      ghost var start := rows;
      var k := 0;
      while k < |single|
        invariant 0 <= k <= |single|
        invariant Valid() && nextId == old(nextId) && nonce == old(nonce)
        invariant SendSingles(rows, single[k..], call, now) == SendSingles(start, single, call, now)
      {
        assert single[k..][1..] == single[k + 1..];
        SendRows([single[k]], Dispatch(single[k], call), now);
        k := k + 1;
      }
    }

    /** `_get_nonce`. */
    method GetNonce(chainCount: int) returns (n: int)
      modifies this
      ensures n == NextNonce(old(nonce), chainCount) && nonce == Some(n)
      ensures rows == old(rows) && nextId == old(nextId)
    {
      if nonce.None? {
        n := chainCount;
      } else {
        n := nonce.value + 1;
      }
      nonce := Some(n);
    }

    /** `reset_nonce`. */
    method ResetNonce()
      modifies this
      ensures nonce.None? && rows == old(rows) && nextId == old(nextId)
    {
      nonce := None;
    }

    /** `purge_completed`: the cutoff is `older_than_hours` before now. */
    method PurgeCompleted(olderThanHours: int, now: real)
      requires Valid()
      modifies this
      ensures Valid() && nextId == old(nextId) && nonce == old(nonce)
      ensures rows == Purged(old(rows), now - (olderThanHours * 3600) as real)
    {
      rows := Purged(rows, now - (olderThanHours * 3600) as real);
    }

    /** `retry_failed`. */
    method RetryFailed(now: real)
      requires Valid()
      modifies this
      ensures Valid() && nextId == old(nextId) && nonce == old(nonce)
      ensures rows == Requeued(old(rows), now)
    {
      rows := Requeued(rows, now);
    }
  }
}
