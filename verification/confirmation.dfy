/** `check_transaction` of the sweep script: poll every node for a submitted
    transaction, round after round, and let the first reply that parses as
    JSON decide between success, the retryable out-of-gas rejection and any
    other failure. Node replies are scripted: the k-th query overall gets the
    k-th reply. */
module Confirmation {
  import opened Base
  import opened Text

  /** What one `gaiad q tx` query printed: nothing (the node has not indexed
      the transaction), text that is not JSON, or a JSON object with an
      optional integer `code` and a `raw_log` ("" when absent). */
  datatype TxReply = NoOutput | NotJson | TxJson(code: Option<int>, rawLog: string)

  /** The three results `check_transaction` returns: `True`, `"out_of_gas"`, `False`. */
  datatype TxStatus = Confirmed | OutOfGas | NotConfirmed

  /** The chain's out-of-gas result code and the diagnostic text that must accompany it. */
  const OutOfGasCode: int := 11
  const OutOfGasText: string := "out of gas"

  /** Default `max_retries`: the number of polling rounds. */
  const DefaultRounds: nat := 10

  /** The raw log mentions running out of gas, in any letter case. */
  ghost predicate MentionsOutOfGas(rawLog: string) {
    exists i :: OccursAt(Lower(rawLog), OutOfGasText, i)
  }

  /** The decision taken on a parsed reply. A missing code counts as 1
      (`tx_data.get("code", 1)`), so only an explicit 0 confirms; the
      out-of-gas verdict needs both the code 11 and the text, matched after
      lower-casing. */
  function Classify(code: Option<int>, rawLog: string): (s: TxStatus)
    ensures s == Confirmed <==> code == Some(0)
    ensures s == OutOfGas <==> code == Some(OutOfGasCode) && MentionsOutOfGas(rawLog)
  {
    var text := Lower(rawLog);
    var found := Contains(text, OutOfGasText);
    assert found <==> MentionsOutOfGas(rawLog) by {
      ContainsAtOffset(text, OutOfGasText);
    }
    if code.GetOr(1) == 0 then Confirmed
    else if code == Some(OutOfGasCode) && found then OutOfGas
    else NotConfirmed
  }

  /** The reply to the k-th query; past the script's end nodes print nothing. */
  function ReplyAt(replies: seq<TxReply>, k: nat): TxReply {
    if k < |replies| then replies[k] else NoOutput
  }

  predicate Parsed(r: TxReply) {
    r.TxJson?
  }

  function ClassifyReply(r: TxReply): TxStatus
    requires Parsed(r)
  {
    Classify(r.code, r.rawLog)
  }

  /** Query `k` is the first of the first `limit` queries whose reply parses. */
  predicate FirstParsedAt(replies: seq<TxReply>, k: int, limit: int) {
    0 <= k < limit && Parsed(ReplyAt(replies, k))
    && forall j :: 0 <= j < k ==> !Parsed(ReplyAt(replies, j))
  }

  /** The first query at or after `k` and before `limit` whose reply parses. */
  function FirstParsedFrom(replies: seq<TxReply>, k: nat, limit: nat): (r: Option<nat>)
    ensures r.Some? ==> k <= r.value < limit && Parsed(ReplyAt(replies, r.value))
                        && forall j :: k <= j < r.value ==> !Parsed(ReplyAt(replies, j))
    ensures r.None? ==> forall j :: k <= j < limit ==> !Parsed(ReplyAt(replies, j))
    decreases limit - k
  {
    if k >= limit then None
    else if Parsed(ReplyAt(replies, k)) then Some(k)
    else FirstParsedFrom(replies, k + 1, limit)
  }

  /** The order in which nodes are queried: every node, in list order, once per round. */
  function Rounds(nodes: seq<string>, n: nat): (r: seq<string>)
    ensures |r| == n * |nodes|
    ensures forall k :: 0 <= k < |r| ==> r[k] == nodes[k % |nodes|]
  {
    if n == 0 then []
    else
      var before := Rounds(nodes, n - 1);
      forall k | |before| <= k < |before| + |nodes|
        ensures k % |nodes| == k - |before|
      {
        ModInLastRound(k, n - 1, |nodes|);
      }
      before + nodes
  }

  /** A query of round `m` (counting from 0) asks node `k - m * width`. */
  lemma ModInLastRound(k: nat, m: nat, width: nat)
    requires m * width <= k < m * width + width
    ensures k % width == k - m * width
  {
    var q := k / width;
    assert k == q * width + k % width;
    if q < m {
      MulStep(q, m, width);
      assert false;
    } else if q > m {
      MulStep(m, q, width);
      assert false;
    }
  }

  lemma {:induction false} RoundsGrow(nodes: seq<string>, a: nat, b: nat)
    requires a < b
    ensures Rounds(nodes, a) + nodes <= Rounds(nodes, b)
    decreases b
  {
    if a + 1 < b {
      RoundsGrow(nodes, a, b - 1);
      assert Rounds(nodes, b) == Rounds(nodes, b - 1) + nodes;
    }
  }

  /** The outcome of polling: the status and how many queries were made. */
  datatype Poll = Poll(status: TxStatus, queries: nat)

  /** `check_transaction(tx_hash, max_retries)` over `nodeCount` nodes: an
      empty hash is refused without a query; otherwise the first parseable
      reply among the `max_retries * nodeCount` queries decides, and when no
      reply parses the result is a failure after every query was made. */
  function CheckTransactionSpec(txHash: string, nodeCount: nat, maxRetries: nat, replies: seq<TxReply>): (p: Poll)
    ensures txHash == [] ==> p == Poll(NotConfirmed, 0)
    ensures p.queries <= maxRetries * nodeCount
    ensures txHash != [] ==> forall k :: FirstParsedAt(replies, k, maxRetries * nodeCount) ==>
              p == Poll(ClassifyReply(ReplyAt(replies, k)), k + 1)
    ensures txHash != [] && (forall j :: 0 <= j < maxRetries * nodeCount ==> !Parsed(ReplyAt(replies, j))) ==>
              p == Poll(NotConfirmed, maxRetries * nodeCount)
  {
    if txHash == [] then Poll(NotConfirmed, 0)
    else
      var limit := maxRetries * nodeCount;
      match FirstParsedFrom(replies, 0, limit)
      case Some(k) =>
        assert forall k' :: FirstParsedAt(replies, k', limit) ==> k' == k;
        Poll(ClassifyReply(ReplyAt(replies, k)), k + 1)
      case None => Poll(NotConfirmed, limit)
  }

  lemma MulStep(a: nat, b: nat, n: nat)
    requires a < b
    ensures (a + 1) * n <= b * n
  {
  }

  /** Polling decided at query `k` because it is the first parseable one. */
  lemma DecidedAt(txHash: string, nodeCount: nat, maxRetries: nat, replies: seq<TxReply>, k: nat)
    requires txHash != []
    requires FirstParsedAt(replies, k, maxRetries * nodeCount)
    ensures CheckTransactionSpec(txHash, nodeCount, maxRetries, replies) == Poll(ClassifyReply(ReplyAt(replies, k)), k + 1)
  {
  }

  /** One round: query every node in order from query number `start`, stopping
      at the first parseable reply. */
  method PollRound(nodes: seq<string>, replies: seq<TxReply>, start: nat) returns (decision: Option<TxStatus>, asked: nat)
    ensures asked <= |nodes|
    ensures forall j :: start <= j < start + asked - (if decision.Some? then 1 else 0) ==> !Parsed(ReplyAt(replies, j))
    ensures decision.None? ==> asked == |nodes|
    ensures decision.Some? ==> asked >= 1 && Parsed(ReplyAt(replies, start + asked - 1))
                               && decision.value == ClassifyReply(ReplyAt(replies, start + asked - 1))
  {
    asked := 0;
    while asked < |nodes|
      invariant asked <= |nodes|
      invariant forall j :: start <= j < start + asked ==> !Parsed(ReplyAt(replies, j))
    {
      var reply := ReplyAt(replies, start + asked);
      asked := asked + 1;
      if Parsed(reply) {
        decision := Some(ClassifyReply(reply));
        return;
      }
    }
    decision := None;
  }

  /** The polling loop: rounds of queries to every node, stopping at the first
      parseable reply. `queried` lists the nodes asked, in order. */
  method CheckTransaction(txHash: string, nodes: seq<string>, maxRetries: nat, replies: seq<TxReply>)
    returns (status: TxStatus, queried: seq<string>)
    ensures Poll(status, |queried|) == CheckTransactionSpec(txHash, |nodes|, maxRetries, replies)
    ensures queried <= Rounds(nodes, maxRetries)
  {
    queried := [];
    if txHash == [] {
      status := NotConfirmed;
      return;
    }
    var round: nat := 0;
    while round < maxRetries
      invariant round <= maxRetries
      invariant queried == Rounds(nodes, round)
      invariant forall j :: 0 <= j < |queried| ==> !Parsed(ReplyAt(replies, j))
    {
      var decision, asked := PollRound(nodes, replies, |queried|);
      RoundsGrow(nodes, round, maxRetries);
      if decision.Some? {
        var k := |queried| + asked - 1;
        queried := queried + nodes[..asked];
        status := decision.value;
        MulStep(round, maxRetries, |nodes|);
        assert FirstParsedAt(replies, k, maxRetries * |nodes|);
        DecidedAt(txHash, |nodes|, maxRetries, replies, k);
        assert nodes[..asked] <= nodes;
        return;
      }
      assert nodes[..asked] == nodes;
      queried := queried + nodes;
      round := round + 1;
    }
    status := NotConfirmed;
  }
}
