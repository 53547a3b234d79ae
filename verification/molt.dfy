/**
  The molt decision rule and the construction of a molt summary. The random threshold
  draws, the clock, the balance query and the mint transaction are parameters.
*/
module Molt {
  import opened Wrappers
  import opened Config
  import Decimal
  import State

  // ── Molt condition check ─────────────────────────────────────────

  /** Why the rule decided as it did (the source renders these as text). */
  datatype MoltReason =
    | TooYoung
    | TxThresholdReached(txCount: int, txThreshold: int)
    | TimeThresholdReached(age: int, timeThreshold: int)
    | NotYetTime

  datatype MoltCheck = MoltCheck(shouldMolt: bool, reason: MoltReason)

  /**
    The gate as the code writes it: the check is only refused when BOTH the transaction
    count and the age are under their minimums, so meeting either one lets it through.
  */
  predicate PastGate(txCount: int, age: int)
  {
    !(txCount < TX_THRESHOLD_MIN && age < TIME_THRESHOLD_MIN_MS)
  }

  /** A legal pair of threshold draws. */
  predicate ValidDraws(txThreshold: int, timeThreshold: int)
  {
    && TX_THRESHOLD_MIN <= txThreshold <= TX_THRESHOLD_MAX
    && TIME_THRESHOLD_MIN_MS <= timeThreshold <= TIME_THRESHOLD_MAX_MS
  }

  /**
    `shouldMolt`, with the shell age `now - shellBornAt` and the two thresholds drawn for
    this call given as parameters.
  */
  function ShouldMolt(txCount: int, shellBornAt: int, now: int, txThreshold: int, timeThreshold: int): (r: MoltCheck)
    requires ValidDraws(txThreshold, timeThreshold)
    // The decision only depends on the draws: the gate never changes it, because
    // both draws are at least their minimums.
    ensures r.shouldMolt <==> txCount >= txThreshold || now - shellBornAt >= timeThreshold
    ensures !PastGate(txCount, now - shellBornAt) ==> r == MoltCheck(false, TooYoung)
    // The transaction trigger takes priority over the age trigger.
    ensures PastGate(txCount, now - shellBornAt) && txCount >= txThreshold ==>
              r == MoltCheck(true, TxThresholdReached(txCount, txThreshold))
    ensures PastGate(txCount, now - shellBornAt) && txCount < txThreshold && now - shellBornAt >= timeThreshold ==>
              r == MoltCheck(true, TimeThresholdReached(now - shellBornAt, timeThreshold))
    ensures !r.shouldMolt && PastGate(txCount, now - shellBornAt) ==> r.reason == NotYetTime
  {
    var age := now - shellBornAt;
    if txCount < TX_THRESHOLD_MIN && age < TIME_THRESHOLD_MIN_MS then
      MoltCheck(false, TooYoung)
    else if txCount >= txThreshold then
      MoltCheck(true, TxThresholdReached(txCount, txThreshold))
    else if age >= timeThreshold then
      MoltCheck(true, TimeThresholdReached(age, timeThreshold))
    else
      MoltCheck(false, NotYetTime)
  }

  /** A shell under both minimums never molts, whatever thresholds are drawn. */
  lemma TooYoungNeverMolts(txCount: int, shellBornAt: int, now: int)
    requires txCount < TX_THRESHOLD_MIN && now - shellBornAt < TIME_THRESHOLD_MIN_MS
    ensures forall tx, time :: ValidDraws(tx, time) ==>
              ShouldMolt(txCount, shellBornAt, now, tx, time) == MoltCheck(false, TooYoung)
  {
  }

  /** At or past either maximum the shell molts for every pair of draws. */
  lemma MoltForcedAtMaximum(txCount: int, shellBornAt: int, now: int)
    requires txCount >= TX_THRESHOLD_MAX || now - shellBornAt >= TIME_THRESHOLD_MAX_MS
    ensures forall tx, time :: ValidDraws(tx, time) ==>
              ShouldMolt(txCount, shellBornAt, now, tx, time).shouldMolt
  {
  }

  /** For fixed draws, more transactions or an older shell never turn a molt into a stay. */
  lemma ShouldMoltMonotone(txCount: int, txCount': int, shellBornAt: int, now: int, now': int,
                           txThreshold: int, timeThreshold: int)
    requires ValidDraws(txThreshold, timeThreshold)
    requires txCount <= txCount' && now <= now'
    requires ShouldMolt(txCount, shellBornAt, now, txThreshold, timeThreshold).shouldMolt
    ensures ShouldMolt(txCount', shellBornAt, now', txThreshold, timeThreshold).shouldMolt
  {
  }

  // ── Token id extraction ──────────────────────────────────────────

  /** keccak256("Transfer(address,address,uint256)"), the ERC-721 Transfer event topic. */
  const TRANSFER_TOPIC: nat := 0xddf252ad1be2c89b69c2b068fc378daa952ba7f163c4a11628f55a4df523b3ef

  /** A receipt log; each topic is a 32-byte word. */
  datatype Log = Log(topics: seq<nat>)

  /**
    A log the scan takes its token id from: its first topic is the Transfer signature and
    it has a fourth topic. A Transfer log without a fourth topic makes `BigInt(undefined)`
    throw; that error is caught for that log alone and the scan goes on.
  */
  predicate IsTokenTransfer(log: Log)
  {
    |log.topics| >= 4 && log.topics[0] == TRANSFER_TOPIC
  }

  /** Log `i` is the first one the scan accepts. */
  predicate FirstTransferAt(logs: seq<Log>, i: int)
  {
    && 0 <= i < |logs|
    && IsTokenTransfer(logs[i])
    && forall j :: 0 <= j < i ==> !IsTokenTransfer(logs[j])
  }

  /** `BigInt(log.topics[3]).toString()` */
  function TokenIdText(log: Log): string
    requires IsTokenTransfer(log)
  {
    Decimal.NatToString(log.topics[3])
  }

  /** The loop over `receipt.logs` that stops at the first Transfer log. */
  method ExtractTokenId(logs: seq<Log>) returns (tokenId: Option<string>)
    ensures tokenId.None? <==> forall i :: 0 <= i < |logs| ==> !IsTokenTransfer(logs[i])
    ensures tokenId.Some? ==>
              exists i :: FirstTransferAt(logs, i) && tokenId.value == TokenIdText(logs[i])
  {
    tokenId := None;
    for i := 0 to |logs|
      invariant tokenId.None?
      invariant forall j :: 0 <= j < i ==> !IsTokenTransfer(logs[j])
    {
      if IsTokenTransfer(logs[i]) {
        tokenId := Some(TokenIdText(logs[i]));
        assert FirstTransferAt(logs, i);
        return;
      }
    }
  }

  // ── Molt execution ───────────────────────────────────────────────

  /** What the mint transaction came to: a failure (thrown) or its receipt. */
  datatype MintOutcome = MintFailed | Minted(txHash: string, logs: seq<Log>)

  /** The snapshot of the outgoing shell, from which the life summary text is written. */
  datatype LifeStats = LifeStats(
    shellIndex: int,
    address: string,
    bornAt: int,
    txCount: int,
    totalValueMoved: string,
    finalBalance: nat)

  datatype MoltSummary = MoltSummary(
    oldShellIndex: int,
    newShellIndex: int,
    oldAddress: string,
    newAddress: string,
    txCount: int,
    totalValueMoved: string,
    migrationTxHash: Option<string>,
    mintTxHash: Option<string>,
    shellTokenId: Option<string>,
    lifeSummary: LifeStats)

  /** The errors `molt` lets escape to its caller. */
  datatype MoltError =
    | BalanceUnavailable   // getBalance threw before the mint was tried
    | ValueNotBigInt       // the life summary, built again outside the try, threw

  /**
    `molt`: snapshot the old shell, try the mint, and build the summary. It only reads
    `state`. A failed mint is swallowed; the summary then has no mint hash and no token id.
  */
  method Molt(state: State.AgentState, oldAddress: string, newAddress: string,
              oldBalance: Option<nat>, mint: MintOutcome)
    returns (r: Result<MoltSummary, MoltError>)
    ensures oldBalance.None? ==> r == Err(BalanceUnavailable)
    ensures oldBalance.Some? && Decimal.ParseBigInt(state.totalValueMoved).None? ==> r == Err(ValueNotBigInt)
    ensures r.Ok? <==> oldBalance.Some? && Decimal.ParseBigInt(state.totalValueMoved).Some?
    ensures r.Ok? ==>
              && r.value.oldShellIndex == state.currentShellIndex
              && r.value.newShellIndex == state.currentShellIndex + 1
              && r.value.txCount == state.txCount
              && r.value.totalValueMoved == state.totalValueMoved
              && r.value.oldAddress == oldAddress && r.value.newAddress == newAddress
              && r.value.migrationTxHash == None
              && r.value.lifeSummary == LifeStats(state.currentShellIndex, oldAddress, state.shellBornAt,
                                                  state.txCount, state.totalValueMoved, oldBalance.value)
    ensures r.Ok? && mint.MintFailed? ==> r.value.mintTxHash == None && r.value.shellTokenId == None
    ensures r.Ok? && mint.Minted? ==>
              && r.value.mintTxHash == Some(mint.txHash)
              && (r.value.shellTokenId.None? <==> forall i :: 0 <= i < |mint.logs| ==> !IsTokenTransfer(mint.logs[i]))
              && (r.value.shellTokenId.Some? ==>
                    exists i :: FirstTransferAt(mint.logs, i) && r.value.shellTokenId.value == TokenIdText(mint.logs[i]))
  {
    // 1. Collect stats (the balance query throws out of molt when it fails)
    if oldBalance.None? {
      return Err(BalanceUnavailable);
    }
    var stats := LifeStats(state.currentShellIndex, oldAddress, state.shellBornAt,
                           state.txCount, state.totalValueMoved, oldBalance.value);

    // 2. Mint; every failure inside this step is caught
    var migrationTxHash: Option<string> := None;
    var mintTxHash: Option<string> := None;
    var shellTokenId: Option<string> := None;
    var summaryBuilds := Decimal.ParseBigInt(stats.totalValueMoved).Some?;
    if summaryBuilds && mint.Minted? {
      mintTxHash := Some(mint.txHash);
      shellTokenId := ExtractTokenId(mint.logs);
    }

    // 4. Build summary (its life summary is rendered again, outside the try)
    if !summaryBuilds {
      return Err(ValueNotBigInt);
    }
    r := Ok(MoltSummary(stats.shellIndex, stats.shellIndex + 1, stats.address, newAddress,
                        stats.txCount, stats.totalValueMoved, migrationTxHash, mintTxHash,
                        shellTokenId, stats));
  }
}
