/**
  The body of the agent's main loop: the in-place updates it makes to the state object
  after an action, when a cast is due, when it molts, and when it answers mentions, and
  the invariant those updates keep from one iteration to the next.
*/
module Agent {
  import opened Wrappers
  import opened Config
  import Decimal
  import State
  import Molt
  import LifeActions
  import Llm
  import Farcaster

  /** The most replied-to hashes the state remembers. */
  const REPLIED_CAP: nat := 200

  /**
    What every saved state keeps true, starting from the defaults: non-negative counters
    and shell index, a stored total that parses as a BigInt, and at most 200 remembered
    hashes. The action counter may stand at the cadence or above it, as in the save on
    line 112 that precedes the reset on line 125.
  */
  predicate Valid(s: State.StateRecord)
  {
    && s.txCount >= 0
    && s.totalMolts >= 0
    && s.currentShellIndex >= 0
    && Decimal.ParseBigInt(s.totalValueMoved).Some?
    && 0 <= s.actionsSinceCast
    && |s.repliedHashes| <= REPLIED_CAP
  }

  /** A valid state whose action counter is below the cadence: how a counted action leaves it. */
  predicate Settled(s: State.StateRecord)
  {
    Valid(s) && s.actionsSinceCast < CAST_EVERY_N_ACTIONS
  }

  /** A fresh state (or one loaded from no file) is valid and settled. */
  lemma DefaultValid(loadedAt: int)
    ensures Settled(State.DefaultRecord(loadedAt))
  {
  }

  // ── 1. Counting the action ───────────────────────────────────────

  /** `BigInt(state.totalValueMoved)` throws: the stored total is not an integer. */
  predicate CountFails(s: State.StateRecord, txHash: Option<string>)
  {
    Truthy(txHash) && Decimal.ParseBigInt(s.totalValueMoved).None?
  }

  /**
    The state after the counter update for an action. A transaction bumps `txCount` first;
    when the stored total then fails to parse, the update stops there.
  */
  function CountAction(s: State.StateRecord, txHash: Option<string>, value: nat): (t: State.StateRecord)
    ensures !Truthy(txHash) ==> t == s.(actionsSinceCast := s.actionsSinceCast + 1)
    ensures CountFails(s, txHash) ==> t == s.(txCount := s.txCount + 1)
    ensures Truthy(txHash) && !CountFails(s, txHash) ==>
              && t.txCount == s.txCount + 1
              && Decimal.ParseBigInt(t.totalValueMoved)
                 == Some(Decimal.ParseBigInt(s.totalValueMoved).value + value)
              && t.actionsSinceCast == s.actionsSinceCast + 1
              && t == s.(txCount := t.txCount, totalValueMoved := t.totalValueMoved,
                         actionsSinceCast := t.actionsSinceCast)
  {
    if !Truthy(txHash) then s.(actionsSinceCast := s.actionsSinceCast + 1)
    else
      match Decimal.ParseBigInt(s.totalValueMoved)
      case None => s.(txCount := s.txCount + 1)
      case Some(total) =>
        Decimal.ParseNatToString(total + value);
        s.(txCount := s.txCount + 1, totalValueMoved := Decimal.NatToString(total + value),
           actionsSinceCast := s.actionsSinceCast + 1)
  }

  /** From a valid state the update never throws, and the stored total stays an integer. */
  lemma CountActionNeverFails(s: State.StateRecord, txHash: Option<string>, value: nat)
    requires Valid(s)
    ensures !CountFails(s, txHash)
    ensures var t := CountAction(s, txHash, value);
            && Decimal.ParseBigInt(t.totalValueMoved).Some?
            && t.actionsSinceCast == s.actionsSinceCast + 1
  {
  }

  /** The error that reaches the main loop's handler from an iteration. */
  datatype LoopError =
    | BalanceUnavailable      // getBalance of the current shell threw, before the action
    | ActionFailed(actionError: LifeActions.ActionError)
    | TotalNotBigInt
    | MoltFailed(moltError: Molt.MoltError)
    | AnnouncementFailed(announceError: Farcaster.AnnounceError)
    | NewBalanceUnavailable   // getBalance of the new shell threw, after the state moved into it

  /** Lines 105-111 of the loop: count the transaction and its value, then the action. */
  method RecordAction(state: State.AgentState, txHash: Option<string>, value: nat)
    returns (r: Result<(), LoopError>)
    modifies state
    ensures state.Record() == CountAction(old(state.Record()), txHash, value)
    ensures r.Err? <==> CountFails(old(state.Record()), txHash)
    ensures r.Err? ==> r.error == TotalNotBigInt
  {
    if Truthy(txHash) {
      state.txCount := state.txCount + 1;
      var total := Decimal.ParseBigInt(state.totalValueMoved);
      if total.None? {
        return Err(TotalNotBigInt);
      }
      Decimal.ParseNatToString(total.value + value);
      state.totalValueMoved := Decimal.NatToString(total.value + value);
    }
    state.actionsSinceCast := state.actionsSinceCast + 1;
    r := Ok(());
  }

  // ── 2. The cast cadence ──────────────────────────────────────────

  /** The state after the cast step: the action counter resets once it reaches the cadence. */
  function ResetCast(s: State.StateRecord): (t: State.StateRecord)
    ensures t.actionsSinceCast < CAST_EVERY_N_ACTIONS
    ensures s.actionsSinceCast >= CAST_EVERY_N_ACTIONS ==> t == s.(actionsSinceCast := 0)
    ensures s.actionsSinceCast < CAST_EVERY_N_ACTIONS ==> t == s
  {
    if s.actionsSinceCast >= CAST_EVERY_N_ACTIONS then s.(actionsSinceCast := 0) else s
  }

  /** Which of the three casts the step posted. */
  datatype CastKind = GeneratedCast | LifeUpdate | Philosophical

  /** A cast the step posted: its kind and the text handed to `postCast`. */
  datatype CastPost = CastPost(kind: CastKind, text: string)

  /**
    Lines 114-127 of the loop. When the cadence is reached it posts the generated cast if
    there is one, otherwise a life update when the 1-to-10 draw is at most 7 and the action
    was a transaction, otherwise a musing; then it resets the counter.
  */
  method CastStep(state: State.AgentState, generated: Option<string>, draw: int, txHash: Option<string>,
                  description: string, musingDraw: int, musings: seq<string>)
    returns (post: Option<CastPost>)
    requires 1 <= draw <= 10 && 0 <= musingDraw < |musings|
    modifies state
    ensures state.Record() == ResetCast(old(state.Record()))
    ensures state.actionsSinceCast < CAST_EVERY_N_ACTIONS
    ensures post.Some? <==> old(state.actionsSinceCast) >= CAST_EVERY_N_ACTIONS
    ensures post.Some? && Truthy(generated) ==> post.value == CastPost(GeneratedCast, generated.value)
    ensures post.Some? && !Truthy(generated) && draw <= 7 && Truthy(txHash) ==>
              post.value == CastPost(LifeUpdate, Farcaster.LifeUpdateText(state.currentShellIndex, state.txCount,
                                                                          description, txHash))
    ensures post.Some? && !Truthy(generated) && !(draw <= 7 && Truthy(txHash)) ==>
              post.value == CastPost(Philosophical, Farcaster.PickPhilosophical(musingDraw, musings))
  {
    post := None;
    if state.actionsSinceCast >= CAST_EVERY_N_ACTIONS {
      if Truthy(generated) {
        post := Some(CastPost(GeneratedCast, generated.value));
      } else if draw <= 7 && Truthy(txHash) {
        post := Some(CastPost(LifeUpdate, Farcaster.LifeUpdateText(state.currentShellIndex, state.txCount,
                                                                   description, txHash)));
      } else {
        post := Some(CastPost(Philosophical, Farcaster.PickPhilosophical(musingDraw, musings)));
      }
      state.actionsSinceCast := 0;
    }
  }

  // ── 3. The molt ──────────────────────────────────────────────────

  /**
    Whether the loop molts: a reply to the molt question decides on its own and the rule
    is not consulted; only without a reply does the rule decide, with the draws given.
  */
  function MoltDue(s: State.StateRecord, moltReply: Option<string>, now: int,
                   txThreshold: int, timeThreshold: int): (due: bool)
    requires Molt.ValidDraws(txThreshold, timeThreshold)
    ensures Truthy(moltReply) ==> (due <==> Llm.HasYes(Llm.ToLower(moltReply.value)))
    ensures !Truthy(moltReply) ==>
              (due <==> s.txCount >= txThreshold || now - s.shellBornAt >= timeThreshold)
  {
    match Llm.ShouldMoltLLM(moltReply)
    case Some(llmMolt) => llmMolt
    case None => Molt.ShouldMolt(s.txCount, s.shellBornAt, now, txThreshold, timeThreshold).shouldMolt
  }

  /** Lines 129-139 of the loop: the decision, and the rule's check when the rule ran. */
  method DecideMolt(state: State.AgentState, moltReply: Option<string>, now: int,
                    txThreshold: int, timeThreshold: int)
    returns (doMolt: bool, ruleCheck: Option<Molt.MoltCheck>)
    requires Molt.ValidDraws(txThreshold, timeThreshold)
    ensures doMolt == MoltDue(state.Record(), moltReply, now, txThreshold, timeThreshold)
    ensures Truthy(moltReply) <==> ruleCheck.None?
    ensures !Truthy(moltReply) ==>
              ruleCheck == Some(Molt.ShouldMolt(state.txCount, state.shellBornAt, now, txThreshold, timeThreshold))
  {
    doMolt := false;
    ruleCheck := None;
    var llmMolt := Llm.ShouldMoltLLM(moltReply);
    if llmMolt.Some? {
      doMolt := llmMolt.value;
    } else {
      var check := Molt.ShouldMolt(state.txCount, state.shellBornAt, now, txThreshold, timeThreshold);
      doMolt := check.shouldMolt;
      ruleCheck := Some(check);
    }
  }

  /** The state of the new shell: counters reset, index and molt count advanced, clock restarted. */
  function AfterMolt(s: State.StateRecord, now: int): (t: State.StateRecord)
    ensures t.currentShellIndex == s.currentShellIndex + 1 && t.totalMolts == s.totalMolts + 1
    ensures t.txCount == 0 && t.totalValueMoved == "0" && t.actionsSinceCast == 0
    ensures Decimal.ParseBigInt(t.totalValueMoved) == Some(0)
    ensures t.shellBornAt == now
    ensures t.repliedHashes == s.repliedHashes && t.lastMentionTimestamp == s.lastMentionTimestamp
  {
    s.(currentShellIndex := s.currentShellIndex + 1, shellBornAt := now, txCount := 0,
       totalValueMoved := "0", actionsSinceCast := 0, totalMolts := s.totalMolts + 1)
  }

  /** A new shell is too young to molt again by the rule until the minimum age has passed. */
  lemma NewShellTooYoung(s: State.StateRecord, now: int, later: int)
    requires later - now < TIME_THRESHOLD_MIN_MS
    ensures var t := AfterMolt(s, now);
            forall tx, time :: Molt.ValidDraws(tx, time) ==>
              Molt.ShouldMolt(t.txCount, t.shellBornAt, later, tx, time) == Molt.MoltCheck(false, Molt.TooYoung)
  {
    var t := AfterMolt(s, now);
    Molt.TooYoungNeverMolts(t.txCount, t.shellBornAt, later);
  }

  /** The inputs the announcement of a molt meets. */
  datatype Announcing = Announcing(
    generated: Option<string>,              // generateMoltCast's text
    mainResponse: Option<Option<string>>,
    reflectionDraw: int,
    reflections: seq<string>,
    replyResponse: Option<Option<string>>)

  predicate ValidAnnouncing(a: Announcing)
  {
    0 <= a.reflectionDraw < |a.reflections|
  }

  /**
    The announcement after a molt: the generated cast when there is one, and otherwise the
    thread `postMoltAnnouncement` posts, whose rejection escapes to the loop.
  */
  function Announce(oldShellIndex: int, oldAddress: string, newAddress: string, txCount: int,
                    mintTxHash: Option<string>, signerUuid: string, a: Announcing): (r: Result<(), LoopError>)
    requires ValidAnnouncing(a)
    ensures Truthy(a.generated) || oldShellIndex >= 0 ==> r.Ok?
    ensures r.Err? ==> r.error.AnnouncementFailed?
  {
    if Truthy(a.generated) then Ok(())
    else
      match Farcaster.PostMoltAnnouncement(signerUuid, oldShellIndex, oldAddress, newAddress, txCount,
                                           mintTxHash, a.mainResponse, a.reflectionDraw, a.reflections,
                                           a.replyResponse)
      case Err(e) => Err(AnnouncementFailed(e))
      case Ok(_) => Ok(())
  }

  /** The mint hash the summary carries: the receipt's when the mint went through. */
  function MintTxHash(mint: Molt.MintOutcome): Option<string>
  {
    if mint.Minted? then Some(mint.txHash) else None
  }

  /**
    How `molt` and the announcement after it end, from the state and the outside world:
    `molt` throws without the old balance or with a total that is no BigInt, and otherwise
    the announcement decides.
  */
  function MoltOutcome(s: State.StateRecord, oldAddress: string, newAddress: string,
                       oldBalance: Option<nat>, mint: Molt.MintOutcome,
                       signerUuid: string, a: Announcing): (r: Result<(), LoopError>)
    requires ValidAnnouncing(a)
    ensures r.Ok? ==> oldBalance.Some? && Decimal.ParseBigInt(s.totalValueMoved).Some?
    ensures oldBalance.Some? && Decimal.ParseBigInt(s.totalValueMoved).Some? && s.currentShellIndex >= 0 ==> r.Ok?
    ensures r.Err? ==> r.error.MoltFailed? || r.error.AnnouncementFailed?
    ensures oldBalance.None? ==> r == Err(MoltFailed(Molt.BalanceUnavailable))
  {
    if oldBalance.None? then Err(MoltFailed(Molt.BalanceUnavailable))
    else if Decimal.ParseBigInt(s.totalValueMoved).None? then Err(MoltFailed(Molt.ValueNotBigInt))
    else Announce(s.currentShellIndex, oldAddress, newAddress, s.txCount, MintTxHash(mint), signerUuid, a)
  }

  /**
    Lines 141-165 of the loop: build the summary, announce it, and move the state into the
    new shell. An error from `molt` or from the announcement leaves the state as it was.
  */
  method MoltStep(state: State.AgentState, oldAddress: string, newAddress: string,
                  oldBalance: Option<nat>, mint: Molt.MintOutcome,
                  signerUuid: string, a: Announcing, now: int)
    returns (r: Result<Molt.MoltSummary, LoopError>)
    requires ValidAnnouncing(a)
    modifies state
    ensures var o := MoltOutcome(old(state.Record()), oldAddress, newAddress, oldBalance, mint, signerUuid, a);
            && (r.Ok? <==> o.Ok?)
            && (r.Err? ==> o == Err(r.error) && state.Record() == old(state.Record()))
    ensures r.Ok? ==> state.Record() == AfterMolt(old(state.Record()), now)
    ensures r.Ok? ==> r.value.oldShellIndex == old(state.currentShellIndex)
                      && r.value.newShellIndex == old(state.currentShellIndex) + 1
                      && r.value.txCount == old(state.txCount)
                      && r.value.mintTxHash == MintTxHash(mint)
  {
    var summary := Molt.Molt(state, oldAddress, newAddress, oldBalance, mint);
    if summary.Err? {
      return Err(MoltFailed(summary.error));
    }
    var sm := summary.value;
    var announced := Announce(sm.oldShellIndex, sm.oldAddress, sm.newAddress, sm.txCount, sm.mintTxHash,
                              signerUuid, a);
    if announced.Err? {
      return Err(announced.error);
    }
    state.currentShellIndex := sm.newShellIndex;
    state.shellBornAt := now;
    state.txCount := 0;
    state.totalValueMoved := "0";
    state.actionsSinceCast := 0;
    state.totalMolts := state.totalMolts + 1;
    r := Ok(sm);
  }

  // ── 4. Mentions ──────────────────────────────────────────────────

  /** The mentions whose hash has not been replied to yet, in their order. */
  function NewMentions(ms: seq<Farcaster.Mention>, replied: seq<string>): (r: seq<Farcaster.Mention>)
    ensures |r| <= |ms|
    ensures forall k :: 0 <= k < |r| ==> r[k] in ms && r[k].hash !in replied
    ensures forall m :: m in ms && m.hash !in replied ==> m in r
  {
    if ms == [] then []
    else if ms[0].hash in replied then NewMentions(ms[1..], replied)
    else [ms[0]] + NewMentions(ms[1..], replied)
  }

  /** Filtering one more mention keeps it exactly when its hash has not been replied to. */
  lemma {:induction false} NewMentionsSnoc(ms: seq<Farcaster.Mention>, m: Farcaster.Mention, replied: seq<string>)
    ensures NewMentions(ms + [m], replied)
            == NewMentions(ms, replied) + (if m.hash in replied then [] else [m])
  {
    if ms == [] {
      assert ms + [m] == [m] && [m][1..] == [];
    } else {
      assert (ms + [m])[0] == ms[0] && (ms + [m])[1..] == ms[1..] + [m];
      NewMentionsSnoc(ms[1..], m, replied);
    }
  }

  /** At most this many mentions are answered per iteration. */
  const MENTIONS_PER_ITERATION: nat := 3

  /** The mentions answered this iteration: the first three new ones. */
  function Handled(ms: seq<Farcaster.Mention>, replied: seq<string>): (r: seq<Farcaster.Mention>)
    ensures |r| <= MENTIONS_PER_ITERATION && |r| <= |NewMentions(ms, replied)|
    ensures r == NewMentions(ms, replied)[..|r|]
    ensures |r| == MENTIONS_PER_ITERATION || r == NewMentions(ms, replied)
  {
    var unseen := NewMentions(ms, replied);
    if |unseen| <= MENTIONS_PER_ITERATION then unseen else unseen[..MENTIONS_PER_ITERATION]
  }

  function HashesOf(ms: seq<Farcaster.Mention>): (hs: seq<string>)
    ensures |hs| == |ms| && forall k :: 0 <= k < |ms| ==> hs[k] == ms[k].hash
  {
    if ms == [] then [] else HashesOf(ms[..|ms| - 1]) + [ms[|ms| - 1].hash]
  }

  /** `slice(-200)` once the list is over the cap. */
  function KeepLast(hs: seq<string>): (r: seq<string>)
    ensures |r| <= REPLIED_CAP
    ensures |hs| <= REPLIED_CAP ==> r == hs
    ensures |hs| > REPLIED_CAP ==> |r| == REPLIED_CAP
    ensures r == hs[|hs| - |r|..]
  {
    if |hs| > REPLIED_CAP then hs[|hs| - REPLIED_CAP..] else hs
  }

  /** Capping after every append is the same as capping once at the end. */
  lemma KeepLastStep(hs: seq<string>, h: string)
    ensures KeepLast(KeepLast(hs) + [h]) == KeepLast(hs + [h])
  {
    var k := KeepLast(hs);
    if |hs| > REPLIED_CAP {
      assert k + [h] == (hs + [h])[|hs| - REPLIED_CAP..];
      assert (k + [h])[1..] == (hs + [h])[|hs + [h]| - REPLIED_CAP..];
    }
  }

  /**
    The hashes remembered after answering `handled`: all appended, the most recent 200 kept.
    The cap is applied on an append, so a list that answers nothing is left as it was.
  */
  function Remembered(replied: seq<string>, handled: seq<Farcaster.Mention>): seq<string>
  {
    if handled == [] then replied else KeepLast(replied + HashesOf(handled))
  }

  /** Every appended hash is in the remembered list, even after the cap cuts it back. */
  lemma AppendedRemembered(replied: seq<string>, handled: seq<Farcaster.Mention>)
    requires |handled| <= REPLIED_CAP
    ensures forall k :: 0 <= k < |handled| ==> handled[k].hash in Remembered(replied, handled)
  {
    if handled != [] {
      var all := replied + HashesOf(handled);
      var after := KeepLast(all);
      assert after == Remembered(replied, handled);
      forall k | 0 <= k < |handled|
        ensures handled[k].hash in after
      {
        var i := |replied| + k;
        assert all[i] == handled[k].hash;
        assert after[i - (|all| - |after|)] == all[i];
      }
    }
  }

  /** Every answered mention's hash is remembered afterwards, so it is never answered again. */
  lemma HandledRemembered(ms: seq<Farcaster.Mention>, replied: seq<string>)
    ensures var handled := Handled(ms, replied);
            var after := Remembered(replied, handled);
            && (forall k :: 0 <= k < |handled| ==> handled[k].hash in after)
            && forall m :: m in NewMentions(ms, after) ==> m !in handled
  {
    var handled := Handled(ms, replied);
    var after := Remembered(replied, handled);
    AppendedRemembered(replied, handled);
    forall m | m in NewMentions(ms, after)
      ensures m !in handled
    {
      var unseen := NewMentions(ms, after);
      var j :| 0 <= j < |unseen| && unseen[j] == m;
      assert m.hash !in after;
    }
  }

  /** Whether entry `k` of the answers is a truthy reply text. */
  function ReplyAt(replies: seq<Option<string>>, k: int): Option<string>
  {
    if 0 <= k < |replies| && Truthy(replies[k]) then replies[k] else None
  }

  /**
    The replies posted for the answered mentions, in order: one for each mention whose
    reply text is truthy, threaded under that mention.
  */
  function ReplyPayloads(signerUuid: string, handled: seq<Farcaster.Mention>,
                         replies: seq<Option<string>>): (ps: seq<Farcaster.CastPayload>)
    ensures |ps| <= |handled|
  {
    if handled == [] then []
    else
      var k := |handled| - 1;
      var reply := ReplyAt(replies, k);
      var earlier := ReplyPayloads(signerUuid, handled[..k], replies);
      earlier + (if reply.Some?
                 then [Farcaster.CastPayloadFor(signerUuid, reply.value, Some(handled[k].hash))]
                 else [])
  }

  /**
    Every reply posted answers one of the handled mentions with its truthy reply text,
    threaded under that mention's hash and signed by the agent's signer.
  */
  lemma {:induction false} ReplyPayloadsSound(signerUuid: string, handled: seq<Farcaster.Mention>,
                                              replies: seq<Option<string>>, p: Farcaster.CastPayload)
    requires p in ReplyPayloads(signerUuid, handled, replies)
    ensures p.signerUuid == signerUuid
    ensures exists k :: 0 <= k < |handled| && ReplyAt(replies, k).Some?
                        && p == Farcaster.CastPayloadFor(signerUuid, ReplyAt(replies, k).value, Some(handled[k].hash))
  {
    var k := |handled| - 1;
    var earlier := ReplyPayloads(signerUuid, handled[..k], replies);
    if p in earlier {
      ReplyPayloadsSound(signerUuid, handled[..k], replies, p);
      var j :| 0 <= j < k && ReplyAt(replies, j).Some?
               && p == Farcaster.CastPayloadFor(signerUuid, ReplyAt(replies, j).value, Some(handled[..k][j].hash));
      assert handled[..k][j] == handled[j];
    } else {
      assert ReplyAt(replies, k).Some?;
    }
  }

  /** Every truthy reply text for an answered mention is posted, threaded under that mention. */
  lemma {:induction false} ReplyPayloadsComplete(signerUuid: string, handled: seq<Farcaster.Mention>,
                                                 replies: seq<Option<string>>, k: int)
    requires 0 <= k < |handled| && ReplyAt(replies, k).Some?
    ensures Farcaster.CastPayloadFor(signerUuid, ReplyAt(replies, k).value, Some(handled[k].hash))
            in ReplyPayloads(signerUuid, handled, replies)
  {
    var n := |handled| - 1;
    if k < n {
      ReplyPayloadsComplete(signerUuid, handled[..n], replies, k);
      assert handled[..n][k] == handled[k];
    }
  }

  /** One more answered mention: its reply, when truthy, follows the earlier ones. */
  lemma PayloadsStep(signerUuid: string, handled: seq<Farcaster.Mention>, replies: seq<Option<string>>, k: nat)
    requires k < |handled|
    ensures ReplyPayloads(signerUuid, handled[..k + 1], replies)
            == ReplyPayloads(signerUuid, handled[..k], replies)
               + (if ReplyAt(replies, k).Some?
                  then [Farcaster.CastPayloadFor(signerUuid, ReplyAt(replies, k).value, Some(handled[k].hash))]
                  else [])
  {
    assert handled[..k + 1][..k] == handled[..k];
  }

  /** The hashes of one more mention: the earlier hashes, then its hash. */
  lemma HashesOfSnoc(ms: seq<Farcaster.Mention>, k: nat)
    requires k < |ms|
    ensures HashesOf(ms[..k + 1]) == HashesOf(ms[..k]) + [ms[k].hash]
  {
    assert ms[..k + 1][..k] == ms[..k];
  }

  /** One more answered mention: its hash is appended and the list capped again. */
  lemma RememberedStep(replied: seq<string>, handled: seq<Farcaster.Mention>, k: nat)
    requires k < |handled|
    ensures Remembered(replied, handled[..k + 1]) == KeepLast(Remembered(replied, handled[..k]) + [handled[k].hash])
  {
    var h := handled[k].hash;
    var earlier := HashesOf(handled[..k]);
    HashesOfSnoc(handled, k);
    assert replied + (earlier + [h]) == (replied + earlier) + [h];
    if k > 0 {
      KeepLastStep(replied + earlier, h);
    } else {
      assert handled[..k] == [] && earlier == [];
    }
  }

  /** The state after the mention step: only the remembered hashes and the timestamp change. */
  function AfterMentions(s: State.StateRecord, mentions: seq<Farcaster.Mention>, nowIso: string): (t: State.StateRecord)
    ensures t.repliedHashes == Remembered(s.repliedHashes, Handled(mentions, s.repliedHashes))
    ensures |NewMentions(mentions, s.repliedHashes)| > 0 ==> t.lastMentionTimestamp == Some(nowIso)
    ensures |NewMentions(mentions, s.repliedHashes)| == 0 ==> t == s
    ensures t == s.(repliedHashes := t.repliedHashes, lastMentionTimestamp := t.lastMentionTimestamp)
  {
    if |NewMentions(mentions, s.repliedHashes)| == 0 then s
    else s.(repliedHashes := Remembered(s.repliedHashes, Handled(mentions, s.repliedHashes)),
            lastMentionTimestamp := Some(nowIso))
  }

  /**
    How far the `for` loop of lines 186-201 gets: the remembered hashes and the replies
    posted so far, and whether a call to `generateReply` has thrown.
  */
  datatype Answered = Answered(replied: seq<string>, posts: seq<Farcaster.CastPayload>, thrown: bool)

  /**
    The loop over the answered mentions, one mention at a time. For each one `generateReply`
    is called first (line 188); when that name is no function (`resolved` false) the call
    throws before the reply is posted and before the hash is pushed, and the rest of the
    loop is skipped. Otherwise a reply is posted when its text is truthy, and the hash is
    appended with the list cut back to the last 200.
  */
  function AnswerLoop(replied: seq<string>, handled: seq<Farcaster.Mention>, resolved: bool,
                      replies: seq<Option<string>>, signerUuid: string): (a: Answered)
    ensures a.thrown ==> !resolved && handled != []
    ensures |a.posts| <= |handled|
  {
    if handled == [] then Answered(replied, [], false)
    else
      var k := |handled| - 1;
      var earlier := AnswerLoop(replied, handled[..k], resolved, replies, signerUuid);
      if earlier.thrown then earlier
      else if !resolved then earlier.(thrown := true)
      else
        var reply := ReplyAt(replies, k);
        Answered(KeepLast(earlier.replied + [handled[k].hash]),
                 earlier.posts + (if reply.Some?
                                  then [Farcaster.CastPayloadFor(signerUuid, reply.value, Some(handled[k].hash))]
                                  else []),
                 false)
  }

  /**
    When `generateReply` is no function, the loop throws at the first answered mention:
    nothing is posted and no hash is remembered.
  */
  lemma {:induction false} AnswerLoopUnresolved(replied: seq<string>, handled: seq<Farcaster.Mention>,
                                                replies: seq<Option<string>>, signerUuid: string)
    ensures AnswerLoop(replied, handled, false, replies, signerUuid) == Answered(replied, [], handled != [])
  {
    if handled != [] {
      AnswerLoopUnresolved(replied, handled[..|handled| - 1], replies, signerUuid);
    }
  }

  /**
    When `generateReply` is a function, the loop never throws, remembers the capped append
    of all the answered hashes and posts exactly the replies with truthy text.
  */
  lemma {:induction false} AnswerLoopResolved(replied: seq<string>, handled: seq<Farcaster.Mention>,
                                              replies: seq<Option<string>>, signerUuid: string)
    ensures AnswerLoop(replied, handled, true, replies, signerUuid)
            == Answered(Remembered(replied, handled), ReplyPayloads(signerUuid, handled, replies), false)
  {
    if handled != [] {
      var k := |handled| - 1;
      AnswerLoopResolved(replied, handled[..k], replies, signerUuid);
      RememberedStep(replied, handled, k);
      PayloadsStep(signerUuid, handled, replies, k);
      assert handled[..k + 1] == handled;
    }
  }

  /**
    Lines 175-209: with new mentions, the first three are answered; the timestamp is set
    only when the loop gets through them all, since a throw skips line 203 and lands in
    the handler on line 207, which only logs it. The result is the new state and the
    replies posted.
  */
  function MentionStep(s: State.StateRecord, mentions: seq<Farcaster.Mention>, resolved: bool,
                       replies: seq<Option<string>>, signerUuid: string, nowIso: string)
    : (r: (State.StateRecord, seq<Farcaster.CastPayload>))
    ensures r.0 == s.(repliedHashes := r.0.repliedHashes, lastMentionTimestamp := r.0.lastMentionTimestamp)
    ensures |NewMentions(mentions, s.repliedHashes)| == 0 ==> r == (s, [])
  {
    if |NewMentions(mentions, s.repliedHashes)| == 0 then (s, [])
    else
      var a := AnswerLoop(s.repliedHashes, Handled(mentions, s.repliedHashes), resolved, replies, signerUuid);
      if a.thrown then (s.(repliedHashes := a.replied), a.posts)
      else (s.(repliedHashes := a.replied, lastMentionTimestamp := Some(nowIso)), a.posts)
  }

  /** The mention step as line 13 leaves it, with no `generateReply`: nothing changes, nothing is posted. */
  lemma MentionStepUnresolved(s: State.StateRecord, mentions: seq<Farcaster.Mention>,
                              replies: seq<Option<string>>, signerUuid: string, nowIso: string)
    ensures MentionStep(s, mentions, false, replies, signerUuid, nowIso) == (s, [])
  {
    AnswerLoopUnresolved(s.repliedHashes, Handled(mentions, s.repliedHashes), replies, signerUuid);
  }

  /**
    The mention step with a `generateReply`: the state becomes `AfterMentions` and the
    replies posted are those for the answered mentions.
  */
  lemma MentionStepResolved(s: State.StateRecord, mentions: seq<Farcaster.Mention>,
                            replies: seq<Option<string>>, signerUuid: string, nowIso: string)
    ensures MentionStep(s, mentions, true, replies, signerUuid, nowIso)
            == (AfterMentions(s, mentions, nowIso),
                ReplyPayloads(signerUuid, Handled(mentions, s.repliedHashes), replies))
  {
    AnswerLoopResolved(s.repliedHashes, Handled(mentions, s.repliedHashes), replies, signerUuid);
  }

  /**
    The `for` loop of lines 186-201 on the state object: only the remembered hashes
    change, and the loop stops at the first call to `generateReply` that throws.
  */
  method AnswerMentions(state: State.AgentState, handled: seq<Farcaster.Mention>, resolved: bool,
                        replies: seq<Option<string>>, signerUuid: string)
    returns (posts: seq<Farcaster.CastPayload>, thrown: bool)
    modifies state`repliedHashes
    ensures Answered(state.repliedHashes, posts, thrown)
            == AnswerLoop(old(state.repliedHashes), handled, resolved, replies, signerUuid)
  {
    var replied0 := state.repliedHashes;
    posts := [];
    thrown := false;
    for k := 0 to |handled|
      invariant Answered(state.repliedHashes, posts, false) == AnswerLoop(replied0, handled[..k], resolved, replies, signerUuid)
    {
      assert handled[..k + 1][..k] == handled[..k];
      var mention := handled[k];
      if !resolved {
        // generateReply is not a function: the call throws
        thrown := true;
        AnswerLoopUnresolved(replied0, handled, replies, signerUuid);
        AnswerLoopUnresolved(replied0, handled[..k], replies, signerUuid);
        return;
      }
      var reply := ReplyAt(replies, k);
      if reply.Some? {
        posts := posts + [Farcaster.CastPayloadFor(signerUuid, reply.value, Some(mention.hash))];
      }
      var pushed := state.repliedHashes + [mention.hash];
      if |pushed| > REPLIED_CAP {
        pushed := pushed[|pushed| - REPLIED_CAP..];
      }
      state.repliedHashes := pushed;
    }
    assert handled[..|handled|] == handled;
  }

  /**
    Lines 175-209 of the loop on the state object. `replies[k]` is what `generateReply`
    gives for the k-th answered mention (missing entries count as no reply), when
    `resolved` says that it is a function at all.
  */
  method HandleMentions(state: State.AgentState, mentions: seq<Farcaster.Mention>, resolved: bool,
                        replies: seq<Option<string>>, signerUuid: string, nowIso: string)
    returns (posts: seq<Farcaster.CastPayload>)
    modifies state
    ensures (state.Record(), posts) == MentionStep(old(state.Record()), mentions, resolved, replies, signerUuid, nowIso)
  {
    var handled := Handled(mentions, state.repliedHashes);
    if |NewMentions(mentions, state.repliedHashes)| > 0 {
      var thrown;
      posts, thrown := AnswerMentions(state, handled, resolved, replies, signerUuid);
      if !thrown {
        state.lastMentionTimestamp := Some(nowIso);
      }
    } else {
      posts := [];
    }
  }

  /**
    With a new mention, the step as written and the intended step part ways: the intended
    one remembers the mentions it answers, so the first of them is not new again; as written
    it is new again at the next iteration, and at every one after.
  */
  lemma AsWrittenNeverAnswers(s: State.StateRecord, mentions: seq<Farcaster.Mention>,
                              replies: seq<Option<string>>, signerUuid: string, nowIso: string)
    requires |NewMentions(mentions, s.repliedHashes)| > 0
    ensures var m := NewMentions(mentions, s.repliedHashes)[0];
            var asWritten := MentionStep(s, mentions, false, replies, signerUuid, nowIso).0;
            var intended := MentionStep(s, mentions, true, replies, signerUuid, nowIso).0;
            && m in NewMentions(mentions, asWritten.repliedHashes)
            && m !in NewMentions(mentions, intended.repliedHashes)
            && asWritten != intended
  {
    MentionStepUnresolved(s, mentions, replies, signerUuid, nowIso);
    MentionStepResolved(s, mentions, replies, signerUuid, nowIso);
    var handled := Handled(mentions, s.repliedHashes);
    HandledRemembered(mentions, s.repliedHashes);
    assert handled[0] in handled;
  }

  /** Counting an action and then the cast step keep the invariant and settle the counter. */
  lemma CountKeepsValid(s: State.StateRecord, txHash: Option<string>, value: nat)
    requires Valid(s)
    ensures Settled(ResetCast(CountAction(s, txHash, value)))
  {
    CountActionNeverFails(s, txHash, value);
  }

  /** Moving into a new shell keeps the invariant and settles the counter. */
  lemma MoltKeepsValid(s: State.StateRecord, now: int)
    requires Valid(s)
    ensures Settled(AfterMolt(s, now))
  {
  }

  /** The mention step keeps the invariant: the remembered list stays within the cap. */
  lemma MentionsKeepValid(s: State.StateRecord, mentions: seq<Farcaster.Mention>, resolved: bool,
                          replies: seq<Option<string>>, signerUuid: string, nowIso: string)
    requires Valid(s)
    ensures Valid(MentionStep(s, mentions, resolved, replies, signerUuid, nowIso).0)
    ensures Settled(s) ==> Settled(MentionStep(s, mentions, resolved, replies, signerUuid, nowIso).0)
  {
    if resolved {
      MentionStepResolved(s, mentions, replies, signerUuid, nowIso);
    } else {
      MentionStepUnresolved(s, mentions, replies, signerUuid, nowIso);
    }
  }

  // ── One iteration ────────────────────────────────────────────────

  /** Everything the outside world supplies to one iteration of the loop. */
  datatype Inputs = Inputs(
    balance: Option<nat>,            // getBalance of the current shell, None when it throws
    actionReply: Option<string>,     // Llm.Ask's answer to the action question
    poolDraw: int,                   // index into the weighted pool
    env: LifeActions.ActionEnv,      // what the chosen action meets on the chain
    description: string,             // the action's description as text
    castReply: Option<string>,       // generateCast's text
    castDraw: int,                   // randomInt(1, 10)
    musingDraw: int,
    musings: seq<string>,
    moltReply: Option<string>,       // Llm.Ask's answer to the molt question
    now: int,                        // the clock when the rule runs
    txThreshold: int,
    timeThreshold: int,
    oldAddress: string,
    newAddress: string,
    oldBalance: Option<nat>,         // getBalance of the old shell, None when it throws
    mint: Molt.MintOutcome,
    signerUuid: string,
    announcing: Announcing,
    bornAt: int,                     // the clock when the new shell is entered
    newBalance: Option<nat>,         // getBalance of the new shell, None when it throws
    mentionsResponse: Option<seq<Farcaster.Notification>>,
    replyResolved: bool,             // whether `generateReply` is a function at all
    replies: seq<Option<string>>,    // the reply text for each answered mention
    nowIso: string)

  /** The draws lie in the ranges the source draws them from. */
  predicate ValidInputs(i: Inputs)
  {
    && 0 <= i.poolDraw < LifeActions.POOL_SIZE
    && LifeActions.ValidEnv(i.env)
    && 1 <= i.castDraw <= 10
    && 0 <= i.musingDraw < |i.musings|
    && Molt.ValidDraws(i.txThreshold, i.timeThreshold)
    && ValidAnnouncing(i.announcing)
  }

  /** The state an iteration (or a part of one) leaves, and how it ended. */
  datatype Outcome = Outcome(state: State.StateRecord, result: Result<(), LoopError>)

  /**
    Step 1 as a value: read the balance, ask which action to perform, perform it. The
    LLM's answer never names an inherited key, so no TypeError comes from the choice.
  */
  function Acted(i: Inputs): (r: Result<LifeActions.ActionResult, LoopError>)
    requires ValidInputs(i)
    ensures i.balance.None? ==> r == Err(BalanceUnavailable)
    ensures r.Err? ==> r.error.BalanceUnavailable? || r.error.ActionFailed?
    ensures r != Err(ActionFailed(LifeActions.NotAFunction))
    ensures i.balance.Some? ==>
              (r.Ok? <==> LifeActions.PerformedAction(Llm.DecideAction(i.actionReply), i.poolDraw, i.env).Ok?)
  {
    Llm.DecidedActionIsMapped(i.actionReply);
    if i.balance.None? then Err(BalanceUnavailable)
    else
      match LifeActions.PerformedAction(Llm.DecideAction(i.actionReply), i.poolDraw, i.env)
      case Err(e) => Err(ActionFailed(e))
      case Ok(a) => Ok(a)
  }

  /**
    Steps 1 and 2 (lines 92-127): the action, its count, and the cast step. A failed
    balance read or action changes nothing; a stored total that is no BigInt throws with
    the transaction already counted.
  */
  function ActPhase(s: State.StateRecord, i: Inputs): (o: Outcome)
    requires ValidInputs(i)
    ensures o.result.Err? ==> o.result.error.BalanceUnavailable? || o.result.error.ActionFailed?
                              || o.result.error.TotalNotBigInt?
    ensures Acted(i).Err? ==> o == Outcome(s, Err(Acted(i).error))
    ensures o.result.Err? && o.result.error.TotalNotBigInt? ==> o.state == s.(txCount := s.txCount + 1)
    ensures Acted(i).Ok? && CountFails(s, Acted(i).value.txHash) ==>
              o == Outcome(CountAction(s, Acted(i).value.txHash, Acted(i).value.value), Err(TotalNotBigInt))
    ensures Acted(i).Ok? && !CountFails(s, Acted(i).value.txHash) ==>
              o == Outcome(ResetCast(CountAction(s, Acted(i).value.txHash, Acted(i).value.value)), Ok(()))
    ensures o.result.Ok? ==> o.state.actionsSinceCast < CAST_EVERY_N_ACTIONS
    ensures o.state.currentShellIndex == s.currentShellIndex && o.state.totalMolts == s.totalMolts
    ensures o.state.repliedHashes == s.repliedHashes && o.state.lastMentionTimestamp == s.lastMentionTimestamp
  {
    match Acted(i)
    case Err(e) => Outcome(s, Err(e))
    case Ok(a) =>
      var counted := CountAction(s, a.txHash, a.value);
      if CountFails(s, a.txHash) then Outcome(counted, Err(TotalNotBigInt))
      else Outcome(ResetCast(counted), Ok(()))
  }

  /**
    Step 3 (lines 129-173): when the decision is to molt, `molt` and the announcement run;
    if both succeed the state moves into the new shell, and a failed balance read of the
    new shell, which comes after the move, does not undo it.
  */
  function MoltPhase(s: State.StateRecord, i: Inputs): (o: Outcome)
    requires ValidInputs(i)
    ensures !MoltDue(s, i.moltReply, i.now, i.txThreshold, i.timeThreshold) ==> o == Outcome(s, Ok(()))
    ensures o.state == s || o.state == AfterMolt(s, i.bornAt)
    ensures o.state == AfterMolt(s, i.bornAt) && o.state != s ==>
              MoltOutcome(s, i.oldAddress, i.newAddress, i.oldBalance, i.mint, i.signerUuid, i.announcing).Ok?
    ensures o.result.Err? ==> o.result.error.MoltFailed? || o.result.error.AnnouncementFailed?
                              || o.result.error.NewBalanceUnavailable?
    ensures o.result.Err? && !o.result.error.NewBalanceUnavailable? ==> o.state == s
    ensures o.result.Err? && o.result.error.NewBalanceUnavailable? ==> o.state == AfterMolt(s, i.bornAt)
    ensures var mo := MoltOutcome(s, i.oldAddress, i.newAddress, i.oldBalance, i.mint, i.signerUuid, i.announcing);
            MoltDue(s, i.moltReply, i.now, i.txThreshold, i.timeThreshold) ==>
              && (mo.Err? ==> o == Outcome(s, Err(mo.error)))
              && (mo.Ok? ==> o.state == AfterMolt(s, i.bornAt) && (o.result.Ok? <==> i.newBalance.Some?))
  {
    if !MoltDue(s, i.moltReply, i.now, i.txThreshold, i.timeThreshold) then Outcome(s, Ok(()))
    else
      match MoltOutcome(s, i.oldAddress, i.newAddress, i.oldBalance, i.mint, i.signerUuid, i.announcing)
      case Err(e) => Outcome(s, Err(e))
      case Ok(_) =>
        Outcome(AfterMolt(s, i.bornAt), if i.newBalance.None? then Err(NewBalanceUnavailable) else Ok(()))
  }

  /**
    One pass through the body of the main loop: act and count, cast, maybe molt, answer
    mentions. An error ends the pass where it is thrown, as the loop's handler does.
  */
  function Step(s: State.StateRecord, i: Inputs): (o: Outcome)
    requires ValidInputs(i)
    ensures o.state.totalMolts == s.totalMolts || o.state.totalMolts == s.totalMolts + 1
    ensures o.state.currentShellIndex - s.currentShellIndex == o.state.totalMolts - s.totalMolts
    ensures o.result.Err? && (o.result.error.BalanceUnavailable? || o.result.error.ActionFailed?) ==> o.state == s
  {
    var acted := ActPhase(s, i);
    if acted.result.Err? then acted
    else
      var molted := MoltPhase(acted.state, i);
      if molted.result.Err? then molted
      else
        var mentioned := MentionStep(molted.state, Farcaster.FetchMentions(i.mentionsResponse),
                                     i.replyResolved, i.replies, i.signerUuid, i.nowIso);
        Outcome(mentioned.0, Ok(()))
  }

  /**
    From a valid state an iteration leaves a valid state, and the stored total never fails
    to parse. Once the action has been counted the counter is below the cadence again.
  */
  lemma StepKeepsValid(s: State.StateRecord, i: Inputs)
    requires Valid(s) && ValidInputs(i)
    ensures Valid(Step(s, i).state)
    ensures Step(s, i).result != Err(TotalNotBigInt)
    ensures Step(s, i).state != s || Step(s, i).result.Ok? ==> Settled(Step(s, i).state)
  {
    if Acted(i).Ok? {
      var a := Acted(i).value;
      CountActionNeverFails(s, a.txHash, a.value);
      CountKeepsValid(s, a.txHash, a.value);
      var acted := ActPhase(s, i);
      var molted := MoltPhase(acted.state, i);
      MoltKeepsValid(acted.state, i.bornAt);
      if molted.result.Ok? {
        MentionsKeepValid(molted.state, Farcaster.FetchMentions(i.mentionsResponse),
                          i.replyResolved, i.replies, i.signerUuid, i.nowIso);
      }
    }
  }

  /**
    From a valid state the announcement never rejects: its template thread fails only for a
    negative shell index, and a valid state's index is never negative.
  */
  lemma StepAnnounces(s: State.StateRecord, i: Inputs)
    requires Valid(s) && ValidInputs(i)
    ensures Step(s, i).result.Err? ==> !Step(s, i).result.error.AnnouncementFailed?
  {
    if Acted(i).Ok? {
      var a := Acted(i).value;
      CountActionNeverFails(s, a.txHash, a.value);
      CountKeepsValid(s, a.txHash, a.value);
    }
  }

  /** What `rounds` iterations leave: the final state and how many ended in the handler. */
  datatype RunOutcome = RunOutcome(state: State.StateRecord, failures: nat)

  /** The iterations of the loop one after another, each starting where the last one ended. */
  function Run(s: State.StateRecord, rounds: seq<Inputs>): (o: RunOutcome)
    requires forall k :: 0 <= k < |rounds| ==> ValidInputs(rounds[k])
    ensures o.failures <= |rounds|
    ensures s.totalMolts <= o.state.totalMolts <= s.totalMolts + |rounds|
    ensures o.state.currentShellIndex - s.currentShellIndex == o.state.totalMolts - s.totalMolts
  {
    if rounds == [] then RunOutcome(s, 0)
    else
      var earlier := Run(s, rounds[..|rounds| - 1]);
      var last := Step(earlier.state, rounds[|rounds| - 1]);
      RunOutcome(last.state, earlier.failures + if last.result.Err? then 1 else 0)
  }

  /** One more round: its iteration starts where the earlier rounds ended, and its failure is counted. */
  lemma RunSnoc(s: State.StateRecord, rounds: seq<Inputs>, k: nat)
    requires k < |rounds|
    requires forall j :: 0 <= j < |rounds| ==> ValidInputs(rounds[j])
    ensures var earlier := Run(s, rounds[..k]);
            var last := Step(earlier.state, rounds[k]);
            Run(s, rounds[..k + 1]) == RunOutcome(last.state, earlier.failures + if last.result.Err? then 1 else 0)
  {
    assert rounds[..k + 1][..k] == rounds[..k];
  }

  /** Every iteration keeps the invariant, so the stored total parses throughout the loop. */
  lemma {:induction false} RunKeepsValid(s: State.StateRecord, rounds: seq<Inputs>)
    requires Valid(s)
    requires forall k :: 0 <= k < |rounds| ==> ValidInputs(rounds[k])
    ensures Valid(Run(s, rounds).state)
  {
    if rounds != [] {
      var init := rounds[..|rounds| - 1];
      RunKeepsValid(s, init);
      StepKeepsValid(Run(s, init).state, rounds[|rounds| - 1]);
    }
  }

  /** Steps 1 and 2 of an iteration (lines 92-127) on the state object. */
  method ActStep(state: State.AgentState, i: Inputs) returns (r: Result<(), LoopError>)
    requires ValidInputs(i)
    modifies state
    ensures Outcome(state.Record(), r) == ActPhase(old(state.Record()), i)
  {
    // 1. Ask which action to perform, fall back to the weighted pool
    if i.balance.None? {
      return Err(BalanceUnavailable);
    }
    Llm.DecidedActionIsMapped(i.actionReply);
    var llmChoice := Llm.DecideAction(i.actionReply);
    var action := LifeActions.PerformRandomAction(llmChoice, i.poolDraw, i.env);
    if action.Err? {
      return Err(ActionFailed(action.error));
    }
    assert Acted(i) == Ok(action.value);
    var counted := RecordAction(state, action.value.txHash, action.value.value);
    if counted.Err? {
      return counted;
    }

    // 2. Cast every few actions
    var post := CastStep(state, i.castReply, i.castDraw, action.value.txHash, i.description,
                         i.musingDraw, i.musings);
    r := Ok(());
  }

  /** Step 3 of an iteration (lines 129-173) on the state object. */
  method MoltIfDue(state: State.AgentState, i: Inputs) returns (r: Result<(), LoopError>)
    requires ValidInputs(i)
    modifies state
    ensures Outcome(state.Record(), r) == MoltPhase(old(state.Record()), i)
  {
    var doMolt, ruleCheck := DecideMolt(state, i.moltReply, i.now, i.txThreshold, i.timeThreshold);
    r := Ok(());
    if doMolt {
      var summary := MoltStep(state, i.oldAddress, i.newAddress, i.oldBalance, i.mint,
                              i.signerUuid, i.announcing, i.bornAt);
      if summary.Err? {
        return Err(summary.error);
      }
      if i.newBalance.None? {
        return Err(NewBalanceUnavailable);
      }
    }
  }

  /** One pass through the body of the main loop (lines 89-215) on the state object. */
  method Iterate(state: State.AgentState, i: Inputs) returns (r: Result<(), LoopError>)
    requires ValidInputs(i)
    modifies state
    ensures Outcome(state.Record(), r) == Step(old(state.Record()), i)
  {
    r := ActStep(state, i);
    if r.Err? {
      return;
    }
    r := MoltIfDue(state, i);
    if r.Err? {
      return;
    }

    // 4. Answer mentions
    var mentions := Farcaster.FetchMentions(i.mentionsResponse);
    var replies := HandleMentions(state, mentions, i.replyResolved, i.replies, i.signerUuid, i.nowIso);
  }

  /**
    `while (running)`: one iteration per element of `rounds`; a failed iteration is
    caught by the handler and the loop goes on.
  */
  method MainLoop(state: State.AgentState, rounds: seq<Inputs>) returns (failures: nat)
    requires forall k :: 0 <= k < |rounds| ==> ValidInputs(rounds[k])
    modifies state
    ensures RunOutcome(state.Record(), failures) == Run(old(state.Record()), rounds)
  {
    ghost var start := state.Record();
    failures := 0;
    for k := 0 to |rounds|
      invariant RunOutcome(state.Record(), failures) == Run(start, rounds[..k])
    {
      RunSnoc(start, rounds, k);
      var r := Iterate(state, rounds[k]);
      if r.Err? {
        failures := failures + 1;
      }
    }
    assert rounds[..|rounds|] == rounds;
  }
}
