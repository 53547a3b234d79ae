# HermitBase agent — a Dafny model of its lifecycle bookkeeping

HermitBase is an autonomous "hermit crab" agent on Base Sepolia. It lives in one wallet, its
*shell*, at a time. Every few minutes the main loop does four things:

1. It performs a small life action, which may be an on-chain transfer. The action is chosen by
   an LLM or drawn from a weighted pool.
2. It counts the action in a persisted state record and now and then posts a cast to Farcaster.
3. It decides whether to *molt*. A molt sheds the shell, mints a ShellNFT of the old wallet and
   moves to a new shell.
4. It looks for new mentions. It is meant to answer up to three per iteration and remember the
   last 200 cast hashes it has answered. As written it never answers one (see Findings).

This project models the rules behind those steps and proves what they guarantee. It has one
Dafny module per source file of the agent, plus two helper modules.

- `Config` (`config.dfy`): the threshold, sleep and cadence constants and `validateEnv`.
- `State` (`state.dfy`):
  - the default record;
  - `loadState`, which merges over the defaults on the JSON-object level, where `{...a, ...b}` is
    a map union;
  - `saveState`, which swallows errors;
  - `AgentState`, the mutable object the loop updates field by field.
- `Molt` (`molt.dfy`):
  - the `shouldMolt` rule, with the two random thresholds as parameters;
  - `molt`, including the scan of the mint receipt for the first ERC-721 Transfer log.
- `LifeActions` (`life_actions.dfy`):
  - the action registry and `ACTION_MAP`;
  - the weighted pool, built by nested loops;
  - `performRandomAction`;
  - the result of each action, with the outside world as a parameter.
- `Llm` (`llm.dfy`): the post-processing of the LLM's replies in `decideAction` and
  `shouldMoltLLM`, and the null answer of `ask` without a key.
- `Farcaster` (`farcaster.dfy`):
  - `truncate`;
  - the payload of `postCast`;
  - the molt announcement and life-update texts;
  - `pickMoltReflection`, which uses JavaScript's truncating `%`;
  - the filter and map of `fetchMentions`.
- `Agent` (`agent.dfy`):
  - the in-place updates of the main loop in `index.js`: counting an action, the cast cadence,
    the LLM-or-rule molt decision, moving into a new shell, and answering mentions;
  - one whole iteration, as the function `Agent.Step` and the method `Agent.Iterate` proved
    equal to it. Whether `generateReply` is a function at all is an input of the iteration:
    false is the program as written, true the intended one (see Findings);
  - the loop itself, as the function `Agent.Run` and the method `Agent.MainLoop`, with the
    invariant `Agent.Valid` that every iteration keeps.
- `Decimal` (`decimal.dfy`): `totalValueMoved` is kept as decimal text, as the agent stores it.
  This module models `BigInt(s)` on plain digit strings and `.toString()` on non-negative values,
  and proves that the pair round-trips.
- `Wrappers` (`wrappers.dfy`): `Option` and `Result`, and JavaScript truthiness of an optional
  string (present and not empty).

Randomness, the clock, the network, the chain and the file system are parameters:

- every `randomInt` draw is an integer whose precondition is the drawn range;
- `Date.now()` is an integer parameter;
- an HTTP or RPC result is an `Option`, with None when the call throws;
- the mint outcome is either `MintFailed` or a receipt with its hash and logs.

Where the source throws to the loop's handler, the model returns `Err` and the loop carries on.
The iteration stops at that point, as `index.js` does.

Points where the code decides the behaviour:

- **The molt gate.** The comment in `shouldMolt` says both minimums must be met. The code rejects
  only when both are unmet, so meeting either one passes the gate. The model follows the code.
  `Molt.ShouldMolt` proves the gate never changes the decision, because both drawn thresholds
  are at least their minimums.
- **Order of molt steps.** The announcement comes before the state transition, and
  `postMoltAnnouncement` can reject. That happens when the main post returned a hash and the
  reflection index (the shell index plus the draw) is negative and not a multiple of the pool size, 8: the
  truncating `%` then gives a negative index, and `truncate` reads `.length` of `undefined`.
  The rejection skips the state update. The model follows the code. `Agent.Valid` keeps the
  shell index non-negative, so from a valid state this never happens.
- **A Transfer log with fewer than four topics.** `BigInt(undefined)` throws, the error is caught
  for that log alone, and the scan moves on. The accepted log is therefore the first one with
  the Transfer signature and a fourth topic.
- **Order inside the action count.** `txCount` is incremented before `BigInt(totalValueMoved)` is
  evaluated. When that parse throws, the count has already moved and `actionsSinceCast` has not.
  `Agent.CountActionNeverFails` shows this cannot happen from a valid state.
- **The counter at the cadence.** The state is saved on line 112, after `actionsSinceCast` is
  bumped and before the reset on line 125. A loaded state can therefore hold a counter at the
  cadence or above it. `Agent.Valid` only asks for a non-negative counter. `Agent.Settled` adds
  that the counter is below the cadence, which holds once an action has been counted.
- **The balance read before the action.** The first statement of the loop body reads the
  current balance for the LLM prompt. When that read throws, the iteration ends in the handler
  before any action, and the state is unchanged.
- **Inherited names in `ACTION_MAP`.** `ACTION_MAP[llmChoice]` also finds the names every
  object inherits, such as `"constructor"`. Those are truthy, and calling their missing `fn`
  throws a TypeError. `LifeActions.PerformedAction` returns `NotAFunction` for them.
  `decideAction` only ever returns one of the four own keys, so the loop never meets this.

## Model

| member | source | states |
|---|---|---|
| Config.RangesNonEmpty | agent/config.js:17-27 | each threshold and sleep range has its minimum at or below its maximum, and the cast cadence is positive |
| Config.ValidateEnv | agent/config.js:40-48 | fails exactly when one of PRIVATE_KEY, NEYNAR_API_KEY or FARCASTER_SIGNER_UUID is unset or empty; the error lists exactly the unset ones, without gaps, in that fixed order |
| Decimal.NatToString | agent/index.js:109 | `.toString()` of a non-negative BigInt is non-empty decimal digits with no leading zero |
| Decimal.ParseBigInt | agent/index.js:109 | `BigInt(s)` succeeds exactly on digit strings; the empty string reads as 0 |
| Decimal.ParseNatToString | agent/index.js:109 | parsing the printed value gives the value back, for every size |
| Decimal.ParseBigIntSnoc | agent/index.js:109 | a digit appended on the right multiplies the value read so far by ten and adds the digit; any other character throws |
| Decimal.NatToStringInjective | agent/index.js:109 | different values print as different texts |
| State.DefaultRecord | agent/state.js:6-15 | the defaults are shell 0, zero counters, total "0" (which parses as 0), no timestamp, no replied hashes, and born at module load time |
| State.Encode | agent/state.js:39 | the saved JSON object has exactly the eight state fields |
| State.DecodeEncode | agent/state.js:39 | reading back the fields of a saved record gives the record field for field |
| State.IndexEntries | agent/state.js:26 | spreading an array or string contributes exactly the keys "0" to "n-1", one per element |
| State.IndexEntriesAt | agent/state.js:26 | the entry under the text of index i is the i-th element |
| State.LoadState | agent/state.js:21-32 | a missing or unreadable file gives the defaults; a parsed file gives the union of default keys and file keys, with file values winning and defaults filling absent fields |
| State.SaveState | agent/state.js:37-43 | a successful write replaces the file with the record's JSON; a failed write leaves the previous file and raises nothing |
| State.LoadWithoutFileIsDefault | agent/state.js:21-32 | a missing or corrupt file loads as DEFAULT_STATE |
| State.SaveLoadRoundTrip | agent/state.js:21-43 | saving then loading reproduces exactly the saved object and record |
| State.LoadSaveIdempotent | agent/state.js:21-43 | loading a saved file and saving it unchanged rewrites the same file |
| State.AgentState.constructor | agent/index.js:58 | the loop's state object holds exactly the loaded record |
| Molt.ShouldMolt | agent/molt.js:26-57 | molts exactly when txCount reaches the drawn tx threshold or age reaches the drawn time threshold; gate failure gives TooYoung; the tx reason takes priority over the time reason; otherwise NotYetTime |
| Molt.TooYoungNeverMolts | agent/molt.js:38-40 | under both minimums the result is (false, TooYoung) for every legal pair of draws |
| Molt.MoltForcedAtMaximum | agent/molt.js:32-54 | at or past either maximum, every pair of draws molts |
| Molt.ShouldMoltMonotone | agent/molt.js:42-54 | with fixed draws, more transactions or a later clock never turn a molt into a stay |
| Molt.ExtractTokenId | agent/molt.js:116-124 | None exactly when no log is a Transfer with a fourth topic; otherwise the decimal text of topic 3 of the first such log |
| Molt.Molt | agent/molt.js:73-148 | fails only when getBalance throws or totalValueMoved is not BigInt text; the summary has newShellIndex = old + 1, copies txCount and totalValueMoved, and has a null migration hash; a failed mint gives null mint hash and token id; a mint gives its hash and the first-Transfer token id |
| LifeActions.FindFirst | agent/life-actions.js:103-106 | `find` returns the first entry with the name |
| LifeActions.ActionMapEntries | agent/life-actions.js:102-107 | ACTION_MAP has exactly the four keys; "self-transfer" and "breathe" map to themselves, "gift" to random-gift and "observe" to observe-shells, all registry entries |
| LifeActions.Repeat | agent/life-actions.js:120-122 | the inner loop contributes `weight` copies of the entry |
| LifeActions.WeightedPoolCounts | agent/life-actions.js:118-123 | the pool's length is the total weight and each entry occurs as often as its weight |
| LifeActions.RepeatCount | agent/life-actions.js:120-122 | the copies of one entry add exactly `weight` to that entry's multiplicity and nothing to any other |
| LifeActions.WeightedPoolMembers | agent/life-actions.js:118-124 | a pool slot always holds a registry entry of positive weight, and each such entry has a slot |
| LifeActions.AgentPool | agent/life-actions.js:95-100 | the agent's pool is 3 self-transfer, 2 random-gift, 2 observe-shells and 3 breathe, in that order: 10 slots |
| LifeActions.WeightOfAbsent | agent/life-actions.js:118-123 | an entry outside the registry gets no slots |
| LifeActions.WeightOfDistinct | agent/life-actions.js:118-123 | in a registry without repeated entries, each entry is entitled to exactly its weight |
| LifeActions.ActionsDistinct | agent/life-actions.js:95-100 | the registry lists each action once |
| LifeActions.AgentPoolCounts | agent/life-actions.js:95-123 | every registry entry fills exactly its weight of the 10 slots |
| LifeActions.BuildPool | agent/life-actions.js:118-123 | the nested loops build exactly the weighted pool |
| LifeActions.ChooseAction | agent/life-actions.js:114-125 | a key of ACTION_MAP selects its mapped entry; an inherited name selects no registry entry; otherwise the draw indexes the 10-slot pool; every selected entry is in the registry |
| LifeActions.RunAction | agent/life-actions.js:22-91 | observing never fails and reports no tx hash and value 0, even when the read fails; transfers fail exactly when the ledger call fails and otherwise report its hash; the two micro transfers move 10^14 wei; breathe moves between 1000 and 50000 gwei |
| LifeActions.PerformedAction | agent/life-actions.js:113-130 | an inherited name throws the TypeError and nothing else does; a mapped name runs its own entry; every success carries a registry name |
| LifeActions.PerformRandomAction | agent/life-actions.js:113-130 | returns exactly `LifeActions.PerformedAction` for the choice, the draw and the outside world |
| Llm.ApiKey | agent/llm.js:4 | there is a usable key exactly when LLM_API_KEY or MOONSHOT_API_KEY is set and not empty |
| Llm.Ask | agent/llm.js:18-44 | without a key the answer is null and no request is made; with one it is the request's answer, or null when the request failed |
| Llm.LowerChar | agent/llm.js:64 | each ASCII upper-case letter maps to the lower-case letter at the same place in the alphabet; every other character is unchanged |
| Llm.ToLower | agent/llm.js:64 | lower-casing keeps the length and maps each character independently |
| Llm.Normalise | agent/llm.js:64 | the normalised reply keeps only `a-z` and `-` and is never longer than the reply |
| Llm.NormaliseChar | agent/llm.js:64 | one character is lower-cased and then kept exactly when it is a letter `a-z` or `-` |
| Llm.NormaliseAppend | agent/llm.js:64 | normalisation works character by character: the normalised concatenation is the concatenation of the normalised parts |
| Llm.NormaliseKeepsNames | agent/llm.js:64 | a reply already made of `a-z` and `-` is unchanged |
| Llm.NormaliseIdempotent | agent/llm.js:64 | normalising twice equals normalising once |
| Llm.DecideAction | agent/llm.js:62-68 | null when ask gives null or empty text; otherwise the normalised reply when it is one of the four names, and null when it is not |
| Llm.DecidedActionIsMapped | agent/llm.js:65 | every name decideAction returns is a key of ACTION_MAP with a registry entry, and never an inherited name |
| Llm.ContainsYes | agent/llm.js:112 | true exactly when "yes" occurs at some position |
| Llm.ShouldMoltLLM | agent/llm.js:110-112 | null exactly when ask gives null or empty text; otherwise true exactly when the lower-cased reply contains "yes" |
| Farcaster.SliceTo | agent/farcaster.js:16 | `slice(0, end)` returns a prefix, counting a negative end back from the end |
| Farcaster.SliceFrom | agent/farcaster.js:62 | `slice(start)` returns a suffix, counting a negative start back from the end |
| Farcaster.TrimEndAfterVisible | agent/farcaster.js:73 | when the head ends in a visible character, trim only removes the tail's trailing white space |
| Farcaster.IntToString | agent/farcaster.js:68 | a number prints as its digits, with a minus sign exactly when negative; a non-negative one parses back |
| Farcaster.Truncate | agent/farcaster.js:14-17 | a short text is unchanged; a long one ends in "..." after a prefix of the text and, for maxLen >= 3, has length exactly maxLen; for maxLen < 3 the result exceeds maxLen |
| Farcaster.TruncateIdempotent | agent/farcaster.js:14-17 | with maxLen >= 3 the result fits, and truncating again changes nothing |
| Farcaster.CastPayloadFor | agent/farcaster.js:27-36 | the body is at most 300 characters, a text that fits is sent as is, and `parent` is present exactly when the parent hash is truthy |
| Farcaster.PostCast | agent/farcaster.js:25-54 | sends that payload; resolves to a hash exactly when the request succeeded with a non-empty hash, otherwise to null, never to an error |
| Farcaster.Short | agent/farcaster.js:62 | the first six characters, "...", then the last four; 13 characters for an address of length 10 or more |
| Farcaster.MoltAnnouncementBody | agent/farcaster.js:67-71 | the four announcement lines start with "S" and end with "." |
| Farcaster.MoltAnnouncementText | agent/farcaster.js:63-73 | without a truthy mint hash the text is just the four lines; with one, the ShellNFT link follows a blank line, and trim removes only the hash's own trailing white space |
| Farcaster.JsRem | agent/farcaster.js:145 | JavaScript `%`: a non-negative dividend gives the Euclidean remainder in [0, n); a negative dividend gives a remainder in (-n, 0] |
| Farcaster.JsRemOdd | agent/farcaster.js:145 | negating the dividend negates the remainder |
| Farcaster.PickMoltReflection | agent/farcaster.js:144-147 | for a non-negative shell index the index is in range; the result is undefined exactly when the sum is negative and not a multiple of the pool size |
| Farcaster.PickPhilosophical | agent/farcaster.js:149-151 | the musing is an element of the pool |
| Farcaster.PostMoltAnnouncement | agent/farcaster.js:61-85 | posts the announcement without a parent; posts the reflection, threaded under the main hash, exactly when the main post gave a hash; rejects only when that reflection is undefined, so never for a non-negative shell index |
| Farcaster.LifeUpdateText | agent/farcaster.js:90-104 | the header and the description, plus the transaction link as a third line exactly when the hash is truthy |
| Farcaster.ToMention | agent/farcaster.js:177-183 | keeps hash and text; keeps a present author name and fid, falling back to "unknown" and to 0; keeps a truthy cast timestamp, falling back to the notification's most-recent timestamp |
| Farcaster.MentionsOf | agent/farcaster.js:175-183 | never more mentions than notifications, each with non-empty text |
| Farcaster.MentionsSound | agent/farcaster.js:176-183 | every mention is the shaping of a notification that has a cast with text |
| Farcaster.MentionsComplete | agent/farcaster.js:176-183 | every notification with a cast with text yields its mention |
| Farcaster.MentionsInOrder | agent/farcaster.js:175-183 | mentions keep the order of their notifications |
| Farcaster.FetchMentions | agent/farcaster.js:161-188 | a failed request or a missing list gives no mentions; otherwise the filtered and shaped notifications |
| Agent.DefaultValid | agent/state.js:6-15 | the default state satisfies the invariant, with the action counter below the cadence |
| Agent.CountAction | agent/index.js:105-111 | a tx-less action only bumps actionsSinceCast; a tx bumps txCount by 1, adds the value to the total read as BigInt, and bumps actionsSinceCast; when the total does not parse, only txCount has moved |
| Agent.CountActionNeverFails | agent/index.js:105-111 | from a valid state the count never throws, the total stays parseable, and the action counter goes up by one |
| Agent.RecordAction | agent/index.js:105-111 | updates the state object to the counted record and fails exactly when the stored total is not BigInt text |
| Agent.ResetCast | agent/index.js:115-127 | after the cast step actionsSinceCast is below the cadence; it is reset to 0 exactly when the cadence was reached, and otherwise nothing changes |
| Agent.CastStep | agent/index.js:114-127 | a cast is posted exactly when the cadence was reached: the generated text if any, else a life update when the draw is at most 7 and the action had a hash, else a musing; the counter ends below the cadence |
| Agent.DecideMolt | agent/index.js:129-139 | the decision is `Agent.MoltDue` of the state; the rule runs, and its check is returned, exactly when there is no reply |
| Agent.MoltDue | agent/index.js:129-139 | a reply decides by itself (molt iff its lower-cased text contains "yes"); without a reply the rule decides: txCount reaches the tx threshold or the age reaches the time threshold |
| Agent.AfterMolt | agent/index.js:158-164 | the new shell's index and molt count are one higher, txCount 0, total the text "0" (which parses as 0), actionsSinceCast 0, born now; replied hashes and mention timestamp are untouched |
| Agent.NewShellTooYoung | agent/index.js:158-164 | until the minimum age has passed, the rule refuses to molt a new shell for every draw |
| Agent.Announce | agent/index.js:147-156 | the generated molt cast never fails; the template thread fails only for a negative shell index, and only with the announcement's rejection |
| Agent.MoltOutcome | agent/index.js:141-156 | molt fails without the old balance or with a total that is no BigInt; otherwise the announcement decides; success whenever the balance is known, the total parses and the index is non-negative |
| Agent.MoltStep | agent/index.js:141-165 | succeeds exactly when `Agent.MoltOutcome` does, and then the state is exactly the new shell's and the summary has the old index, the next index, the old txCount and the mint hash; on failure it returns the same error and the state is unchanged |
| Agent.NewMentions | agent/index.js:179-181 | only mentions whose hash has not been replied to, in their order, and every such mention; never more than the list |
| Agent.NewMentionsSnoc | agent/index.js:179-181 | filtering one more mention keeps it exactly when its hash has not been replied to, after the earlier ones |
| Agent.Handled | agent/index.js:186 | the first three new mentions, or all of them when there are fewer |
| Agent.HashesOf | agent/index.js:195 | the hashes of the answered mentions, in order |
| Agent.KeepLast | agent/index.js:197-199 | at most 200 hashes, the most recent ones in order; a list within the cap is unchanged |
| Agent.KeepLastStep | agent/index.js:195-199 | capping after every append equals capping once after all appends |
| Agent.AppendedRemembered | agent/index.js:195-199 | every appended hash survives the cap of 200, for up to 200 appends |
| Agent.HandledRemembered | agent/index.js:186-199 | with `generateReply` resolved: every answered hash is remembered afterwards, so the mention is never answered again |
| Agent.ReplyPayloads | agent/index.js:188-194 | at most one reply per answered mention; with `Agent.ReplyPayloadsSound`, `Agent.ReplyPayloadsComplete` and `Agent.PayloadsStep` it is exactly the replies with truthy text, in the mentions' order |
| Agent.ReplyPayloadsSound | agent/index.js:188-194 | every reply posted carries the agent's signer and the truthy reply text of one answered mention, threaded under that mention's hash |
| Agent.ReplyPayloadsComplete | agent/index.js:188-194 | every answered mention with a truthy reply text gets that reply, threaded under its hash |
| Agent.PayloadsStep | agent/index.js:188-194 | one more answered mention adds its reply, when truthy, after the earlier ones |
| Agent.RememberedStep | agent/index.js:195-199 | each answered mention appends its hash and re-applies the cap |
| Agent.HashesOfSnoc | agent/index.js:195 | one more answered mention appends its hash after the earlier ones |
| Agent.AfterMentions | agent/index.js:175-206 | with `generateReply` resolved (see `Agent.MentionStepResolved`): only the remembered hashes and, when there were new mentions, the timestamp change; without new mentions nothing changes |
| Agent.AnswerLoop | agent/index.js:186-201 | a throw can only come from an unresolved `generateReply`, and only when there is a mention to answer; at most one reply per answered mention |
| Agent.AnswerLoopUnresolved | agent/index.js:186-201 | with no `generateReply`, the first call throws before any post or push: nothing is posted and no hash is remembered |
| Agent.AnswerLoopResolved | agent/index.js:186-201 | with `generateReply`, the loop never throws, remembers the capped append of all the answered hashes and posts exactly `Agent.ReplyPayloads` |
| Agent.MentionStep | agent/index.js:175-209 | only the remembered hashes and the mention timestamp can change; without new mentions nothing changes and nothing is posted |
| Agent.MentionStepUnresolved | agent/index.js:13 | as written: the mention step leaves the state unchanged and posts nothing |
| Agent.MentionStepResolved | agent/index.js:175-209 | as intended: the state becomes `Agent.AfterMentions` and the posts are the replies for the answered mentions |
| Agent.AnswerMentions | agent/index.js:186-201 | the loop on the state object ends with exactly the remembered hashes, posts and throw of `Agent.AnswerLoop` |
| Agent.HandleMentions | agent/index.js:175-209 | the state object and the posts are exactly `Agent.MentionStep` of the old record |
| Agent.AsWrittenNeverAnswers | agent/index.js:13 | with a new mention, the step as written leaves the first one new again, the intended step does not, and the two states differ |
| Agent.MentionsKeepValid | agent/index.js:175-209 | the mention step, resolved or not, keeps the invariant, including the cap of 200 remembered hashes, and keeps a settled counter settled |
| Agent.CountKeepsValid | agent/index.js:105-127 | from a valid state, counting an action and the cast step give a valid state with the counter below the cadence |
| Agent.MoltKeepsValid | agent/index.js:158-164 | from a valid state, the new shell's state is valid with the counter at 0 |
| Agent.Acted | agent/index.js:92-100 | fails without the current balance; otherwise fails exactly when the action fails; never with the TypeError of an inherited name |
| Agent.ActPhase | agent/index.js:92-127 | a failed balance read or action leaves the state unchanged; a total that is no BigInt throws with exactly `Agent.CountAction` applied, which moves only txCount; otherwise the state is the counted action followed by the cast step, `Agent.ResetCast` of `Agent.CountAction`, and the counter is below the cadence; shell, molt count, remembered hashes and mention timestamp never change |
| Agent.MoltPhase | agent/index.js:129-173 | without a decision to molt, nothing changes; with one, the state moves into the new shell exactly when `Agent.MoltOutcome` succeeds, and otherwise stays with that error; after the move the result fails exactly when the new shell's balance read fails |
| Agent.Step | agent/index.js:88-215 | shell index and molt count advance together by at most one; a failed balance read or action leaves the state unchanged |
| Agent.StepAnnounces | agent/index.js:147-156 | from a valid state the molt announcement never rejects |
| Agent.StepKeepsValid | agent/index.js:88-215 | from a valid state an iteration leaves a valid state and never meets a total that is no BigInt; when the iteration changed the state or succeeded, the counter is below the cadence |
| Agent.Run | agent/index.js:88-227 | at most one failure per iteration; the molt count grows by at most one per iteration, in step with the shell index |
| Agent.RunSnoc | agent/index.js:88-227 | one more iteration starts where the earlier ones ended and adds one failure exactly when it ends in the handler |
| Agent.RunKeepsValid | agent/index.js:88-227 | from a valid state, every number of iterations leaves a valid state |
| Agent.ActStep | agent/index.js:92-127 | the state object and the result are exactly `Agent.ActPhase` of the old record |
| Agent.MoltIfDue | agent/index.js:129-173 | the state object and the result are exactly `Agent.MoltPhase` of the old record |
| Agent.Iterate | agent/index.js:88-227 | the state object and the result are exactly `Agent.Step` of the old record, for any loaded state |
| Agent.MainLoop | agent/index.js:88-227 | the final state object and the number of failed iterations are exactly `Agent.Run` of the starting record, for any loaded state |

## Left out

- `agent/wallet-manager.js` is not part of this model. It holds the provider and wallet
  singletons, the balance RPC and the floating-point `formatEth`. Addresses are plain strings
  and balances are parameters.
- Network I/O: the Neynar and LLM HTTP calls and the ethers transactions, receipts and contract
  calls. Their results are parameters, with None meaning that the call threw.
- `Math.random`, `Date.now()`, `new Date().toISOString()`, `sleep`, the 2-minute back-off, signal
  handling and process exit. Draws, clock readings and ISO strings are parameters.
- The text of the LLM prompts and of `buildLifeSummary`, the reason strings of `shouldMolt`, and
  the action descriptions. These are tags or parameters. The fixed text pools are parameters;
  only their indexing is modelled.
- The startup announcement and the zero-balance warning in `main`. They post text and do not
  touch the state.
- The `saveState` calls inside the loop. `State.SaveState` models one save, and the loop model
  works on the in-memory object.
- `generateCast` and `generateMoltCast`. They are `ask` with a prompt, and their answers are
  parameters, as are the answers of `ask` to the action and molt questions (`Llm.Ask` gives
  them). `generateReply` is defined nowhere (see Findings). Whether it resolves is an input,
  and the reply text for each answered mention is a parameter.
- The cast hash results of the posts in the loop. `index.js` ignores them, and the loop model
  records the posted text.
- `State.LoadState`: the loop object `State.AgentState` holds only the eight typed fields.
  Extra fields of a loaded file and fields of an unexpected JSON type are not carried into it.
- `Decimal.ParseBigInt` models `BigInt(string)` on plain decimal digits only. Signs,
  surrounding white space, and `0x`, `0o` and `0b` prefixes are treated as throwing.
- `Molt.Molt` does not model the `RangeError` that `toISOString` raises for a `shellBornAt`
  outside the representable date range.
- `Farcaster.Truncate` and `Farcaster.CastPayloadFor` measure length in Unicode characters, not
  in UTF-16 code units as JavaScript does.
- `Llm.LowerChar` lower-cases ASCII letters only. JavaScript's full Unicode case mapping is not
  modelled.
- `Llm.ToLower` keeps the length of its text. JavaScript's `toLowerCase` can change it, for
  example "İ" becomes two code points. The model covers the ASCII case only.
- JavaScript numbers are doubles. The counters, the shell index, the timestamps and the
  thresholds are unbounded integers here. Precision loss above 2^53 is not modelled.
- `Farcaster.IntToString` prints every integer as plain digits. JavaScript's `String(n)` switches
  to exponent form from 10^21 on.
- `Farcaster.Cast`: a notification cast without a `hash` field is not modelled. Every cast
  carries a hash string.
- `Agent.MainLoop` takes a finite list of iterations. The loop in the source runs until a signal
  arrives.

## Findings

| source | as written | input that shows it | evidently intended | confidence | as-written member | corrected member |
|---|---|---|---|---|---|---|
| agent/index.js:13 | `generateReply` is imported from `./llm`, whose exports (agent/llm.js:115) do not include it. The call on line 188 throws a TypeError for the first new mention, and the handler on line 207 only logs it. No reply is posted, no hash is remembered and the timestamp is not set. | one mention with hash "0xabc" and an empty `repliedHashes`: after the step `repliedHashes` is still empty, so the same mention is new again at every iteration | up to three new mentions answered per iteration, each hash remembered (capped at 200), and the mention timestamp set | high, not executed | `Agent.MentionStepUnresolved`, `Agent.AsWrittenNeverAnswers` | `Agent.MentionStepResolved`, `Agent.HandledRemembered` |
