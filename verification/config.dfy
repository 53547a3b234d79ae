/** Constants every other rule depends on, and the start-up check of the environment. */
module Config {
  import opened Wrappers

  // Timing (milliseconds)
  const LIFE_ACTION_INTERVAL_MS: int := 10 * 60 * 1000
  const MOLT_CHECK_INTERVAL_MS: int := 5 * 60 * 1000

  // Molt thresholds, redrawn inside these ranges on every check
  const TX_THRESHOLD_MIN: int := 10
  const TX_THRESHOLD_MAX: int := 20
  const TIME_THRESHOLD_MIN_MS: int := 2 * 60 * 60 * 1000
  const TIME_THRESHOLD_MAX_MS: int := 4 * 60 * 60 * 1000

  // Sleep jitter of the main loop
  const SLEEP_MIN_MS: int := 8 * 60 * 1000
  const SLEEP_MAX_MS: int := 15 * 60 * 1000

  // A cast is posted once this many actions have accumulated
  const CAST_EVERY_N_ACTIONS: int := 3

  const CHAIN_ID: int := 84532

  /** Every random draw the agent makes from these ranges has at least one value to pick. */
  lemma RangesNonEmpty()
    ensures TX_THRESHOLD_MIN <= TX_THRESHOLD_MAX
    ensures TIME_THRESHOLD_MIN_MS <= TIME_THRESHOLD_MAX_MS
    ensures SLEEP_MIN_MS <= SLEEP_MAX_MS
    ensures CAST_EVERY_N_ACTIONS > 0
  {
  }

  /** The variables the agent cannot start without, in the order they are reported. */
  const REQUIRED_VARS: seq<string> := ["PRIVATE_KEY", "NEYNAR_API_KEY", "FARCASTER_SIGNER_UUID"]

  /** A variable counts as set only when it is defined and not the empty string. */
  predicate IsSet(env: map<string, string>, name: string)
  {
    name in env && env[name] != ""
  }

  function RequiredIndex(name: string): nat
  {
    if name == REQUIRED_VARS[0] then 0 else if name == REQUIRED_VARS[1] then 1 else 2
  }

  /** The reported names appear in the same relative order as in REQUIRED_VARS. */
  predicate InRequiredOrder(names: seq<string>)
  {
    forall i, j :: 0 <= i < j < |names| ==> RequiredIndex(names[i]) < RequiredIndex(names[j])
  }

  /**
    `validateEnv`: collects, one check at a time, the required variables that are not
    set, and fails with exactly those names, in the fixed order, when there is any.
  */
  method ValidateEnv(env: map<string, string>) returns (r: Result<(), seq<string>>)
    ensures r.Ok? <==> forall i :: 0 <= i < |REQUIRED_VARS| ==> IsSet(env, REQUIRED_VARS[i])
    ensures r.Err? ==> |r.error| > 0
    ensures r.Err? ==> forall v :: v in r.error <==> v in REQUIRED_VARS && !IsSet(env, v)
    ensures r.Err? ==> InRequiredOrder(r.error)
  {
    assert REQUIRED_VARS[0] == "PRIVATE_KEY" && REQUIRED_VARS[1] == "NEYNAR_API_KEY";
    assert REQUIRED_VARS[2] == "FARCASTER_SIGNER_UUID";
    var missing: seq<string> := [];
    if !IsSet(env, "PRIVATE_KEY") {
      missing := missing + ["PRIVATE_KEY"];
    }
    if !IsSet(env, "NEYNAR_API_KEY") {
      missing := missing + ["NEYNAR_API_KEY"];
    }
    if !IsSet(env, "FARCASTER_SIGNER_UUID") {
      missing := missing + ["FARCASTER_SIGNER_UUID"];
    }
    if |missing| > 0 {
      r := Err(missing);
    } else {
      r := Ok(());
    }
  }
}
