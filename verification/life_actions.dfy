/**
  The action registry, the weighted pool the random choice is drawn from, and the result
  each action reports. The ledger calls, the random address and the random draws are
  parameters.
*/
module LifeActions {
  import opened Wrappers

  /** `ethers.parseEther("0.0001")`: 10^14 wei. */
  const MICRO_ETH: nat := 100_000_000_000_000
  const GWEI: nat := 1_000_000_000

  /** The range `breathe` draws its amount from, in gwei. */
  const BREATH_MIN_GWEI: int := 1000
  const BREATH_MAX_GWEI: int := 50000

  // ── Action registry ──────────────────────────────────────────────

  datatype ActionKind = SelfTransfer | RandomGift | ObserveShells | Breathe

  /** A registry entry: the function to run, its weight and its name. */
  datatype Action = Action(fn: ActionKind, weight: nat, name: string)

  const ACTIONS: seq<Action> := [
    Action(SelfTransfer, 3, "self-transfer"),
    Action(RandomGift, 2, "random-gift"),
    Action(ObserveShells, 2, "observe-shells"),
    Action(Breathe, 3, "breathe")]

  /** `actions.find(a => a.name === name)` */
  function Find(actions: seq<Action>, name: string): Option<Action>
  {
    if actions == [] then None
    else if actions[0].name == name then Some(actions[0])
    else Find(actions[1..], name)
  }

  /** The names the LLM may give, each bound to its registry entry (`undefined` if absent). */
  const ACTION_MAP: map<string, Option<Action>> := map[
    "self-transfer" := Find(ACTIONS, "self-transfer"),
    "gift" := Find(ACTIONS, "random-gift"),
    "observe" := Find(ACTIONS, "observe-shells"),
    "breathe" := Find(ACTIONS, "breathe")]

  /** Find returns the entry at `i` when `i` is the first position with that name. */
  lemma {:induction false} FindFirst(actions: seq<Action>, name: string, i: nat)
    requires i < |actions| && actions[i].name == name
    requires forall j :: 0 <= j < i ==> actions[j].name != name
    ensures Find(actions, name) == Some(actions[i])
  {
    if i > 0 {
      FindFirst(actions[1..], name, i - 1);
    }
  }

  /** Every key of ACTION_MAP is bound to a registry entry, and to the one it names. */
  lemma ActionMapEntries()
    ensures ACTION_MAP.Keys == {"self-transfer", "gift", "observe", "breathe"}
    ensures ACTION_MAP["self-transfer"] == Some(ACTIONS[0])
    ensures ACTION_MAP["gift"] == Some(ACTIONS[1])
    ensures ACTION_MAP["observe"] == Some(ACTIONS[2])
    ensures ACTION_MAP["breathe"] == Some(ACTIONS[3])
    ensures forall k :: k in ACTION_MAP ==> ACTION_MAP[k].Some? && ACTION_MAP[k].value in ACTIONS
  {
    var a := ACTIONS;
    assert a[0].name != "random-gift" && a[0].name != "observe-shells" && a[0].name != "breathe";
    assert a[1].name != "observe-shells" && a[1].name != "breathe" && a[2].name != "breathe";
    FindFirst(a, "self-transfer", 0);
    FindFirst(a, "random-gift", 1);
    FindFirst(a, "observe-shells", 2);
    FindFirst(a, "breathe", 3);
    assert ACTION_MAP["gift"] == Find(a, "random-gift");
    assert ACTION_MAP["observe"] == Find(a, "observe-shells");
  }

  // ── Weighted pool ────────────────────────────────────────────────

  /** `n` copies of `a`. */
  function Repeat(a: Action, n: nat): (r: seq<Action>)
    ensures |r| == n && forall i :: 0 <= i < n ==> r[i] == a
  {
    if n == 0 then [] else Repeat(a, n - 1) + [a]
  }

  /** The pool: each entry `weight` times, entries in registry order. */
  function WeightedPool(actions: seq<Action>): seq<Action>
  {
    if actions == [] then []
    else WeightedPool(actions[..|actions| - 1]) + Repeat(actions[|actions| - 1], actions[|actions| - 1].weight)
  }

  function TotalWeight(actions: seq<Action>): nat
  {
    if actions == [] then 0 else TotalWeight(actions[..|actions| - 1]) + actions[|actions| - 1].weight
  }

  /** How many pool slots an action value is entitled to: the weights of its entries. */
  function WeightOf(actions: seq<Action>, x: Action): nat
  {
    if actions == [] then 0
    else WeightOf(actions[..|actions| - 1], x) + (if actions[|actions| - 1] == x then x.weight else 0)
  }

  /** The pool has one slot per unit of weight, and each action fills exactly its weight. */
  lemma {:induction false} WeightedPoolCounts(actions: seq<Action>)
    ensures |WeightedPool(actions)| == TotalWeight(actions)
    ensures forall x :: multiset(WeightedPool(actions))[x] == WeightOf(actions, x)
  {
    if actions != [] {
      var init, last := actions[..|actions| - 1], actions[|actions| - 1];
      WeightedPoolCounts(init);
      RepeatCount(last, last.weight);
      assert multiset(WeightedPool(actions)) == multiset(WeightedPool(init)) + multiset(Repeat(last, last.weight));
    }
  }

  lemma {:induction false} RepeatCount(a: Action, n: nat)
    ensures forall x :: multiset(Repeat(a, n))[x] == if x == a then n else 0
  {
    if n > 0 {
      RepeatCount(a, n - 1);
      assert multiset(Repeat(a, n)) == multiset(Repeat(a, n - 1)) + multiset{a};
    }
  }

  /** A pool slot always holds a registry entry of positive weight, and every such entry has one. */
  lemma {:induction false} WeightedPoolMembers(actions: seq<Action>)
    ensures forall x :: x in WeightedPool(actions) <==> x in actions && x.weight > 0
  {
    if actions != [] {
      var init, last := actions[..|actions| - 1], actions[|actions| - 1];
      WeightedPoolMembers(init);
      assert actions == init + [last];
      forall x
        ensures x in WeightedPool(actions) <==> x in actions && x.weight > 0
      {
        assert x in Repeat(last, last.weight) <==> x == last && last.weight > 0 by {
          if last.weight > 0 { assert Repeat(last, last.weight)[0] == last; }
        }
      }
    }
  }

  const POOL_SIZE: nat := 10

  /** The agent's own pool: 3 + 2 + 2 + 3 = 10 slots, each action exactly its weight. */
  lemma AgentPool()
    ensures WeightedPool(ACTIONS) ==
              Repeat(ACTIONS[0], 3) + Repeat(ACTIONS[1], 2) + Repeat(ACTIONS[2], 2) + Repeat(ACTIONS[3], 3)
    ensures |WeightedPool(ACTIONS)| == POOL_SIZE
  {
    var a := ACTIONS;
    assert a[..1][..0] == [] && a[..2][..1] == a[..1] && a[..3][..2] == a[..2] && a[..4][..3] == a[..3];
    assert a[..4] == a;
    assert WeightedPool(a[..1]) == Repeat(a[0], 3);
    assert WeightedPool(a[..2]) == Repeat(a[0], 3) + Repeat(a[1], 2);
    assert WeightedPool(a[..3]) == Repeat(a[0], 3) + Repeat(a[1], 2) + Repeat(a[2], 2);
  }

  lemma {:induction false} WeightOfAbsent(actions: seq<Action>, x: Action)
    requires x !in actions
    ensures WeightOf(actions, x) == 0
  {
    if actions != [] {
      WeightOfAbsent(actions[..|actions| - 1], x);
    }
  }

  /** In a registry without repeated entries, each entry is entitled to exactly its weight. */
  lemma {:induction false} WeightOfDistinct(actions: seq<Action>, i: int)
    requires 0 <= i < |actions|
    requires forall j, k :: 0 <= j < k < |actions| ==> actions[j] != actions[k]
    ensures WeightOf(actions, actions[i]) == actions[i].weight
  {
    var init := actions[..|actions| - 1];
    if i == |actions| - 1 {
      WeightOfAbsent(init, actions[i]);
    } else {
      WeightOfDistinct(init, i);
    }
  }

  /** The registry lists each action once. */
  lemma ActionsDistinct()
    ensures forall j, k :: 0 <= j < k < |ACTIONS| ==> ACTIONS[j] != ACTIONS[k]
  {
    var a := ACTIONS;
    assert a[0].fn == SelfTransfer && a[1].fn == RandomGift && a[2].fn == ObserveShells && a[3].fn == Breathe;
  }

  /** In the agent's pool every registry entry fills exactly as many slots as its weight. */
  lemma AgentPoolCounts()
    ensures forall i :: 0 <= i < |ACTIONS| ==> multiset(WeightedPool(ACTIONS))[ACTIONS[i]] == ACTIONS[i].weight
  {
    WeightedPoolCounts(ACTIONS);
    ActionsDistinct();
    forall i | 0 <= i < |ACTIONS|
      ensures WeightOf(ACTIONS, ACTIONS[i]) == ACTIONS[i].weight
    {
      WeightOfDistinct(ACTIONS, i);
    }
  }

  /** The nested loops of `performRandomAction` that push each action `weight` times. */
  method BuildPool(actions: seq<Action>) returns (pool: seq<Action>)
    ensures pool == WeightedPool(actions)
  {
    pool := [];
    for k := 0 to |actions|
      invariant pool == WeightedPool(actions[..k])
    {
      var action := actions[k];
      for i := 0 to action.weight
        invariant pool == WeightedPool(actions[..k]) + Repeat(action, i)
      {
        pool := pool + [action];
      }
      assert actions[..k + 1][..k] == actions[..k];
    }
    assert actions[..|actions|] == actions;
  }

  // ── Choosing and running an action ───────────────────────────────

  /**
    The names every plain object inherits from `Object.prototype`. Looking one of them up
    in ACTION_MAP finds a built-in function or object: truthy, but with no `fn` to call.
  */
  const INHERITED_KEYS: set<string> := {
    "constructor", "__proto__", "hasOwnProperty", "isPrototypeOf", "propertyIsEnumerable",
    "toLocaleString", "toString", "valueOf", "__defineGetter__", "__defineSetter__",
    "__lookupGetter__", "__lookupSetter__"}

  /** `llmChoice && ACTION_MAP[llmChoice]`: a non-empty choice bound to an entry. */
  predicate IsMappedChoice(llmChoice: Option<string>)
  {
    Truthy(llmChoice) && llmChoice.value in ACTION_MAP && ACTION_MAP[llmChoice.value].Some?
  }

  /** `llmChoice && ACTION_MAP[llmChoice]` holds, but through an inherited name. */
  predicate IsInheritedChoice(llmChoice: Option<string>)
  {
    Truthy(llmChoice) && llmChoice.value in INHERITED_KEYS
  }

  /**
    The choice step of `performRandomAction`: a mapped LLM choice is taken as is;
    otherwise the pool is built and slot `draw` (drawn from `[0, pool.length - 1]`) is taken.
    An inherited name is taken too, and is no registry entry (None).
  */
  method ChooseAction(llmChoice: Option<string>, draw: int) returns (chosen: Option<Action>)
    requires 0 <= draw < POOL_SIZE
    ensures chosen.None? <==> IsInheritedChoice(llmChoice)
    ensures chosen.Some? ==> chosen.value in ACTIONS
    ensures IsMappedChoice(llmChoice) ==> chosen == Some(ACTION_MAP[llmChoice.value].value)
    ensures !IsMappedChoice(llmChoice) && !IsInheritedChoice(llmChoice) ==>
              |WeightedPool(ACTIONS)| == POOL_SIZE && chosen == Some(WeightedPool(ACTIONS)[draw])
  {
    ActionMapEntries();
    if IsMappedChoice(llmChoice) {
      chosen := Some(ACTION_MAP[llmChoice.value].value);
    } else if IsInheritedChoice(llmChoice) {
      chosen := None;
    } else {
      var pool := BuildPool(ACTIONS);
      AgentPool();
      WeightedPoolMembers(ACTIONS);
      chosen := Some(pool[draw]);
    }
  }

  /** The description each action gives of itself (rendered as text by the source). */
  datatype Description =
    | SentToSelf
    | GiftTo(to: string)
    | ObservedGraveyard(totalShells: nat)
    | MistTooThick
    | TookBreath(wei: nat)

  /** What an action function returns. */
  datatype ActionOutput = ActionOutput(description: Description, txHash: Option<string>, value: nat)

  /** What `performRandomAction` returns: the action's output plus the entry's name. */
  datatype ActionResult = ActionResult(description: Description, txHash: Option<string>, value: nat, actionName: string)

  /**
    The error that reaches the main loop: a failed transfer, or the TypeError of calling
    `chosen.fn` when the choice was an inherited name.
  */
  datatype ActionError = TransferFailed | NotAFunction

  /**
    The outside world an action meets: the receipt hash of a transfer (None when sending
    or waiting throws), the answer of `totalShells()` (None when the call throws), the
    random gift address and the gwei amount `breathe` draws.
  */
  datatype ActionEnv = ActionEnv(transfer: Option<string>, totalShells: Option<nat>,
                                 giftTo: string, breathGwei: int)

  predicate ValidEnv(env: ActionEnv)
  {
    BREATH_MIN_GWEI <= env.breathGwei <= BREATH_MAX_GWEI
  }

  /** The four action functions, run against the outside world `env`. */
  function RunAction(fn: ActionKind, env: ActionEnv): (r: Result<ActionOutput, ActionError>)
    requires ValidEnv(env)
    // Observing never fails and never counts as a transaction.
    ensures fn == ObserveShells ==> r.Ok? && r.value.txHash == None && r.value.value == 0
    // A transfer fails exactly when its ledger call fails; otherwise it reports the receipt.
    ensures fn != ObserveShells ==> (r.Ok? <==> env.transfer.Some?)
    ensures fn != ObserveShells && r.Ok? ==> r.value.txHash == env.transfer
    ensures (fn == SelfTransfer || fn == RandomGift) && r.Ok? ==> r.value.value == MICRO_ETH
    ensures fn == Breathe && r.Ok? ==> 1000 * GWEI <= r.value.value <= 50000 * GWEI
  {
    match fn
    case SelfTransfer =>
      if env.transfer.None? then Err(TransferFailed)
      else Ok(ActionOutput(SentToSelf, env.transfer, MICRO_ETH))
    case RandomGift =>
      if env.transfer.None? then Err(TransferFailed)
      else Ok(ActionOutput(GiftTo(env.giftTo), env.transfer, MICRO_ETH))
    case ObserveShells =>
      (match env.totalShells
       case Some(total) => Ok(ActionOutput(ObservedGraveyard(total), None, 0))
       case None => Ok(ActionOutput(MistTooThick, None, 0)))
    case Breathe =>
      var wei := env.breathGwei * GWEI;
      if env.transfer.None? then Err(TransferFailed)
      else Ok(ActionOutput(TookBreath(wei), env.transfer, wei))
  }

  /** `{ ...result, actionName: chosen.name }`, passing a thrown error through. */
  function Tagged(out: Result<ActionOutput, ActionError>, name: string): Result<ActionResult, ActionError>
  {
    match out
    case Err(e) => Err(e)
    case Ok(o) => Ok(ActionResult(o.description, o.txHash, o.value, name))
  }

  /** The entry a choice that is no inherited name selects: the mapped one, or the drawn slot. */
  function ChosenEntry(llmChoice: Option<string>, draw: int): (a: Action)
    requires 0 <= draw < POOL_SIZE
    ensures a in ACTIONS
    ensures IsMappedChoice(llmChoice) ==> a == ACTION_MAP[llmChoice.value].value
  {
    ActionMapEntries();
    AgentPool();
    WeightedPoolMembers(ACTIONS);
    if IsMappedChoice(llmChoice) then ACTION_MAP[llmChoice.value].value else WeightedPool(ACTIONS)[draw]
  }

  /**
    What `performRandomAction` returns for a choice, a pool draw and the outside world:
    the entry the LLM named, or the drawn pool slot when it named none, run and tagged.
  */
  function PerformedAction(llmChoice: Option<string>, draw: int, env: ActionEnv)
    : (r: Result<ActionResult, ActionError>)
    requires 0 <= draw < POOL_SIZE
    requires ValidEnv(env)
    ensures r.Ok? ==> exists i :: 0 <= i < |ACTIONS| && r.value.actionName == ACTIONS[i].name
    ensures r == Err(NotAFunction) <==> IsInheritedChoice(llmChoice)
    ensures IsMappedChoice(llmChoice) ==>
              var chosen := ACTION_MAP[llmChoice.value].value;
              r == Tagged(RunAction(chosen.fn, env), chosen.name)
  {
    if IsInheritedChoice(llmChoice) then Err(NotAFunction)
    else
      var chosen := ChosenEntry(llmChoice, draw);
      assert exists j :: 0 <= j < |ACTIONS| && ACTIONS[j] == chosen;
      Tagged(RunAction(chosen.fn, env), chosen.name)
  }

  /** `performRandomAction`: choose, run, and tag the result with the chosen entry's name. */
  method PerformRandomAction(llmChoice: Option<string>, draw: int, env: ActionEnv)
    returns (r: Result<ActionResult, ActionError>)
    requires 0 <= draw < POOL_SIZE
    requires ValidEnv(env)
    ensures r == PerformedAction(llmChoice, draw, env)
  {
    var chosen := ChooseAction(llmChoice, draw);
    if chosen.None? {
      return Err(NotAFunction);
    }
    r := Tagged(RunAction(chosen.value.fn, env), chosen.value.name);
  }
}
