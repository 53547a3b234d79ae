/**
  Post-processing of the LLM's free-text replies: the action name it chose and its yes/no
  answer to "should I molt?". The HTTP request itself is a parameter: the reply text, or
  None when the request failed.
*/
module Llm {
  import opened Wrappers
  import LifeActions

  /** `API_KEY`: LLM_API_KEY when set, else MOONSHOT_API_KEY when set, else none. */
  function ApiKey(env: map<string, string>): (key: Option<string>)
    ensures Truthy(key) <==> ("LLM_API_KEY" in env && env["LLM_API_KEY"] != "")
                              || ("MOONSHOT_API_KEY" in env && env["MOONSHOT_API_KEY"] != "")
  {
    if "LLM_API_KEY" in env && env["LLM_API_KEY"] != "" then Some(env["LLM_API_KEY"])
    else if "MOONSHOT_API_KEY" in env then Some(env["MOONSHOT_API_KEY"])
    else None
  }

  /**
    `ask`: no request and a null answer without an API key; otherwise the reply the
    request produced (already trimmed), or null when it failed.
  */
  function Ask(apiKey: Option<string>, reply: Option<string>): (r: Option<string>)
    ensures !Truthy(apiKey) ==> r == None
    ensures Truthy(apiKey) ==> r == reply
  {
    if !Truthy(apiKey) then None else reply
  }

  /** `toLowerCase` on one character (ASCII letters). */
  function LowerChar(c: char): (d: char)
    ensures 'A' <= c <= 'Z' ==> 'a' <= d <= 'z' && d as int - 'a' as int == c as int - 'A' as int
    ensures !('A' <= c <= 'Z') ==> d == c
  {
    if 'A' <= c <= 'Z' then ((c as int) - ('A' as int) + ('a' as int)) as char else c
  }

  function ToLower(s: string): (r: string)
    ensures |r| == |s| && forall i :: 0 <= i < |s| ==> r[i] == LowerChar(s[i])
  {
    if s == [] then [] else [LowerChar(s[0])] + ToLower(s[1..])
  }

  /** The characters `/[^a-z-]/g` keeps. */
  predicate IsNameChar(c: char)
  {
    'a' <= c <= 'z' || c == '-'
  }

  /** `response.toLowerCase().replace(/[^a-z-]/g, "")` */
  function Normalise(s: string): (r: string)
    ensures forall i :: 0 <= i < |r| ==> IsNameChar(r[i])
    ensures |r| <= |s|
  {
    if s == [] then []
    else
      var c := LowerChar(s[0]);
      (if IsNameChar(c) then [c] else []) + Normalise(s[1..])
  }

  /** Text that is already lower-case letters and hyphens passes through unchanged. */
  lemma {:induction false} NormaliseKeepsNames(s: string)
    requires forall i :: 0 <= i < |s| ==> IsNameChar(s[i])
    ensures Normalise(s) == s
  {
    if s != [] {
      NormaliseKeepsNames(s[1..]);
      assert [s[0]] + s[1..] == s;
    }
  }

  /** One character is lowered, then kept exactly when it is a letter a-z or a hyphen. */
  lemma NormaliseChar(c: char)
    ensures Normalise([c]) == if IsNameChar(LowerChar(c)) then [LowerChar(c)] else []
  {
    assert [c][1..] == [];
  }

  /** Normalisation works character by character: a concatenation normalises piecewise. */
  lemma {:induction false} NormaliseAppend(a: string, b: string)
    ensures Normalise(a + b) == Normalise(a) + Normalise(b)
  {
    if a != [] {
      assert (a + b)[0] == a[0] && (a + b)[1..] == a[1..] + b;
      NormaliseAppend(a[1..], b);
    } else {
      assert a + b == b;
    }
  }

  /** Normalising twice is normalising once. */
  lemma NormaliseIdempotent(s: string)
    ensures Normalise(Normalise(s)) == Normalise(s)
  {
    NormaliseKeepsNames(Normalise(s));
  }

  /** The names `decideAction` accepts. */
  const LLM_ACTIONS: seq<string> := ["breathe", "gift", "observe", "self-transfer"]

  /**
    `decideAction` after `ask`: null when there is no reply (or an empty one); otherwise
    the normalised reply when it is one of the four names, and null when it is not.
  */
  function DecideAction(response: Option<string>): (r: Option<string>)
    ensures !Truthy(response) ==> r == None
    ensures r.Some? <==> Truthy(response) && Normalise(response.value) in LLM_ACTIONS
    ensures r.Some? ==> r.value in LLM_ACTIONS && r.value == Normalise(response.value)
  {
    if !Truthy(response) then None
    else
      var action := Normalise(response.value);
      if action in LLM_ACTIONS then Some(action) else None
  }

  /** Whatever `decideAction` returns selects its action directly, bypassing the pool. */
  lemma DecidedActionIsMapped(response: Option<string>)
    ensures DecideAction(response).Some? ==> LifeActions.IsMappedChoice(DecideAction(response))
    ensures !LifeActions.IsInheritedChoice(DecideAction(response))
  {
    LifeActions.ActionMapEntries();
  }

  /** "yes" starts at position `i` of `s`. */
  predicate YesAt(s: string, i: int)
  {
    0 <= i && i + 3 <= |s| && s[i] == 'y' && s[i + 1] == 'e' && s[i + 2] == 's'
  }

  /** "yes" occurs somewhere in `s`. */
  ghost predicate HasYes(s: string)
  {
    exists i :: YesAt(s, i)
  }

  /** `s.includes("yes")`, written as a scan. */
  function ContainsYes(s: string): (b: bool)
    ensures b <==> HasYes(s)
  {
    if |s| < 3 then false
    else if YesAt(s, 0) then true
    else
      var rest := ContainsYes(s[1..]);
      assert rest ==> exists i :: YesAt(s, i) by {
        if rest {
          var i :| YesAt(s[1..], i);
          assert YesAt(s, i + 1);
        }
      }
      assert (exists i :: YesAt(s, i)) ==> rest by {
        if exists i :: YesAt(s, i) {
          var i :| YesAt(s, i);
          assert YesAt(s[1..], i - 1);
        }
      }
      rest
  }

  /**
    `shouldMoltLLM` after `ask`: null exactly when there is no reply (or an empty one);
    otherwise true exactly when the lower-cased reply contains "yes" anywhere.
  */
  function ShouldMoltLLM(response: Option<string>): (r: Option<bool>)
    ensures r.None? <==> !Truthy(response)
    ensures r.Some? ==> (r.value <==> HasYes(ToLower(response.value)))
  {
    if !Truthy(response) then None else Some(ContainsYes(ToLower(response.value)))
  }
}
