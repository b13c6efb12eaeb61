/** What the three agent implementations share: the `mem_log` entry, the outcome of a
    language-model call, the validated submission `AgentResponse` and the one attempt of
    a player's decision. */
module AgentBase {
  import opened PyBuiltins
  import opened Retry

  /** One `mem_log` tuple `(turn, sender, recipients, text)`. Sender and text are whatever
      the arbiter's JSON held. */
  datatype Entry = Entry(turn: int, sender: Json, recipients: string, text: Json)

  /** What invoking a language-model chain gave: the exception it raised, or the value its
      JSON output parser produced. */
  datatype CallOutcome = Threw(error: string) | Returned(value: Json)

  /** The calls a retry loop makes, all with the same rendered input. */
  function Calls<A>(chain: (A, nat) -> CallOutcome, input: A): nat -> CallOutcome
  {
    (i: nat) => chain(input, i)
  }

  /** What a player's chain is given: its name and history window. The turn is not part of
      the prompt; it tells apart calls made on different turns. */
  datatype PlayerPrompt = PlayerPrompt(turn: int, name: string, history: seq<Entry>)

  /** What the arbiter's chain is given: its history window and every submission. */
  datatype ArbiterPrompt = ArbiterPrompt(turn: int, history: seq<Entry>, submissions: seq<(string, AgentResponse)>)

  /** `AgentResponse` after `model_dump()`. */
  datatype AgentResponse = AgentResponse(bid: real, msg: string, to: string, reason: string)

  /** The submission of an agent whose reply was not a dict. */
  const InvalidFormat := AgentResponse(0.0, "", "ALL", "Invalid response format")

  /** The inert submission the retry loops return after the last failed attempt. */
  function Inert(reason: string): (r: AgentResponse)
    ensures r.bid == 0.0 && r.msg == "" && r.to == "ALL" && r.reason == reason
  {
    AgentResponse(0.0, "", "ALL", reason)
  }

  function Min(a: real, b: real): real { if b < a then b else a }
  function Max(a: real, b: real): real { if b > a then b else a }

  /** `max(0.0, min(1.0, b))`. */
  function Clamp(b: real): (r: real)
    ensures 0.0 <= r <= 1.0
    ensures 0.0 <= b <= 1.0 ==> r == b
    ensures b < 0.0 ==> r == 0.0
    ensures b > 1.0 ==> r == 1.0
  {
    Max(0.0, Min(1.0, b))
  }

  /** The value `from_llm_response` inspects: a string goes through the cleaner first. */
  function Loaded(response: Json, clean: string -> Json): Json
  {
    if response.JStr? then clean(response.s) else response
  }

  /** `AgentResponse.from_llm_response`: Err when `float()` raises on the bid. */
  function FromLlmResponse(response: Json, clean: string -> Json, conv: PyConv): (r: Result<AgentResponse>)
    ensures !Loaded(response, clean).JDict? ==> r == Ok(InvalidFormat)
    ensures r.Ok? ==> 0.0 <= r.value.bid <= 1.0
    ensures Loaded(response, clean).JDict? ==>
      var f := Loaded(response, clean).fields;
      (r.Err? <==> PyFloat(Get(f, "bid", JNum(0.0)), conv).None?) &&
      (r.Ok? ==>
        ("bid" !in f ==> r.value.bid == 0.0) &&
        ("msg" !in f ==> r.value.msg == "") &&
        ("to" !in f ==> r.value.to == "ALL") &&
        ("reason" !in f ==> r.value.reason == ""))
  {
    var v := Loaded(response, clean);
    if !v.JDict? then Ok(InvalidFormat)
    else
      var f := v.fields;
      match PyFloat(Get(f, "bid", JNum(0.0)), conv)
      case None => Err("could not convert bid to float")
      case Some(b) =>
        Ok(AgentResponse(Clamp(b), PyStr(Get(f, "msg", JStr("")), conv),
                         PyStr(Get(f, "to", JStr("ALL")), conv), PyStr(Get(f, "reason", JStr("")), conv)))
  }

  /** `model_dump()` as a dict. */
  function Dump(a: AgentResponse): Json
  {
    JDict(map["bid" := JNum(a.bid), "msg" := JStr(a.msg), "to" := JStr(a.to), "reason" := JStr(a.reason)])
  }

  /** Validating a dumped submission gives it back: validation loses nothing it keeps. */
  lemma FromLlmResponseOfDump(a: AgentResponse, clean: string -> Json, conv: PyConv)
    requires 0.0 <= a.bid <= 1.0
    ensures FromLlmResponse(Dump(a), clean, conv) == Ok(a)
  {
    var f := Dump(a).fields;
    assert Get(f, "bid", JNum(0.0)) == JNum(a.bid);
    assert Get(f, "msg", JStr("")) == JStr(a.msg);
    assert Get(f, "to", JStr("ALL")) == JStr(a.to);
    assert Get(f, "reason", JStr("")) == JStr(a.reason);
  }

  /** One attempt of `decide` / `bid`: a raised exception, from the chain or from the
      validator, is a failure whose fallback is the inert submission. */
  function DecideAttempt(outcome: CallOutcome, clean: string -> Json, conv: PyConv, failure: AgentResponse): Attempt<AgentResponse>
  {
    match outcome
    case Threw(_) => Failed(failure)
    case Returned(js) =>
      match FromLlmResponse(js, clean, conv)
      case Ok(a) => Done(a)
      case Err(_) => Failed(failure)
  }

  function DecideAttempts(calls: nat -> CallOutcome, clean: string -> Json, conv: PyConv, failure: AgentResponse): nat -> Attempt<AgentResponse>
  {
    (i: nat) => DecideAttempt(calls(i), clean, conv, failure)
  }

  /** Whatever the attempts give, a decision's bid lies in [0, 1], and it is the inert
      submission or the validated reply of one call. */
  lemma DecisionValid(calls: nat -> CallOutcome, clean: string -> Json, conv: PyConv, reason: string, maxRetries: int, r: AgentResponse)
    returns (k: nat)
    requires Retried(DecideAttempts(calls, clean, conv, Inert(reason)), maxRetries) == Some(r)
    ensures 0.0 <= r.bid <= 1.0
    ensures k < maxRetries
    ensures r == Inert(reason) || (calls(k).Returned? && FromLlmResponse(calls(k).value, clean, conv) == Ok(r))
  {
    var attempts := DecideAttempts(calls, clean, conv, Inert(reason));
    k := RetriedCases(attempts, maxRetries, r);
    assert attempts(k) == DecideAttempt(calls(k), clean, conv, Inert(reason));
    if calls(k).Returned? && FromLlmResponse(calls(k).value, clean, conv).Ok? {
      assert r == FromLlmResponse(calls(k).value, clean, conv).value || r == Inert(reason);
    }
  }

  /** When every call raises, a decision is the inert submission after max_retries calls. */
  lemma DecisionWhenAllThrow(calls: nat -> CallOutcome, clean: string -> Json, conv: PyConv, reason: string, maxRetries: int)
    requires maxRetries >= 1
    requires forall j :: 0 <= j < maxRetries ==> calls(j).Threw?
    ensures Retried(DecideAttempts(calls, clean, conv, Inert(reason)), maxRetries) == Some(Inert(reason))
    ensures AttemptsFrom(DecideAttempts(calls, clean, conv, Inert(reason)), 0, maxRetries) == maxRetries
  {
    var attempts := DecideAttempts(calls, clean, conv, Inert(reason));
    forall j | 0 <= j < maxRetries ensures attempts(j).Failed? {
      assert calls(j).Threw?;
    }
    RetriedExhausted(attempts, maxRetries);
  }

  /** A first call whose reply validates is the decision, after one attempt. */
  lemma DecisionFirstReply(calls: nat -> CallOutcome, clean: string -> Json, conv: PyConv, reason: string, maxRetries: int, a: AgentResponse)
    requires maxRetries >= 1
    requires calls(0).Returned? && FromLlmResponse(calls(0).value, clean, conv) == Ok(a)
    ensures Retried(DecideAttempts(calls, clean, conv, Inert(reason)), maxRetries) == Some(a)
    ensures AttemptsFrom(DecideAttempts(calls, clean, conv, Inert(reason)), 0, maxRetries) == 1
  {
    RetriedFirstSuccess(DecideAttempts(calls, clean, conv, Inert(reason)), maxRetries, 0);
  }
}
