/** agents.py: the agents game_core.py drives. They clean replies with the cleaner of
    llm_utils.py and take their limits from config.py. */
module Agents {
  import opened PyBuiltins
  import opened Retry
  import opened AgentBase
  import opened Arbitration
  import LlmUtils

  /** `MAX_RETRIES` and `MAX_HISTORY_TURNS` (config.py:19-20). */
  const MaxRetries: int := 3
  const HistoryTurns: int := 30
  const DecideFailure: string := "Error after 3 attempts"
  const SystemTexts := FallbackTexts("Failed to get valid response", "System error: ")

  /** `clean_json_response` of llm_utils.py, on a string. */
  function Cleaner(parse: string -> Option<Json>): string -> Json
  {
    s => LlmUtils.CleanJsonResponse(JStr(s), parse)
  }

  /** `AgentResponse.from_llm_response` with the llm_utils.py cleaner. */
  function FromLlmResponse(response: Json, parse: string -> Option<Json>, conv: PyConv): (r: Result<AgentResponse>)
    ensures r.Ok? ==> 0.0 <= r.value.bid <= 1.0
    ensures response.JList? || response.JNum? || response.JNull? || response.JBool? ==> r == Ok(InvalidFormat)
    ensures response.JStr? && LlmUtils.CleanJsonResponse(response, parse) == JDict(map[]) ==> r == Ok(Inert(""))
  {
    AgentBase.FromLlmResponse(response, Cleaner(parse), conv)
  }

  function DecideAttemptsOf(name: string, memLog: seq<Entry>, turn: int, chain: (PlayerPrompt, nat) -> CallOutcome,
                            parse: string -> Option<Json>, conv: PyConv): nat -> Attempt<AgentResponse>
  {
    DecideAttempts(Calls(chain, PlayerPrompt(turn, name, Tail(memLog, HistoryTurns))), Cleaner(parse), conv, Inert(DecideFailure))
  }

  /** The submission `decide` returns. */
  function Decision(name: string, memLog: seq<Entry>, turn: int, chain: (PlayerPrompt, nat) -> CallOutcome,
                    parse: string -> Option<Json>, conv: PyConv): AgentResponse
  {
    var attempts := DecideAttemptsOf(name, memLog, turn, chain, parse, conv);
    RetriedNone(attempts, MaxRetries);
    Retried(attempts, MaxRetries).value
  }

  /** `Agent.decide` / `decide_async`: at most three calls on the last 30 entries of the
      agent's memory; the bid is in [0, 1], and the inert submission comes back when every
      call raises. */
  method Decide(name: string, memLog: seq<Entry>, turn: int, chain: (PlayerPrompt, nat) -> CallOutcome,
                parse: string -> Option<Json>, conv: PyConv) returns (r: AgentResponse, attempts: nat)
    ensures r == Decision(name, memLog, turn, chain, parse, conv)
    ensures 1 <= attempts <= MaxRetries
    ensures 0.0 <= r.bid <= 1.0
    ensures (forall j :: 0 <= j < MaxRetries ==> chain(PlayerPrompt(turn, name, Tail(memLog, HistoryTurns)), j).Threw?) ==>
      r == Inert(DecideFailure) && attempts == MaxRetries
  {
    var calls := Calls(chain, PlayerPrompt(turn, name, Tail(memLog, HistoryTurns)));
    var tries := DecideAttemptsOf(name, memLog, turn, chain, parse, conv);
    var o;
    o, attempts := RunRetry(tries, MaxRetries);
    RetriedNone(tries, MaxRetries);
    r := o.value;
    AttemptsBounded(tries, 0, MaxRetries);
    var _ := DecisionValid(calls, Cleaner(parse), conv, DecideFailure, MaxRetries, r);
    if forall j :: 0 <= j < MaxRetries ==> calls(j).Threw? {
      DecisionWhenAllThrow(calls, Cleaner(parse), conv, DecideFailure, MaxRetries);
    }
  }

  function ArbitrationOf(gmLog: seq<Entry>, turn: int, submissions: seq<(string, AgentResponse)>,
                         chain: (ArbiterPrompt, nat) -> CallOutcome, parse: string -> Option<Json>): nat -> Attempt<Json>
  {
    ArbitrationAttempts(Calls(chain, ArbiterPrompt(turn, Tail(gmLog, HistoryTurns), submissions)), Cleaner(parse), SystemTexts)
  }

  /** `GameSystem.process_turn_with_all_submissions`: a usable reply (every selected
      message normalised), which after three failed attempts selects nothing. */
  method ProcessTurnWithAllSubmissions(gmLog: seq<Entry>, turn: int, submissions: seq<(string, AgentResponse)>,
                                       chain: (ArbiterPrompt, nat) -> CallOutcome, parse: string -> Option<Json>)
    returns (r: Json)
    ensures Some(r) == Retried(ArbitrationOf(gmLog, turn, submissions, chain, parse), MaxRetries)
    ensures Usable(r)
    ensures (forall j :: 0 <= j < MaxRetries ==> ArbitrationOf(gmLog, turn, submissions, chain, parse)(j).Failed?) ==>
      r.fields["selected_messages"] == JList([])
  {
    var tries := ArbitrationOf(gmLog, turn, submissions, chain, parse);
    var o, _ := RunRetry(tries, MaxRetries);
    RetriedNone(tries, MaxRetries);
    r := o.value;
    var calls := Calls(chain, ArbiterPrompt(turn, Tail(gmLog, HistoryTurns), submissions));
    var _ := ArbitrationUsable(calls, Cleaner(parse), SystemTexts, MaxRetries, r);
    if forall j :: 0 <= j < MaxRetries ==> tries(j).Failed? {
      forall j | 0 <= j < MaxRetries ensures ArbitrationAttempt(calls(j), Cleaner(parse), SystemTexts).Failed? {
        assert tries(j) == ArbitrationAttempt(calls(j), Cleaner(parse), SystemTexts);
      }
      ArbitrationExhausted(calls, Cleaner(parse), SystemTexts, MaxRetries);
    }
  }
}
