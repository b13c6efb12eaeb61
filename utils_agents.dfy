/** utils/agents.py: the agents sdg_arena.py drives. Their cleaner comes from utils/llm.py,
    which is not part of this model, so it is a parameter `clean`. */
module UtilsAgents {
  import opened PyBuiltins
  import opened Retry
  import opened AgentBase
  import opened Arbitration

  /** The defaults of `Agent.__init__`: `max_retries = 3`, `max_history_turns = 100`. */
  const MaxRetries: int := 3
  const HistoryTurns: int := 100
  const BidFailure: string := "Error after 3 attempts"
  const GmTexts := FallbackTexts("Failed to get valid response", "GameMaster error: ")

  /** The exception the failure path of `bid` raises: `Agent.__init__` never sets `name`. */
  const NoName: string := "'Player' object has no attribute 'name'"

  /** `Player.bid` as written: the first attempt that fails reaches the warning, which reads
      `self.name` and raises, so no second attempt is ever made. */
  function BidAsWritten(name: string, memLog: seq<Entry>, turn: int, chain: (PlayerPrompt, nat) -> CallOutcome,
                        clean: string -> Json, conv: PyConv): (r: Result<AgentResponse>)
    ensures r.Ok? ==> 0.0 <= r.value.bid <= 1.0
    ensures r.Err? ==> r.msg == NoName
  {
    match chain(PlayerPrompt(turn, name, Tail(memLog, HistoryTurns)), 0)
    case Threw(_) => Err(NoName)
    case Returned(js) =>
      match FromLlmResponse(js, clean, conv)
      case Ok(a) => Ok(a)
      case Err(_) => Err(NoName)
  }

  function BidAttemptsOf(name: string, memLog: seq<Entry>, turn: int, chain: (PlayerPrompt, nat) -> CallOutcome,
                         clean: string -> Json, conv: PyConv): nat -> Attempt<AgentResponse>
  {
    DecideAttempts(Calls(chain, PlayerPrompt(turn, name, Tail(memLog, HistoryTurns))), clean, conv, Inert(BidFailure))
  }

  /** The submission the corrected `bid` returns. */
  function Bidding(name: string, memLog: seq<Entry>, turn: int, chain: (PlayerPrompt, nat) -> CallOutcome,
                   clean: string -> Json, conv: PyConv): AgentResponse
  {
    var attempts := BidAttemptsOf(name, memLog, turn, chain, clean, conv);
    RetriedNone(attempts, MaxRetries);
    Retried(attempts, MaxRetries).value
  }

  /** `Player.bid` as evidently intended: up to three attempts on the last 100 entries of
      the memory, the inert submission after the last failure. */
  method Bid(name: string, memLog: seq<Entry>, turn: int, chain: (PlayerPrompt, nat) -> CallOutcome,
             clean: string -> Json, conv: PyConv) returns (r: AgentResponse, attempts: nat)
    ensures r == Bidding(name, memLog, turn, chain, clean, conv)
    ensures 1 <= attempts <= MaxRetries
    ensures 0.0 <= r.bid <= 1.0
    ensures (forall j :: 0 <= j < MaxRetries ==> chain(PlayerPrompt(turn, name, Tail(memLog, HistoryTurns)), j).Threw?) ==>
      r == Inert(BidFailure) && attempts == MaxRetries
  {
    var calls := Calls(chain, PlayerPrompt(turn, name, Tail(memLog, HistoryTurns)));
    var tries := BidAttemptsOf(name, memLog, turn, chain, clean, conv);
    var o;
    o, attempts := RunRetry(tries, MaxRetries);
    RetriedNone(tries, MaxRetries);
    r := o.value;
    AttemptsBounded(tries, 0, MaxRetries);
    var _ := DecisionValid(calls, clean, conv, BidFailure, MaxRetries, r);
    if forall j :: 0 <= j < MaxRetries ==> calls(j).Threw? {
      DecisionWhenAllThrow(calls, clean, conv, BidFailure, MaxRetries);
    }
  }

  /** The bid as written and the corrected one agree exactly when the first attempt
      succeeds; otherwise the written one raises. */
  lemma BidAsWrittenAgrees(name: string, memLog: seq<Entry>, turn: int, chain: (PlayerPrompt, nat) -> CallOutcome,
                           clean: string -> Json, conv: PyConv)
    ensures BidAsWritten(name, memLog, turn, chain, clean, conv).Ok? <==> BidAttemptsOf(name, memLog, turn, chain, clean, conv)(0).Done?
    ensures BidAsWritten(name, memLog, turn, chain, clean, conv).Ok? ==>
      BidAsWritten(name, memLog, turn, chain, clean, conv).value == Bidding(name, memLog, turn, chain, clean, conv)
  {
    var calls := Calls(chain, PlayerPrompt(turn, name, Tail(memLog, HistoryTurns)));
    var attempts := BidAttemptsOf(name, memLog, turn, chain, clean, conv);
    assert attempts(0) == DecideAttempt(calls(0), clean, conv, Inert(BidFailure));
    if attempts(0).Done? {
      RetriedFirstSuccess(attempts, MaxRetries, 0);
    }
  }

  /** A player whose model raises on every call: the written bid raises, the corrected one
      returns the inert submission. */
  lemma BidAsWrittenRaisesOnFailure(name: string, memLog: seq<Entry>, turn: int, chain: (PlayerPrompt, nat) -> CallOutcome,
                                    clean: string -> Json, conv: PyConv)
    requires forall j :: 0 <= j < MaxRetries ==> chain(PlayerPrompt(turn, name, Tail(memLog, HistoryTurns)), j).Threw?
    ensures BidAsWritten(name, memLog, turn, chain, clean, conv) == Err(NoName)
    ensures Bidding(name, memLog, turn, chain, clean, conv) == Inert(BidFailure)
  {
    var calls := Calls(chain, PlayerPrompt(turn, name, Tail(memLog, HistoryTurns)));
    assert calls(0).Threw?;
    DecisionWhenAllThrow(calls, clean, conv, BidFailure, MaxRetries);
  }

  /** `parallel_bidding` of sdg_arena.py gathers exceptions as values: a submission that
      is the exception a bid raised. */
  predicate AnyRaised(submissions: seq<(string, Result<AgentResponse>)>)
  {
    exists i :: 0 <= i < |submissions| && submissions[i].1.Err?
  }

  function Unwrapped(submissions: seq<(string, Result<AgentResponse>)>): (r: seq<(string, AgentResponse)>)
    requires !AnyRaised(submissions)
    ensures |r| == |submissions|
    ensures forall i :: 0 <= i < |r| ==> submissions[i] == (r[i].0, Ok(r[i].1))
  {
    seq(|submissions|, i requires 0 <= i < |submissions| => (submissions[i].0, submissions[i].1.value))
  }

  function AnnounceAttemptsOf(gmLog: seq<Entry>, turn: int, submissions: seq<(string, AgentResponse)>,
                              chain: (ArbiterPrompt, nat) -> CallOutcome, clean: string -> Json): nat -> Attempt<Json>
  {
    ArbitrationAttempts(Calls(chain, ArbiterPrompt(turn, Tail(gmLog, HistoryTurns), submissions)), clean, GmTexts)
  }

  /** What `announce` returns, or the exception it raises: formatting the submissions
      (lines 121-127) calls `.get` outside the `try`, which raises on a gathered exception. */
  function Announcement(gmLog: seq<Entry>, turn: int, submissions: seq<(string, Result<AgentResponse>)>,
                        chain: (ArbiterPrompt, nat) -> CallOutcome, clean: string -> Json): Result<Json>
  {
    if AnyRaised(submissions) then Err("exception object has no attribute 'get'")
    else
      var attempts := AnnounceAttemptsOf(gmLog, turn, Unwrapped(submissions), chain, clean);
      RetriedNone(attempts, MaxRetries);
      Ok(Retried(attempts, MaxRetries).value)
  }

  /** Every announcement without a raised submission is usable, and after three failed
      attempts it selects nothing. */
  lemma AnnouncementUsable(gmLog: seq<Entry>, turn: int, submissions: seq<(string, Result<AgentResponse>)>,
                           chain: (ArbiterPrompt, nat) -> CallOutcome, clean: string -> Json)
    ensures Announcement(gmLog, turn, submissions, chain, clean).Err? <==> AnyRaised(submissions)
    ensures !AnyRaised(submissions) ==> Usable(Announcement(gmLog, turn, submissions, chain, clean).value)
    ensures !AnyRaised(submissions) ==>
      (forall j :: 0 <= j < MaxRetries ==> AnnounceAttemptsOf(gmLog, turn, Unwrapped(submissions), chain, clean)(j).Failed?) ==>
      Announcement(gmLog, turn, submissions, chain, clean).value.fields["selected_messages"] == JList([])
  {
    if !AnyRaised(submissions) {
      var subs := Unwrapped(submissions);
      var calls := Calls(chain, ArbiterPrompt(turn, Tail(gmLog, HistoryTurns), subs));
      var attempts := AnnounceAttemptsOf(gmLog, turn, subs, chain, clean);
      RetriedNone(attempts, MaxRetries);
      var _ := ArbitrationUsable(calls, clean, GmTexts, MaxRetries, Retried(attempts, MaxRetries).value);
      if forall j :: 0 <= j < MaxRetries ==> attempts(j).Failed? {
        forall j | 0 <= j < MaxRetries ensures ArbitrationAttempt(calls(j), clean, GmTexts).Failed? {
          assert attempts(j) == ArbitrationAttempt(calls(j), clean, GmTexts);
        }
        ArbitrationExhausted(calls, clean, GmTexts, MaxRetries);
      }
    }
  }

  /** `GameMaster.announce`: format every submission, then up to three attempts of the
      arbiter's chain on the last 100 entries of its memory. */
  method Announce(gmLog: seq<Entry>, turn: int, submissions: seq<(string, Result<AgentResponse>)>,
                  chain: (ArbiterPrompt, nat) -> CallOutcome, clean: string -> Json) returns (r: Result<Json>)
    ensures r == Announcement(gmLog, turn, submissions, chain, clean)
  {
    var subs: seq<(string, AgentResponse)> := [];
    var i := 0;
    while i < |submissions|
      invariant 0 <= i <= |submissions| && |subs| == i
      invariant forall k :: 0 <= k < i ==> submissions[k] == (subs[k].0, Ok(subs[k].1))
    {
      if submissions[i].1.Err? {
        return Err("exception object has no attribute 'get'");
      }
      subs := subs + [(submissions[i].0, submissions[i].1.value)];
      i := i + 1;
    }
    assert subs == Unwrapped(submissions);
    var tries := AnnounceAttemptsOf(gmLog, turn, subs, chain, clean);
    var o, _ := RunRetry(tries, MaxRetries);
    RetriedNone(tries, MaxRetries);
    r := Ok(o.value);
  }
}
