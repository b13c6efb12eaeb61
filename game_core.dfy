/** game_core.py: the turn loop over the agents of agents.py. Every selected message,
    whoever it is addressed to, is appended to every memory. */
module GameCore {
  import opened PyBuiltins
  import opened AgentBase
  import opened Arbitration
  import opened Retry
  import Agents

  /** The `ValueError` of a `ThreadPoolExecutor` asked for no workers. */
  const NoWorkers: string := "max_workers must be greater than 0"

  /** `parallel_bidding`: every player's decision, one per name in player order; with no
      players the executor itself raises (line 23). */
  method ParallelBidding(names: seq<string>, players: map<string, seq<Entry>>, turn: int,
                         chain: (PlayerPrompt, nat) -> CallOutcome, parse: string -> Option<Json>, conv: PyConv)
    returns (r: Result<seq<(string, AgentResponse)>>)
    requires forall i :: 0 <= i < |names| ==> names[i] in players
    ensures r.Err? <==> names == []
    ensures r.Err? ==> r.msg == NoWorkers
    ensures r.Ok? ==> |r.value| == |names|
    ensures r.Ok? ==> forall i :: 0 <= i < |names| ==> r.value[i] == (names[i], Agents.Decision(names[i], players[names[i]], turn, chain, parse, conv))
    ensures r.Ok? ==> forall i :: 0 <= i < |r.value| ==> 0.0 <= r.value[i].1.bid <= 1.0
  {
    if names == [] {
      return Err(NoWorkers);
    }
    var pkgs := [];
    var i := 0;
    while i < |names|
      invariant 0 <= i <= |names| && |pkgs| == i
      invariant forall k :: 0 <= k < i ==> pkgs[k] == (names[k], Agents.Decision(names[k], players[names[k]], turn, chain, parse, conv))
      invariant forall k :: 0 <= k < i ==> 0.0 <= pkgs[k].1.bid <= 1.0
    {
      var decision, _ := Agents.Decide(names[i], players[names[i]], turn, chain, parse, conv);
      pkgs := pkgs + [(names[i], decision)];
      i := i + 1;
    }
    r := Ok(pkgs);
  }

  /** The submissions of one turn when every player remembers `memLog`: each player's
      decision, in player order. */
  function Bids(names: seq<string>, memLog: seq<Entry>, turn: int, chain: (PlayerPrompt, nat) -> CallOutcome,
                parse: string -> Option<Json>, conv: PyConv): seq<(string, AgentResponse)>
  {
    seq(|names|, i requires 0 <= i < |names| => (names[i], Agents.Decision(names[i], memLog, turn, chain, parse, conv)))
  }

  /** The arbiter's reply in one turn: `process_turn_with_all_submissions` on that turn's
      bids, with the arbiter remembering `memLog` too. */
  function TurnReply(names: seq<string>, memLog: seq<Entry>, turn: int, playerChain: (PlayerPrompt, nat) -> CallOutcome,
                     gmChain: (ArbiterPrompt, nat) -> CallOutcome, parse: string -> Option<Json>, conv: PyConv): Json
  {
    var attempts := Agents.ArbitrationOf(memLog, turn, Bids(names, memLog, turn, playerChain, parse, conv), gmChain, parse);
    RetriedNone(attempts, Agents.MaxRetries);
    Retried(attempts, Agents.MaxRetries).value
  }

  lemma TurnReplyUsable(names: seq<string>, memLog: seq<Entry>, turn: int, playerChain: (PlayerPrompt, nat) -> CallOutcome,
                        gmChain: (ArbiterPrompt, nat) -> CallOutcome, parse: string -> Option<Json>, conv: PyConv)
    ensures Usable(TurnReply(names, memLog, turn, playerChain, gmChain, parse, conv))
  {
    var subs := Bids(names, memLog, turn, playerChain, parse, conv);
    var attempts := Agents.ArbitrationOf(memLog, turn, subs, gmChain, parse);
    RetriedNone(attempts, Agents.MaxRetries);
    var calls := Calls(gmChain, ArbiterPrompt(turn, Tail(memLog, Agents.HistoryTurns), subs));
    var _ := ArbitrationUsable(calls, Agents.Cleaner(parse), Agents.SystemTexts, Agents.MaxRetries, Retried(attempts, Agents.MaxRetries).value);
  }

  /** `",".join(to)` for a list, `str(to)` otherwise; `join` raises TypeError on an item
      that is not a string. */
  function RecipientsText(to: Json, conv: PyConv): (r: Result<string>)
    ensures r.Err? <==> to.JList? && !AllStr(to.items)
    ensures !to.JList? ==> r == Ok(PyStr(to, conv))
  {
    if to.JList? then
      if AllStr(to.items) then Ok(Join(StrsOf(to.items), ',')) else Err("sequence item: expected str instance")
    else Ok(PyStr(to, conv))
  }

  /** The recipient text of a normalised `to` splits back into the recipients the
      arbiter named; a public message is recorded as `"ALL"`. */
  lemma RecipientsTextOfNormalised(to: string, conv: PyConv)
    ensures RecipientsText(NormaliseTo(JStr(to)), conv).Ok?
    ensures to == "ALL" ==> RecipientsText(NormaliseTo(JStr(to)), conv) == Ok("ALL")
    ensures to != "ALL" ==> JList(Strs(Split(RecipientsText(NormaliseTo(JStr(to)), conv).value, ','))) == NormaliseTo(JStr(to))
  {
    if to != "ALL" {
      var items := RecipientList(to);
      var names := StrsOf(items);
      assert forall i :: 0 <= i < |names| ==> ',' !in names[i];
      SplitJoin(names, ',');
      assert Strs(names) == items;
    }
  }

  /** What `run_game` returns: its summary, or the failure dict (success False, no winner,
      game not completed, turn count 0) when it raised. */
  datatype Summary =
    | Summary(completed: bool, winner: Json, turnCount: int, maxTurnsReached: bool, totalMessages: nat)
    | GameFailed(error: string)

  /** Entries of a log whose sender is not `"SYSTEM"`. */
  function NonSystem(log: seq<Entry>): (n: nat)
    ensures n <= |log|
    ensures n == |log| <==> forall i :: 0 <= i < |log| ==> log[i].sender != JStr("SYSTEM")
  {
    if log == [] then 0
    else NonSystem(log[..|log| - 1]) + (if log[|log| - 1].sender != JStr("SYSTEM") then 1 else 0)
  }

  /** Lines 130-145: the game counts as completed whenever the last winner is not None,
      even a falsy one that did not stop the loop, and `max_turns_reached` is its negation. */
  function Summarise(turn: int, winner: Json, gm: seq<Entry>): (r: Summary)
    ensures r.Summary? && r.turnCount == turn && r.winner == winner && r.totalMessages == NonSystem(gm)
    ensures r.completed <==> winner != JNull
    ensures r.maxTurnsReached <==> !r.completed
  {
    Summary(winner != JNull, winner, turn, winner == JNull, NonSystem(gm))
  }

  /** The memories of one game: each player's `mem_log` by name and the arbiter's. */
  class Table {
    const names: seq<string>
    var players: map<string, seq<Entry>>
    var gm: seq<Entry>

    ghost predicate Valid()
      reads this
    {
      Distinct(names) && players.Keys == set n | n in names
    }

    /** No visibility filtering: every player remembers exactly what the arbiter does. */
    ghost predicate Shared()
      reads this
    {
      forall p :: p in players ==> players[p] == gm
    }

    constructor (names: seq<string>)
      requires Distinct(names)
      ensures Valid() && Shared() && this.names == names && gm == []
    {
      this.names := names;
      players := map n | n in names :: [];
      gm := [];
    }

    /** Lines 119-121: the same tuple goes to every player's log, then to the arbiter's. */
    method Record(e: Entry)
      requires Valid()
      modifies this
      ensures Valid()
      ensures players.Keys == old(players).Keys && forall p :: p in players ==> players[p] == old(players)[p] + [e]
      ensures gm == old(gm) + [e]
    {
      var i := 0;
      while i < |names|
        invariant 0 <= i <= |names|
        invariant players.Keys == old(players).Keys && gm == old(gm)
        invariant forall k :: 0 <= k < i ==> players[names[k]] == old(players)[names[k]] + [e]
        invariant forall k :: i <= k < |names| ==> players[names[k]] == old(players)[names[k]]
      {
        players := players[names[i] := players[names[i]] + [e]];
        i := i + 1;
      }
      forall p | p in players
        ensures players[p] == old(players)[p] + [e]
      {
        var k :| 0 <= k < |names| && names[k] == p;
      }
      gm := gm + [e];
    }
  }

  /** Lines 109-121 for one selected message: record it with its recipient text, or fail. */
  method Execute(table: Table, turn: int, m: Json, conv: PyConv) returns (ok: bool)
    requires table.Valid() && Normalised(m)
    modifies table
    ensures table.Valid()
    ensures ok <==> RecipientsText(m.fields["to"], conv).Ok?
    ensures !ok ==> table.players == old(table.players) && table.gm == old(table.gm)
    ensures ok ==> var e := Entry(turn, m.fields["speaker"], RecipientsText(m.fields["to"], conv).value, m.fields["message"]);
      table.gm == old(table.gm) + [e] && table.players.Keys == old(table.players).Keys &&
      forall p :: p in table.players ==> table.players[p] == old(table.players)[p] + [e]
  {
    var rs := RecipientsText(m.fields["to"], conv);
    if rs.Err? {
      return false;
    }
    table.Record(Entry(turn, m.fields["speaker"], rs.value, m.fields["message"]));
    return true;
  }

  /** The arbiter's memory after lines 109-121 for one turn's selected messages in order,
      and whether every `join` succeeded (false: the first that raised ends the game). */
  datatype Recording = Recording(gm: seq<Entry>, ok: bool)

  function Recorded(gm: seq<Entry>, turn: int, ms: seq<Json>, conv: PyConv): Recording
    requires forall i :: 0 <= i < |ms| ==> Normalised(ms[i])
    decreases |ms|
  {
    if ms == [] then Recording(gm, true)
    else
      assert Normalised(ms[0]);
      match RecipientsText(ms[0].fields["to"], conv)
      case Err(_) => Recording(gm, false)
      case Ok(text) => Recorded(gm + [Entry(turn, ms[0].fields["speaker"], text, ms[0].fields["message"])], turn, ms[1..], conv)
  }

  /** Lines 109-121: every selected message in order, stopping at the first that raises;
      every player keeps remembering what the arbiter does. */
  method ExecuteAll(table: Table, turn: int, ms: seq<Json>, conv: PyConv) returns (ok: bool)
    requires table.Valid() && table.Shared() && forall i :: 0 <= i < |ms| ==> Normalised(ms[i])
    modifies table
    ensures table.Valid() && table.Shared()
    ensures Recording(table.gm, ok) == Recorded(old(table.gm), turn, ms, conv)
  {
    var k := 0;
    while k < |ms|
      invariant 0 <= k <= |ms|
      invariant table.Valid() && table.Shared()
      invariant Recorded(table.gm, turn, ms[k..], conv) == Recorded(old(table.gm), turn, ms, conv)
    {
      assert ms[k..][1..] == ms[k + 1..];
      ok := Execute(table, turn, ms[k], conv);
      if !ok {
        return;
      }
      k := k + 1;
    }
    return true;
  }

  /** The `UnboundLocalError` of `turn` when the loop body never ran (`max_turns < 1`);
      the text is a placeholder for the exception's message. */
  const Unbound: string := "name 'turn' is not defined"

  /** Lines 97-150 from turn `turn` on, every memory holding `gm`: the players bid, the
      arbiter replies, its selected messages are recorded, and the loop stops after a
      turn whose `winner` is truthy or after turn `max_turns`. Without players the first
      bidding raises. */
  function Play(names: seq<string>, gm: seq<Entry>, turn: int, maxTurns: int, playerChain: (PlayerPrompt, nat) -> CallOutcome,
                gmChain: (ArbiterPrompt, nat) -> CallOutcome, parse: string -> Option<Json>, conv: PyConv): (Summary, seq<Entry>)
    requires 1 <= turn <= maxTurns
    decreases maxTurns - turn
  {
    if names == [] then (GameFailed(NoWorkers), gm)
    else
    var reply := TurnReply(names, gm, turn, playerChain, gmChain, parse, conv);
    TurnReplyUsable(names, gm, turn, playerChain, gmChain, parse, conv);
    var rec := Recorded(gm, turn, reply.fields["selected_messages"].items, conv);
    var winner := Get(reply.fields, "winner", JNull);
    if !rec.ok then (GameFailed("sequence item: expected str instance"), rec.gm)
    else if Truthy(winner) || turn == maxTurns then (Summarise(turn, winner, rec.gm), rec.gm)
    else Play(names, rec.gm, turn + 1, maxTurns, playerChain, gmChain, parse, conv)
  }

  /** `run_game` from empty memories: its result and the memory every agent ends with. */
  function Played(names: seq<string>, maxTurns: int, playerChain: (PlayerPrompt, nat) -> CallOutcome,
                  gmChain: (ArbiterPrompt, nat) -> CallOutcome, parse: string -> Option<Json>, conv: PyConv): (Summary, seq<Entry>)
  {
    if maxTurns < 1 then (GameFailed(Unbound), [])
    else Play(names, [], 1, maxTurns, playerChain, gmChain, parse, conv)
  }

  /** Whatever the replies: a summary is that of its last turn, at most `max_turns` turns
      ran, and a game that stopped early had a truthy winner; a failure is the executor's
      when there are no players and a `join` that raised otherwise. */
  lemma {:induction false} PlayShape(names: seq<string>, gm: seq<Entry>, turn: int, maxTurns: int,
                                     playerChain: (PlayerPrompt, nat) -> CallOutcome, gmChain: (ArbiterPrompt, nat) -> CallOutcome,
                                     parse: string -> Option<Json>, conv: PyConv)
    requires 1 <= turn <= maxTurns
    ensures var (r, final) := Play(names, gm, turn, maxTurns, playerChain, gmChain, parse, conv);
      (r.Summary? ==> r == Summarise(r.turnCount, r.winner, final) && turn <= r.turnCount <= maxTurns) &&
      (r.Summary? && r.turnCount < maxTurns ==> Truthy(r.winner)) &&
      (names == [] ==> r == GameFailed(NoWorkers) && final == gm) &&
      (names != [] && r.GameFailed? ==> r == GameFailed("sequence item: expected str instance"))
    decreases maxTurns - turn
  {
    if names != [] {
      var reply := TurnReply(names, gm, turn, playerChain, gmChain, parse, conv);
      TurnReplyUsable(names, gm, turn, playerChain, gmChain, parse, conv);
      var rec := Recorded(gm, turn, reply.fields["selected_messages"].items, conv);
      if rec.ok && !Truthy(Get(reply.fields, "winner", JNull)) && turn < maxTurns {
        PlayShape(names, rec.gm, turn + 1, maxTurns, playerChain, gmChain, parse, conv);
      }
    }
  }

  /** A turn whose arbiter calls all raise: the fallback reply selects nothing and has no
      `winner`. */
  lemma SilentTurn(names: seq<string>, gm: seq<Entry>, turn: int, playerChain: (PlayerPrompt, nat) -> CallOutcome,
                   gmChain: (ArbiterPrompt, nat) -> CallOutcome, parse: string -> Option<Json>, conv: PyConv)
    requires forall p, j :: gmChain(p, j).Threw?
    ensures var reply := TurnReply(names, gm, turn, playerChain, gmChain, parse, conv);
      reply.JDict? && "selected_messages" in reply.fields && reply.fields["selected_messages"] == JList([]) &&
      "winner" !in reply.fields
  {
    var subs := Bids(names, gm, turn, playerChain, parse, conv);
    var calls := Calls(gmChain, ArbiterPrompt(turn, Tail(gm, Agents.HistoryTurns), subs));
    forall j | 0 <= j < Agents.MaxRetries ensures ArbitrationAttempt(calls(j), Agents.Cleaner(parse), Agents.SystemTexts).Failed? {
      assert gmChain(ArbiterPrompt(turn, Tail(gm, Agents.HistoryTurns), subs), j).Threw?;
    }
    ArbitrationExhausted(calls, Agents.Cleaner(parse), Agents.SystemTexts, Agents.MaxRetries);
  }

  /** An arbiter whose every call raises selects nothing and names no winner: with players,
      every turn up to `max_turns` runs, nothing is recorded, and the game is not completed. */
  lemma {:induction false} PlayWithSilentArbiter(names: seq<string>, gm: seq<Entry>, turn: int, maxTurns: int,
                                                 playerChain: (PlayerPrompt, nat) -> CallOutcome, gmChain: (ArbiterPrompt, nat) -> CallOutcome,
                                                 parse: string -> Option<Json>, conv: PyConv)
    requires 1 <= turn <= maxTurns
    requires forall p, j :: gmChain(p, j).Threw?
    ensures Play(names, gm, turn, maxTurns, playerChain, gmChain, parse, conv)
      == if names == [] then (GameFailed(NoWorkers), gm) else (Summarise(maxTurns, JNull, gm), gm)
    decreases maxTurns - turn
  {
    if names != [] {
      SilentTurn(names, gm, turn, playerChain, gmChain, parse, conv);
      assert Recorded(gm, turn, [], conv) == Recording(gm, true);
      if turn < maxTurns {
        PlayWithSilentArbiter(names, gm, turn + 1, maxTurns, playerChain, gmChain, parse, conv);
      }
    }
  }

  /** Lines 97-150: turns 1 to `max_turns`, stopping after the first turn whose `winner`
      is truthy; the result and the memories are those of `Played`. */
  method RunGame(names: seq<string>, maxTurns: int, playerChain: (PlayerPrompt, nat) -> CallOutcome,
                 gmChain: (ArbiterPrompt, nat) -> CallOutcome, parse: string -> Option<Json>, conv: PyConv)
    returns (r: Summary, table: Table)
    requires Distinct(names)
    ensures fresh(table) && table.Valid() && table.names == names && table.Shared()
    ensures (r, table.gm) == Played(names, maxTurns, playerChain, gmChain, parse, conv)
    ensures maxTurns < 1 ==> r == GameFailed(Unbound)
    ensures 1 <= maxTurns && names == [] ==> r == GameFailed(NoWorkers)
    ensures r.Summary? ==> r == Summarise(r.turnCount, r.winner, table.gm)
    ensures r.Summary? ==> 1 <= r.turnCount <= maxTurns
    ensures r.Summary? && r.turnCount < maxTurns ==> Truthy(r.winner)
  {
    table := new Table(names);
    if maxTurns < 1 {
      return GameFailed(Unbound), table;
    }
    PlayShape(names, [], 1, maxTurns, playerChain, gmChain, parse, conv);
    ghost var target := Played(names, maxTurns, playerChain, gmChain, parse, conv);
    var turn := 1;
    var winner := JNull;
    var stop := false;
    while !stop
      invariant table.Valid() && table.names == names && table.Shared()
      invariant 1 <= turn <= maxTurns
      invariant !stop ==> Play(names, table.gm, turn, maxTurns, playerChain, gmChain, parse, conv) == target
      invariant stop ==> (Summarise(turn, winner, table.gm), table.gm) == target
      decreases maxTurns - turn, if stop then 0 else 1
    {
      ghost var before := table.gm;
      var bidding := ParallelBidding(names, table.players, turn, playerChain, parse, conv);
      if bidding.Err? {
        return GameFailed(bidding.msg), table;
      }
      var pkgs := bidding.value;
      assert pkgs == Bids(names, before, turn, playerChain, parse, conv);
      var response := Agents.ProcessTurnWithAllSubmissions(table.gm, turn, pkgs, gmChain, parse);
      var ok := ExecuteAll(table, turn, response.fields["selected_messages"].items, conv);
      if !ok {
        return GameFailed("sequence item: expected str instance"), table;
      }
      winner := Get(response.fields, "winner", JNull);
      if Truthy(winner) || turn == maxTurns {
        stop := true;
      } else {
        turn := turn + 1;
      }
    }
    r := Summarise(turn, winner, table.gm);
  }
}
