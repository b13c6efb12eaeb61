/** sdg_arena.py: the turn loop over the agents of utils/agents.py, with the same
    record-everything distribution as game_core.py. */
module SdgArena {
  import opened PyBuiltins
  import opened AgentBase
  import opened Arbitration
  import UtilsAgents
  import GameCore

  /** `parallel_bidding`: `asyncio.gather(..., return_exceptions=True)` zipped with the
      names, so a raised exception is a value in the result. With the corrected bid no
      player raises. */
  method ParallelBidding(names: seq<string>, players: map<string, seq<Entry>>, turn: int,
                         chain: (PlayerPrompt, nat) -> CallOutcome, clean: string -> Json, conv: PyConv)
    returns (submissions: seq<(string, Result<AgentResponse>)>)
    requires forall i :: 0 <= i < |names| ==> names[i] in players
    ensures |submissions| == |names|
    ensures forall i :: 0 <= i < |names| ==>
      submissions[i] == (names[i], Ok(UtilsAgents.Bidding(names[i], players[names[i]], turn, chain, clean, conv)))
    ensures !UtilsAgents.AnyRaised(submissions)
  {
    submissions := [];
    var i := 0;
    while i < |names|
      invariant 0 <= i <= |names| && |submissions| == i
      invariant forall k :: 0 <= k < i ==>
        submissions[k] == (names[k], Ok(UtilsAgents.Bidding(names[k], players[names[k]], turn, chain, clean, conv)))
    {
      var bid, _ := UtilsAgents.Bid(names[i], players[names[i]], turn, chain, clean, conv);
      submissions := submissions + [(names[i], Ok(bid))];
      i := i + 1;
    }
  }

  /** The submissions of one turn when every player remembers `memLog`: each corrected
      bid, in player order. */
  function Submissions(names: seq<string>, memLog: seq<Entry>, turn: int, chain: (PlayerPrompt, nat) -> CallOutcome,
                       clean: string -> Json, conv: PyConv): (r: seq<(string, Result<AgentResponse>)>)
    ensures !UtilsAgents.AnyRaised(r)
  {
    seq(|names|, i requires 0 <= i < |names| => (names[i], Ok(UtilsAgents.Bidding(names[i], memLog, turn, chain, clean, conv))))
  }

  /** The game master's reply in one turn: `announce` on that turn's bids, with the game
      master remembering `memLog` too. */
  function TurnReply(names: seq<string>, memLog: seq<Entry>, turn: int, playerChain: (PlayerPrompt, nat) -> CallOutcome,
                     gmChain: (ArbiterPrompt, nat) -> CallOutcome, clean: string -> Json, conv: PyConv): Json
  {
    var subs := Submissions(names, memLog, turn, playerChain, clean, conv);
    UtilsAgents.AnnouncementUsable(memLog, turn, subs, gmChain, clean);
    UtilsAgents.Announcement(memLog, turn, subs, gmChain, clean).value
  }

  lemma TurnReplyUsable(names: seq<string>, memLog: seq<Entry>, turn: int, playerChain: (PlayerPrompt, nat) -> CallOutcome,
                        gmChain: (ArbiterPrompt, nat) -> CallOutcome, clean: string -> Json, conv: PyConv)
    ensures Usable(TurnReply(names, memLog, turn, playerChain, gmChain, clean, conv))
  {
    UtilsAgents.AnnouncementUsable(memLog, turn, Submissions(names, memLog, turn, playerChain, clean, conv), gmChain, clean);
  }

  /** Lines 78-131 from turn `turn` on, every memory holding `gm`: the players bid, the
      game master announces, its selected messages are recorded, and the loop stops after
      a turn whose `winner` is truthy or after turn `max_turns`. */
  function Play(names: seq<string>, gm: seq<Entry>, turn: int, maxTurns: int, playerChain: (PlayerPrompt, nat) -> CallOutcome,
                gmChain: (ArbiterPrompt, nat) -> CallOutcome, clean: string -> Json, conv: PyConv): (GameCore.Summary, seq<Entry>)
    requires 1 <= turn <= maxTurns
    decreases maxTurns - turn
  {
    var reply := TurnReply(names, gm, turn, playerChain, gmChain, clean, conv);
    TurnReplyUsable(names, gm, turn, playerChain, gmChain, clean, conv);
    var rec := GameCore.Recorded(gm, turn, reply.fields["selected_messages"].items, conv);
    var winner := Get(reply.fields, "winner", JNull);
    if !rec.ok then (GameCore.GameFailed("sequence item: expected str instance"), rec.gm)
    else if Truthy(winner) || turn == maxTurns then (GameCore.Summarise(turn, winner, rec.gm), rec.gm)
    else Play(names, rec.gm, turn + 1, maxTurns, playerChain, gmChain, clean, conv)
  }

  /** `run_game` from empty memories: its result and the memory every agent ends with. */
  function Played(names: seq<string>, maxTurns: int, playerChain: (PlayerPrompt, nat) -> CallOutcome,
                  gmChain: (ArbiterPrompt, nat) -> CallOutcome, clean: string -> Json, conv: PyConv): (GameCore.Summary, seq<Entry>)
  {
    if maxTurns < 1 then (GameCore.GameFailed(GameCore.Unbound), [])
    else Play(names, [], 1, maxTurns, playerChain, gmChain, clean, conv)
  }

  /** Whatever the replies: a summary is that of its last turn, at most `max_turns` turns
      ran, and a game that stopped early had a truthy winner. */
  lemma {:induction false} PlayShape(names: seq<string>, gm: seq<Entry>, turn: int, maxTurns: int,
                                     playerChain: (PlayerPrompt, nat) -> CallOutcome, gmChain: (ArbiterPrompt, nat) -> CallOutcome,
                                     clean: string -> Json, conv: PyConv)
    requires 1 <= turn <= maxTurns
    ensures var (r, final) := Play(names, gm, turn, maxTurns, playerChain, gmChain, clean, conv);
      (r.Summary? ==> r == GameCore.Summarise(r.turnCount, r.winner, final) && turn <= r.turnCount <= maxTurns) &&
      (r.Summary? && r.turnCount < maxTurns ==> Truthy(r.winner)) &&
      (r.GameFailed? ==> r == GameCore.GameFailed("sequence item: expected str instance"))
    decreases maxTurns - turn
  {
    var reply := TurnReply(names, gm, turn, playerChain, gmChain, clean, conv);
    TurnReplyUsable(names, gm, turn, playerChain, gmChain, clean, conv);
    var rec := GameCore.Recorded(gm, turn, reply.fields["selected_messages"].items, conv);
    if rec.ok && !Truthy(Get(reply.fields, "winner", JNull)) && turn < maxTurns {
      PlayShape(names, rec.gm, turn + 1, maxTurns, playerChain, gmChain, clean, conv);
    }
  }

  /** A turn whose game master calls all raise: the fallback reply selects nothing and has
      no `winner`. */
  lemma SilentTurn(names: seq<string>, gm: seq<Entry>, turn: int, playerChain: (PlayerPrompt, nat) -> CallOutcome,
                   gmChain: (ArbiterPrompt, nat) -> CallOutcome, clean: string -> Json, conv: PyConv)
    requires forall p, j :: gmChain(p, j).Threw?
    ensures var reply := TurnReply(names, gm, turn, playerChain, gmChain, clean, conv);
      reply.JDict? && "selected_messages" in reply.fields && reply.fields["selected_messages"] == JList([]) &&
      "winner" !in reply.fields
  {
    var subs := UtilsAgents.Unwrapped(Submissions(names, gm, turn, playerChain, clean, conv));
    var calls := Calls(gmChain, ArbiterPrompt(turn, Tail(gm, UtilsAgents.HistoryTurns), subs));
    forall j | 0 <= j < UtilsAgents.MaxRetries ensures ArbitrationAttempt(calls(j), clean, UtilsAgents.GmTexts).Failed? {
      assert gmChain(ArbiterPrompt(turn, Tail(gm, UtilsAgents.HistoryTurns), subs), j).Threw?;
    }
    ArbitrationExhausted(calls, clean, UtilsAgents.GmTexts, UtilsAgents.MaxRetries);
  }

  /** A game master whose every call raises selects nothing and names no winner: every
      turn up to `max_turns` runs, nothing is recorded, and the game is not completed. */
  lemma {:induction false} PlayWithSilentMaster(names: seq<string>, gm: seq<Entry>, turn: int, maxTurns: int,
                                                playerChain: (PlayerPrompt, nat) -> CallOutcome, gmChain: (ArbiterPrompt, nat) -> CallOutcome,
                                                clean: string -> Json, conv: PyConv)
    requires 1 <= turn <= maxTurns
    requires forall p, j :: gmChain(p, j).Threw?
    ensures Play(names, gm, turn, maxTurns, playerChain, gmChain, clean, conv) == (GameCore.Summarise(maxTurns, JNull, gm), gm)
    decreases maxTurns - turn
  {
    SilentTurn(names, gm, turn, playerChain, gmChain, clean, conv);
    assert GameCore.Recorded(gm, turn, [], conv) == GameCore.Recording(gm, true);
    if turn < maxTurns {
      PlayWithSilentMaster(names, gm, turn + 1, maxTurns, playerChain, gmChain, clean, conv);
    }
  }

  /** The submissions gathered when every player bids as written. */
  function AsWrittenSubmissions(names: seq<string>, players: map<string, seq<Entry>>, turn: int,
                                chain: (PlayerPrompt, nat) -> CallOutcome, clean: string -> Json, conv: PyConv)
    : (r: seq<(string, Result<AgentResponse>)>)
    requires forall i :: 0 <= i < |names| ==> names[i] in players
    ensures |r| == |names|
    ensures forall i :: 0 <= i < |names| ==> r[i] == (names[i], UtilsAgents.BidAsWritten(names[i], players[names[i]], turn, chain, clean, conv))
  {
    seq(|names|, i requires 0 <= i < |names| => (names[i], UtilsAgents.BidAsWritten(names[i], players[names[i]], turn, chain, clean, conv)))
  }

  /** With the bid as written, one player whose first call fails makes `announce` raise,
      which ends the whole game with the failure summary; with every first call succeeding
      the turn is the corrected one. */
  lemma AsWrittenBidsAnnouncement(names: seq<string>, players: map<string, seq<Entry>>, turn: int,
                                  chain: (PlayerPrompt, nat) -> CallOutcome, gmLog: seq<Entry>,
                                  gmChain: (ArbiterPrompt, nat) -> CallOutcome, clean: string -> Json, conv: PyConv)
    requires forall i :: 0 <= i < |names| ==> names[i] in players
    ensures var subs := AsWrittenSubmissions(names, players, turn, chain, clean, conv);
      UtilsAgents.Announcement(gmLog, turn, subs, gmChain, clean).Err? <==>
      exists i :: 0 <= i < |names| && UtilsAgents.BidAttemptsOf(names[i], players[names[i]], turn, chain, clean, conv)(0).Failed?
  {
    var subs := AsWrittenSubmissions(names, players, turn, chain, clean, conv);
    forall i | 0 <= i < |names|
      ensures subs[i].1.Err? <==> UtilsAgents.BidAttemptsOf(names[i], players[names[i]], turn, chain, clean, conv)(0).Failed?
    {
      UtilsAgents.BidAsWrittenAgrees(names[i], players[names[i]], turn, chain, clean, conv);
    }
    UtilsAgents.AnnouncementUsable(gmLog, turn, subs, gmChain, clean);
  }

  /** Lines 78-131: turns 1 to `max_turns`, stopping after the first turn whose `winner`
      is truthy; the result and the memories are those of `Played`. */
  method RunGame(names: seq<string>, maxTurns: int, playerChain: (PlayerPrompt, nat) -> CallOutcome,
                 gmChain: (ArbiterPrompt, nat) -> CallOutcome, clean: string -> Json, conv: PyConv)
    returns (r: GameCore.Summary, table: GameCore.Table)
    requires Distinct(names)
    ensures fresh(table) && table.Valid() && table.names == names && table.Shared()
    ensures (r, table.gm) == Played(names, maxTurns, playerChain, gmChain, clean, conv)
    ensures maxTurns < 1 ==> r == GameCore.GameFailed(GameCore.Unbound)
    ensures r.Summary? ==> r == GameCore.Summarise(r.turnCount, r.winner, table.gm)
    ensures r.Summary? ==> 1 <= r.turnCount <= maxTurns
    ensures r.Summary? && r.turnCount < maxTurns ==> Truthy(r.winner)
  {
    table := new GameCore.Table(names);
    if maxTurns < 1 {
      return GameCore.GameFailed(GameCore.Unbound), table;
    }
    PlayShape(names, [], 1, maxTurns, playerChain, gmChain, clean, conv);
    ghost var target := Played(names, maxTurns, playerChain, gmChain, clean, conv);
    var turn := 1;
    var winner := JNull;
    var stop := false;
    while !stop
      invariant table.Valid() && table.names == names && table.Shared()
      invariant 1 <= turn <= maxTurns
      invariant !stop ==> Play(names, table.gm, turn, maxTurns, playerChain, gmChain, clean, conv) == target
      invariant stop ==> (GameCore.Summarise(turn, winner, table.gm), table.gm) == target
      decreases maxTurns - turn, if stop then 0 else 1
    {
      ghost var before := table.gm;
      var submissions := ParallelBidding(names, table.players, turn, playerChain, clean, conv);
      assert submissions == Submissions(names, before, turn, playerChain, clean, conv);
      var announced := UtilsAgents.Announce(table.gm, turn, submissions, gmChain, clean);
      UtilsAgents.AnnouncementUsable(table.gm, turn, submissions, gmChain, clean);
      var response := announced.value;
      var ok := GameCore.ExecuteAll(table, turn, response.fields["selected_messages"].items, conv);
      if !ok {
        return GameCore.GameFailed("sequence item: expected str instance"), table;
      }
      winner := Get(response.fields, "winner", JNull);
      if Truthy(winner) || turn == maxTurns {
        stop := true;
      } else {
        turn := turn + 1;
      }
    }
    r := GameCore.Summarise(turn, winner, table.gm);
  }
}
