/** sdg_core.py: the extended response cleaner, the agents' retry loops, the strict
    model-specification parser and the turn loop with visibility-scoped distribution. */
module SdgCore {
  import opened PyBuiltins
  import opened Sanitizer
  import opened Retry
  import opened AgentBase
  import opened Arbitration
  import LlmUtils

  /** `Agent.max_retries` and the history window `mem_log[-30:]`. */
  const MaxRetries: int := 3
  const HistoryTurns: int := 30
  const DecideFailure: string := "Error in response generation after 3 attempts"
  const SystemTexts := FallbackTexts("Failed to get valid system response", "System processing error: ")

  /** `clean_json_response` with the quote and colon fixes of lines 145-150. */
  function CleanJsonResponse(response: Json, parse: string -> Option<Json>): (r: Json)
    ensures !response.JStr? ==> r == JDict(map[])
  {
    if !response.JStr? then JDict(map[])
    else
      var text := ExtendedRepairs(response.s);
      match parse(text)
      case Some(v) => v
      case None =>
        match parse(FallbackFilter(text))
        case Some(v) => v
        case None => JDict(map[])
  }

  /** A decode error never escapes: the result is `{}` or the parse of a text with no
      control character and no `'`, or of one made only of JSON punctuation, digits and
      whitespace; the first parse wins when it succeeds. */
  lemma CleanJsonResponseParses(response: Json, parse: string -> Option<Json>) returns (text: Option<string>)
    ensures text.None? ==> CleanJsonResponse(response, parse) == JDict(map[])
    ensures text.Some? ==> parse(text.value) == Some(CleanJsonResponse(response, parse))
    ensures text.Some? ==> ParseReady(text.value) || forall c :: c in text.value ==> IsFallbackChar(c)
    ensures response.JStr? && parse(ExtendedRepairs(response.s)).Some? ==> text == Some(ExtendedRepairs(response.s))
  {
    if !response.JStr? {
      return None;
    }
    var first := ExtendedRepairs(response.s);
    ExtendedRepairsParseReady(response.s);
    if parse(first).Some? {
      return Some(first);
    }
    FallbackOnlyKeepsJsonPunctuation(first);
    if parse(FallbackFilter(first)).Some? {
      return Some(FallbackFilter(first));
    }
    return None;
  }

  /** The cleaner as `from_llm_response` and the arbiter use it, on a string. */
  function Cleaner(parse: string -> Option<Json>): string -> Json
  {
    s => CleanJsonResponse(JStr(s), parse)
  }

  /** `AgentResponse.from_llm_response` with this file's cleaner. */
  function FromLlmResponse(response: Json, parse: string -> Option<Json>, conv: PyConv): (r: Result<AgentResponse>)
    ensures r.Ok? ==> 0.0 <= r.value.bid <= 1.0
    ensures response.JList? || response.JNum? || response.JNull? || response.JBool? ==> r == Ok(InvalidFormat)
    ensures response.JStr? && CleanJsonResponse(response, parse) == JDict(map[]) ==> r == Ok(Inert(""))
  {
    AgentBase.FromLlmResponse(response, Cleaner(parse), conv)
  }

  function DecideAttemptsOf(name: string, memLog: seq<Entry>, turn: int, chain: (PlayerPrompt, nat) -> CallOutcome,
                            parse: string -> Option<Json>, conv: PyConv): nat -> Attempt<AgentResponse>
  {
    DecideAttempts(Calls(chain, PlayerPrompt(turn, name, Tail(memLog, HistoryTurns))), Cleaner(parse), conv, Inert(DecideFailure))
  }

  /** The submission `decide` returns. */
  function Decision(name: string, memLog: seq<Entry>, turn: int, chain: (PlayerPrompt, nat) -> CallOutcome,
                    parse: string -> Option<Json>, conv: PyConv): AgentResponse
  {
    var attempts := DecideAttemptsOf(name, memLog, turn, chain, parse, conv);
    RetriedNone(attempts, MaxRetries);
    Retried(attempts, MaxRetries).value
  }

  /** `Agent.decide` / `decide_async`: at most three calls on the last 30 entries; the bid
      is in [0, 1], and the inert submission comes back when every call raises. */
  method Decide(name: string, memLog: seq<Entry>, turn: int, chain: (PlayerPrompt, nat) -> CallOutcome,
                parse: string -> Option<Json>, conv: PyConv) returns (r: AgentResponse, attempts: nat)
    ensures r == Decision(name, memLog, turn, chain, parse, conv)
    ensures 1 <= attempts <= MaxRetries
    ensures 0.0 <= r.bid <= 1.0
    ensures (forall j :: 0 <= j < MaxRetries ==> chain(PlayerPrompt(turn, name, Tail(memLog, HistoryTurns)), j).Threw?) ==>
      r == Inert(DecideFailure) && attempts == MaxRetries
  {
    var calls := Calls(chain, PlayerPrompt(turn, name, Tail(memLog, HistoryTurns)));
    var tries := DecideAttemptsOf(name, memLog, turn, chain, parse, conv);
    var o;
    o, attempts := RunRetry(tries, MaxRetries);
    RetriedNone(tries, MaxRetries);
    r := o.value;
    AttemptsBounded(tries, 0, MaxRetries);
    var _ := DecisionValid(calls, Cleaner(parse), conv, DecideFailure, MaxRetries, r);
    if forall j :: 0 <= j < MaxRetries ==> calls(j).Threw? {
      DecisionWhenAllThrow(calls, Cleaner(parse), conv, DecideFailure, MaxRetries);
    }
  }

  function ArbitrationOf(gmLog: seq<Entry>, turn: int, submissions: seq<(string, AgentResponse)>,
                         chain: (ArbiterPrompt, nat) -> CallOutcome, parse: string -> Option<Json>): nat -> Attempt<Json>
  {
    ArbitrationAttempts(Calls(chain, ArbiterPrompt(turn, Tail(gmLog, HistoryTurns), submissions)), Cleaner(parse), SystemTexts)
  }

  /** `GameSystem.process_turn_with_all_submissions`: a usable reply (every selected
      message normalised), which after three failed attempts selects nothing. */
  method ProcessTurnWithAllSubmissions(gmLog: seq<Entry>, turn: int, submissions: seq<(string, AgentResponse)>,
                                       chain: (ArbiterPrompt, nat) -> CallOutcome, parse: string -> Option<Json>)
    returns (r: Json)
    ensures Some(r) == Retried(ArbitrationOf(gmLog, turn, submissions, chain, parse), MaxRetries)
    ensures Usable(r)
    ensures (forall j :: 0 <= j < MaxRetries ==> ArbitrationOf(gmLog, turn, submissions, chain, parse)(j).Failed?) ==>
      r.fields["selected_messages"] == JList([])
  {
    var tries := ArbitrationOf(gmLog, turn, submissions, chain, parse);
    var o, _ := RunRetry(tries, MaxRetries);
    RetriedNone(tries, MaxRetries);
    r := o.value;
    var calls := Calls(chain, ArbiterPrompt(turn, Tail(gmLog, HistoryTurns), submissions));
    var _ := ArbitrationUsable(calls, Cleaner(parse), SystemTexts, MaxRetries, r);
    if forall j :: 0 <= j < MaxRetries ==> tries(j).Failed? {
      forall j | 0 <= j < MaxRetries ensures ArbitrationAttempt(calls(j), Cleaner(parse), SystemTexts).Failed? {
        assert tries(j).Failed?;
      }
      ArbitrationExhausted(calls, Cleaner(parse), SystemTexts, MaxRetries);
    }
  }

  /** One attempt of the legacy `process_game_state`: only `reason` and `winner` are
      defaulted. */
  function LegacyAttempt(outcome: CallOutcome, parse: string -> Option<Json>): Attempt<Json>
  {
    match outcome
    case Threw(e) => Failed(JDict(map["reason" := JStr("System processing error: " + e)]))
    case Returned(v) =>
      var reply := if v.JStr? then CleanJsonResponse(v, parse) else v;
      if !Truthy(reply) || !reply.JDict? then Failed(JDict(map["reason" := JStr(SystemTexts.invalid)]))
      else
        var f := reply.fields;
        var withReason := if "reason" in f then f else f["reason" := JStr("No reason provided")];
        Done(JDict(if "winner" in f then withReason else withReason["winner" := JNull]))
  }

  function LegacyAttempts(gmLog: seq<Entry>, turn: int, chain: ((int, seq<Entry>), nat) -> CallOutcome,
                          parse: string -> Option<Json>): nat -> Attempt<Json>
  {
    (i: nat) => LegacyAttempt(chain((turn, Tail(gmLog, HistoryTurns)), i), parse)
  }

  /** `GameSystem.process_game_state`: a dict with a `reason`; a reply that was accepted
      keeps its own keys and gains `winner`. */
  method ProcessGameState(gmLog: seq<Entry>, turn: int, chain: ((int, seq<Entry>), nat) -> CallOutcome,
                          parse: string -> Option<Json>) returns (r: Json)
    ensures Some(r) == Retried(LegacyAttempts(gmLog, turn, chain, parse), MaxRetries)
    ensures r.JDict? && "reason" in r.fields
    ensures "winner" !in r.fields ==> r.fields.Keys == {"reason"}
  {
    var tries := LegacyAttempts(gmLog, turn, chain, parse);
    var o, _ := RunRetry(tries, MaxRetries);
    RetriedNone(tries, MaxRetries);
    r := o.value;
    var k := RetriedCases(tries, MaxRetries, r);
    assert tries(k) == LegacyAttempt(chain((turn, Tail(gmLog, HistoryTurns)), k), parse);
  }

  /** `parse_model_spec` (lines 555-585): split at the first `:`, lower-case and strip the
      source, strip the model name, and accept only `openai` or `openrouter` with a
      non-empty model name. */
  function ParseModelSpec(spec: string): (r: Result<LlmUtils.ModelSpec>)
    ensures ':' !in spec ==> r == Err("Invalid model specification '" + spec + "'. Expected format: 'api:model_name'")
    ensures r.Ok? ==> (r.value.api == "openai" || r.value.api == "openrouter")
    ensures r.Ok? ==> r.value.model != [] && Stripped(r.value.model)
  {
    match FirstIndex(spec, ':')
    case None => Err("Invalid model specification '" + spec + "'. Expected format: 'api:model_name'")
    case Some(i) =>
      var api := Strip(AsciiLower(spec[..i]));
      var model := Strip(spec[i + 1..]);
      if api != "openai" && api != "openrouter" then
        Err("Unsupported API source: " + api + ". Must be 'openai' or 'openrouter'")
      else if model == [] then Err("Model name cannot be empty")
      else Ok(LlmUtils.ModelSpec(api, model))
  }

  /** A supported source and a non-empty model name written as `api:model` parse back. */
  lemma ParseModelSpecOfJoined(api: string, model: string)
    requires api == "openai" || api == "openrouter"
    requires model != [] && Stripped(model)
    ensures ParseModelSpec(api + ":" + model) == Ok(LlmUtils.ModelSpec(api, model))
  {
    var s := api + ":" + model;
    assert s[..|api|] == api && s[|api| + 1..] == model;
    FirstIndexAt(s, ':', |api|);
    SupportedIsLower(api);
    StripOfStripped(api);
    StripOfStripped(model);
  }

  lemma SupportedIsLower(api: string)
    requires api == "openai" || api == "openrouter"
    ensures AsciiLower(api) == api && Stripped(api) && ':' !in api
  {
    assert forall i :: 0 <= i < |api| ==> AsciiLower(api)[i] == api[i];
  }

  /** The strict parser accepts what the lax one of llm_utils.py accepts, provided the
      lower-cased source is supported and the model name is not empty, and then gives the
      same pair with the source lower-cased. */
  lemma ParseModelSpecRefinesLax(spec: string)
    ensures ParseModelSpec(spec).Ok? <==>
      LlmUtils.ParseModelSpec(spec).Ok? && LlmUtils.ParseModelSpec(spec).value.model != [] &&
      (AsciiLower(LlmUtils.ParseModelSpec(spec).value.api) == "openai" || AsciiLower(LlmUtils.ParseModelSpec(spec).value.api) == "openrouter")
    ensures ParseModelSpec(spec).Ok? ==>
      ParseModelSpec(spec).value == LlmUtils.ModelSpec(AsciiLower(LlmUtils.ParseModelSpec(spec).value.api), LlmUtils.ParseModelSpec(spec).value.model)
  {
    match FirstIndex(spec, ':') {
      case None =>
      case Some(i) =>
        StripOfLower(spec[..i]);
    }
  }

  /** `public_log` entry `(turn, "speaker: message")`. */
  datatype PublicEntry = PublicEntry(turn: int, text: string)

  /** `dm_log` entry `(turn, sender, receiver, text)`, one per recipient. */
  datatype DmEntry = DmEntry(turn: int, sender: Json, recipient: Json, text: string)

  /** Every log the turn loop writes: each player's `mem_log` by name, the arbiter's
      `mem_log`, `public_log` and `dm_log`. */
  datatype Logs = Logs(players: map<string, seq<Entry>>, gm: seq<Entry>, publicLog: seq<PublicEntry>, dmLog: seq<DmEntry>)

  /** A value Python can look up in a dict (`speaker in agents` raises on a list or dict). */
  predicate Hashable(v: Json)
  {
    !v.JList? && !v.JDict?
  }

  /** Append e to every player's log. */
  function Broadcast(players: map<string, seq<Entry>>, e: Entry): (r: map<string, seq<Entry>>)
    ensures r.Keys == players.Keys
    ensures forall p :: p in players ==> r[p] == players[p] + [e]
  {
    map p | p in players :: players[p] + [e]
  }

  /** Append e to the log of `name` when that is a player. */
  function AppendTo(players: map<string, seq<Entry>>, name: string, e: Entry): map<string, seq<Entry>>
  {
    if name in players then players[name := players[name] + [e]] else players
  }

  /** The `dm_log` entries of one DM, in recipient order. */
  function DmEntries(turn: int, speaker: Json, recipients: seq<Json>, text: string): (r: seq<DmEntry>)
    ensures |r| == |recipients|
  {
    if recipients == [] then []
    else DmEntries(turn, speaker, recipients[..|recipients| - 1], text) + [DmEntry(turn, speaker, recipients[|recipients| - 1], text)]
  }

  /** Each player recipient, in order, gets the DM under its own name. */
  function ToRecipients(players: map<string, seq<Entry>>, names: seq<string>, turn: int, speaker: Json, text: string)
    : (r: map<string, seq<Entry>>)
    ensures r.Keys == players.Keys
  {
    if names == [] then players
    else
      var last := names[|names| - 1];
      AppendTo(ToRecipients(players, names[..|names| - 1], turn, speaker, text), last, Entry(turn, speaker, last, JStr(text)))
  }

  /** The logs after one selected message, and whether the game goes on (false: Python
      raised, which ends `run_game` with its failure summary). */
  datatype Delivery = Delivery(logs: Logs, ok: bool)

  /** Lines 701-734: a message that is empty after stripping is skipped; one sent to a list
      holding `"ALL"` is public; any other is a DM. */
  function Delivered(logs: Logs, turn: int, m: Json, conv: PyConv): (d: Delivery)
    requires Normalised(m)
    ensures d.logs.players.Keys == logs.players.Keys
  {
    var message := m.fields["message"];
    if !message.JStr? then Delivery(logs, false)
    else
      var text := Strip(message.s);
      var speaker := m.fields["speaker"];
      var recipients := m.fields["to"].items;
      if text == [] then Delivery(logs, true)
      else if JStr("ALL") in recipients then
        var e := Entry(turn, speaker, "ALL", JStr(text));
        Delivery(Logs(Broadcast(logs.players, e), logs.gm + [e],
                      logs.publicLog + [PublicEntry(turn, PyStr(speaker, conv) + ": " + text)], logs.dmLog), true)
      else
        var dms := logs.dmLog + DmEntries(turn, speaker, recipients, text);
        if !AllStr(recipients) || !Hashable(speaker) then Delivery(logs.(dmLog := dms), false)
        else
          var names := StrsOf(recipients);
          var e := Entry(turn, speaker, Join(names, ','), JStr(text));
          var withSender := if speaker.JStr? then AppendTo(logs.players, speaker.s, e) else logs.players;
          Delivery(Logs(ToRecipients(withSender, names, turn, speaker, text), logs.gm + [e], logs.publicLog, dms), true)
  }

  /** A player's log gains the DM once per time it is named as a recipient. */
  lemma {:induction false} ToRecipientsAppends(players: map<string, seq<Entry>>, names: seq<string>, turn: int, speaker: Json,
                                               text: string, p: string)
    requires p in players
    ensures ToRecipients(players, names, turn, speaker, text)[p] == players[p] + Repeat(Entry(turn, speaker, p, JStr(text)), Count(names, p))
  {
    if names != [] {
      ToRecipientsAppends(players, names[..|names| - 1], turn, speaker, text, p);
    }
  }

  /** Visibility of a DM: the sender's log (when the sender is a player) gets the entry
      naming all recipients, each player recipient gets one entry under its own name per
      mention, the arbiter gets the entry naming all recipients, and `dm_log` one entry per
      recipient. No other log changes. */
  lemma DmVisibility(logs: Logs, turn: int, m: Json, conv: PyConv, p: string)
    requires Normalised(m) && p in logs.players
    requires m.fields["message"].JStr? && Strip(m.fields["message"].s) != []
    requires JStr("ALL") !in m.fields["to"].items && AllStr(m.fields["to"].items) && Hashable(m.fields["speaker"])
    ensures var d := Delivered(logs, turn, m, conv);
      var speaker := m.fields["speaker"];
      var names := StrsOf(m.fields["to"].items);
      var text := Strip(m.fields["message"].s);
      var e := Entry(turn, speaker, Join(names, ','), JStr(text));
      d.ok && d.logs.players.Keys == logs.players.Keys &&
      d.logs.players[p] == logs.players[p] + (if speaker == JStr(p) then [e] else []) + Repeat(Entry(turn, speaker, p, JStr(text)), Count(names, p)) &&
      d.logs.gm == logs.gm + [e] &&
      d.logs.publicLog == logs.publicLog &&
      d.logs.dmLog == logs.dmLog + DmEntries(turn, speaker, m.fields["to"].items, text)
  {
    var speaker := m.fields["speaker"];
    var names := StrsOf(m.fields["to"].items);
    var text := Strip(m.fields["message"].s);
    var e := Entry(turn, speaker, Join(names, ','), JStr(text));
    var withSender := if speaker.JStr? then AppendTo(logs.players, speaker.s, e) else logs.players;
    assert withSender[p] == logs.players[p] + (if speaker == JStr(p) then [e] else []);
    ToRecipientsAppends(withSender, names, turn, speaker, text, p);
  }

  /** A player neither sending nor named in a DM sees nothing of it. */
  lemma DmPrivacy(logs: Logs, turn: int, m: Json, conv: PyConv, p: string)
    requires Normalised(m) && p in logs.players
    requires JStr("ALL") !in m.fields["to"].items && JStr(p) !in m.fields["to"].items && m.fields["speaker"] != JStr(p)
    ensures Delivered(logs, turn, m, conv).logs.players[p] == logs.players[p]
  {
    var message := m.fields["message"];
    if message.JStr? && Strip(message.s) != [] && AllStr(m.fields["to"].items) && Hashable(m.fields["speaker"]) {
      var names := StrsOf(m.fields["to"].items);
      assert p !in names;
      CountAbsent(names, p);
      DmVisibility(logs, turn, m, conv, p);
    }
  }

  /** A DM whose sender also names itself once among the recipients leaves two entries in
      the sender's log. */
  lemma DmToSelfLoggedTwice(logs: Logs, turn: int, m: Json, conv: PyConv, p: string)
    requires Normalised(m) && p in logs.players
    requires m.fields["message"].JStr? && Strip(m.fields["message"].s) != []
    requires JStr("ALL") !in m.fields["to"].items && AllStr(m.fields["to"].items)
    requires m.fields["speaker"] == JStr(p) && JStr(p) in m.fields["to"].items
    ensures |Delivered(logs, turn, m, conv).logs.players[p]| >= |logs.players[p]| + 2
  {
    var names := StrsOf(m.fields["to"].items);
    assert p in names;
    CountPresent(names, p);
    DmVisibility(logs, turn, m, conv, p);
  }

  /** A public message reaches every player and the arbiter once, adds the entry
      `speaker: text` to `public_log` and leaves `dm_log` alone. */
  lemma BroadcastVisibility(logs: Logs, turn: int, m: Json, conv: PyConv)
    requires Normalised(m)
    requires m.fields["message"].JStr? && Strip(m.fields["message"].s) != []
    requires JStr("ALL") in m.fields["to"].items
    ensures var d := Delivered(logs, turn, m, conv);
      var e := Entry(turn, m.fields["speaker"], "ALL", JStr(Strip(m.fields["message"].s)));
      d.ok && d.logs.players.Keys == logs.players.Keys &&
      (forall p :: p in logs.players ==> d.logs.players[p] == logs.players[p] + [e]) &&
      d.logs.gm == logs.gm + [e] && d.logs.dmLog == logs.dmLog &&
      d.logs.publicLog == logs.publicLog + [PublicEntry(turn, PyStr(m.fields["speaker"], conv) + ": " + Strip(m.fields["message"].s))]
  {
  }

  /** The players' and the arbiter's memories of one game. */
  class Game {
    const names: seq<string>
    var players: map<string, seq<Entry>>
    var gm: seq<Entry>
    var publicLog: seq<PublicEntry>
    var dmLog: seq<DmEntry>

    ghost predicate Valid()
      reads this
    {
      Distinct(names) && players.Keys == set n | n in names
    }

    function Logged(): Logs
      reads this
    {
      Logs(players, gm, publicLog, dmLog)
    }

    constructor (names: seq<string>)
      requires Distinct(names)
      ensures Valid() && this.names == names
      ensures Logged() == Logs(map n | n in names :: [], [], [], [])
    {
      this.names := names;
      players := map n | n in names :: [];
      gm := [];
      publicLog := [];
      dmLog := [];
    }

    /** `for agent in agents.values(): agent.mem_log.append(e)`. */
    method AppendToAll(e: Entry)
      requires Valid()
      modifies this
      ensures Valid()
      ensures players == Broadcast(old(players), e)
      ensures gm == old(gm) && publicLog == old(publicLog) && dmLog == old(dmLog)
    {
      var i := 0;
      while i < |names|
        invariant 0 <= i <= |names|
        invariant players.Keys == old(players).Keys
        invariant forall k :: 0 <= k < i ==> players[names[k]] == old(players)[names[k]] + [e]
        invariant forall k :: i <= k < |names| ==> players[names[k]] == old(players)[names[k]]
        invariant gm == old(gm) && publicLog == old(publicLog) && dmLog == old(dmLog)
      {
        players := players[names[i] := players[names[i]] + [e]];
        i := i + 1;
      }
      forall p | p in players
        ensures players[p] == old(players)[p] + [e]
      {
        var k :| 0 <= k < |names| && names[k] == p;
      }
    }

    /** `for recipient in recipients: dm_log.append(...)`. */
    method LogDms(turn: int, speaker: Json, recipients: seq<Json>, text: string)
      modifies this
      ensures dmLog == old(dmLog) + DmEntries(turn, speaker, recipients, text)
      ensures players == old(players) && gm == old(gm) && publicLog == old(publicLog)
    {
      var i := 0;
      while i < |recipients|
        invariant 0 <= i <= |recipients|
        invariant dmLog == old(dmLog) + DmEntries(turn, speaker, recipients[..i], text)
        invariant players == old(players) && gm == old(gm) && publicLog == old(publicLog)
      {
        assert recipients[..i + 1][..i] == recipients[..i];
        dmLog := dmLog + [DmEntry(turn, speaker, recipients[i], text)];
        i := i + 1;
      }
      assert recipients[..i] == recipients;
    }

    /** `for r in recipients: if r in agents: agents[r].mem_log.append(...)`. */
    method AppendToRecipients(rnames: seq<string>, turn: int, speaker: Json, text: string)
      modifies this
      ensures players == ToRecipients(old(players), rnames, turn, speaker, text)
      ensures gm == old(gm) && publicLog == old(publicLog) && dmLog == old(dmLog)
    {
      var j := 0;
      while j < |rnames|
        invariant 0 <= j <= |rnames|
        invariant players == ToRecipients(old(players), rnames[..j], turn, speaker, text)
        invariant gm == old(gm) && publicLog == old(publicLog) && dmLog == old(dmLog)
      {
        assert rnames[..j + 1][..j] == rnames[..j];
        if rnames[j] in players {
          players := players[rnames[j] := players[rnames[j]] + [Entry(turn, speaker, rnames[j], JStr(text))]];
        }
        j := j + 1;
      }
      assert rnames[..j] == rnames;
    }

    /** Lines 701-745 for one selected message. */
    method Deliver(turn: int, m: Json, conv: PyConv) returns (ok: bool)
      requires Valid() && Normalised(m)
      modifies this
      ensures Valid()
      ensures Delivery(Logged(), ok) == Delivered(old(Logged()), turn, m, conv)
    {
      var message := m.fields["message"];
      if !message.JStr? {
        return false;
      }
      var text := Strip(message.s);
      if text == [] {
        return true;
      }
      var speaker := m.fields["speaker"];
      var recipients := m.fields["to"].items;
      if JStr("ALL") in recipients {
        publicLog := publicLog + [PublicEntry(turn, PyStr(speaker, conv) + ": " + text)];
        var e := Entry(turn, speaker, "ALL", JStr(text));
        AppendToAll(e);
        gm := gm + [e];
        return true;
      }
      LogDms(turn, speaker, recipients, text);
      if !AllStr(recipients) || !Hashable(speaker) {
        return false;
      }
      var rnames := StrsOf(recipients);
      var e := Entry(turn, speaker, Join(rnames, ','), JStr(text));
      if speaker.JStr? && speaker.s in players {
        players := players[speaker.s := players[speaker.s] + [e]];
      }
      AppendToRecipients(rnames, turn, speaker, text);
      gm := gm + [e];
      return true;
    }

    /** Lines 699-745: the selected messages in order, stopping at the first that raises. */
    method DeliverAll(turn: int, ms: seq<Json>, conv: PyConv) returns (ok: bool)
      requires Valid() && forall i :: 0 <= i < |ms| ==> Normalised(ms[i])
      modifies this
      ensures Valid()
      ensures Delivery(Logged(), ok) == DeliveredAll(old(Logged()), turn, ms, conv)
    {
      var k := 0;
      while k < |ms|
        invariant 0 <= k <= |ms|
        invariant Valid()
        invariant DeliveredAll(Logged(), turn, ms[k..], conv) == DeliveredAll(old(Logged()), turn, ms, conv)
      {
        assert ms[k..][1..] == ms[k + 1..];
        ok := Deliver(turn, ms[k], conv);
        if !ok {
          return;
        }
        k := k + 1;
      }
      return true;
    }
  }

  /** `parallel_bidding`: every player's decision, keyed by name in player order (the
      calls run concurrently in the source; they share no state). */
  method ParallelBidding(names: seq<string>, players: map<string, seq<Entry>>, turn: int,
                         chain: (PlayerPrompt, nat) -> CallOutcome, parse: string -> Option<Json>, conv: PyConv)
    returns (pkgs: seq<(string, AgentResponse)>)
    requires forall i :: 0 <= i < |names| ==> names[i] in players
    ensures |pkgs| == |names|
    ensures forall i :: 0 <= i < |names| ==> pkgs[i] == (names[i], Decision(names[i], players[names[i]], turn, chain, parse, conv))
    ensures forall i :: 0 <= i < |pkgs| ==> 0.0 <= pkgs[i].1.bid <= 1.0
    ensures pkgs == Bids(names, players, turn, chain, parse, conv)
  {
    pkgs := [];
    var i := 0;
    while i < |names|
      invariant 0 <= i <= |names| && |pkgs| == i
      invariant forall k :: 0 <= k < i ==> pkgs[k] == (names[k], Decision(names[k], players[names[k]], turn, chain, parse, conv))
      invariant forall k :: 0 <= k < i ==> 0.0 <= pkgs[k].1.bid <= 1.0
    {
      var decision, _ := Decide(names[i], players[names[i]], turn, chain, parse, conv);
      pkgs := pkgs + [(names[i], decision)];
      i := i + 1;
    }
  }

  /** The submissions of one turn: each player's decision on its own memory, in player
      order. */
  function Bids(names: seq<string>, players: map<string, seq<Entry>>, turn: int,
                chain: (PlayerPrompt, nat) -> CallOutcome, parse: string -> Option<Json>, conv: PyConv)
    : seq<(string, AgentResponse)>
    requires forall i :: 0 <= i < |names| ==> names[i] in players
  {
    seq(|names|, i requires 0 <= i < |names| => (names[i], Decision(names[i], players[names[i]], turn, chain, parse, conv)))
  }

  /** The arbiter's reply in one turn: `process_turn_with_all_submissions` on that turn's
      bids and the arbiter's memory. */
  function TurnReply(names: seq<string>, logs: Logs, turn: int, playerChain: (PlayerPrompt, nat) -> CallOutcome,
                     gmChain: (ArbiterPrompt, nat) -> CallOutcome, parse: string -> Option<Json>, conv: PyConv): Json
    requires forall i :: 0 <= i < |names| ==> names[i] in logs.players
  {
    var attempts := ArbitrationOf(logs.gm, turn, Bids(names, logs.players, turn, playerChain, parse, conv), gmChain, parse);
    RetriedNone(attempts, MaxRetries);
    Retried(attempts, MaxRetries).value
  }

  lemma TurnReplyUsable(names: seq<string>, logs: Logs, turn: int, playerChain: (PlayerPrompt, nat) -> CallOutcome,
                        gmChain: (ArbiterPrompt, nat) -> CallOutcome, parse: string -> Option<Json>, conv: PyConv)
    requires forall i :: 0 <= i < |names| ==> names[i] in logs.players
    ensures Usable(TurnReply(names, logs, turn, playerChain, gmChain, parse, conv))
  {
    var subs := Bids(names, logs.players, turn, playerChain, parse, conv);
    var attempts := ArbitrationOf(logs.gm, turn, subs, gmChain, parse);
    RetriedNone(attempts, MaxRetries);
    var calls := Calls(gmChain, ArbiterPrompt(turn, Tail(logs.gm, HistoryTurns), subs));
    var _ := ArbitrationUsable(calls, Cleaner(parse), SystemTexts, MaxRetries, Retried(attempts, MaxRetries).value);
  }

  /** Lines 699-745 over one turn's selected messages, in order, up to the first that
      raises. */
  function DeliveredAll(logs: Logs, turn: int, ms: seq<Json>, conv: PyConv): (d: Delivery)
    requires forall i :: 0 <= i < |ms| ==> Normalised(ms[i])
    ensures d.logs.players.Keys == logs.players.Keys
    decreases |ms|
  {
    if ms == [] then Delivery(logs, true)
    else
      var d := Delivered(logs, turn, ms[0], conv);
      if !d.ok then d else DeliveredAll(d.logs, turn, ms[1..], conv)
  }

  /** The value `run_game` returns. */
  datatype GameResult = GameResult(success: bool, winner: Json, turnCount: int, maxTurnsReached: bool,
                                   completed: bool, error: Option<string>)

  /** Lines 748-777: the result of a game that ran to its end. */
  function Finished(turn: int, maxTurns: int, winner: Json): (r: GameResult)
    ensures r.success && r.turnCount == turn && r.winner == winner
    ensures r.maxTurnsReached <==> turn >= maxTurns
    ensures r.completed <==> winner != JNull && turn < maxTurns
  {
    var reached := turn >= maxTurns;
    GameResult(true, winner, turn, reached, winner != JNull && !reached, None)
  }

  /** Lines 849-856: the result of a game that raised. */
  function Aborted(turn: int, maxTurns: int): (r: GameResult)
    ensures !r.success && !r.completed && r.winner == JNull && r.turnCount == turn
    ensures r.maxTurnsReached <==> turn >= maxTurns
  {
    GameResult(false, JNull, turn, turn >= maxTurns, false, Some("Game execution error"))
  }

  /** A winner declared on exactly the last allowed turn does not count as a completed
      game: the turn limit was reached. */
  lemma WinnerOnLastTurnNotCompleted(maxTurns: int, winner: Json)
    requires winner != JNull
    ensures Finished(maxTurns, maxTurns, winner).maxTurnsReached
    ensures !Finished(maxTurns, maxTurns, winner).completed
  {
  }

  /** What `run_game` leaves behind: its result and every log. */
  datatype Outcome = Outcome(result: GameResult, logs: Logs)

  /** Lines 663-745 after `turn` turns: the next turn asks every player, then the arbiter,
      delivers the selected messages, and ends the game when a delivery raised or the
      reply's `winner` is not None; the loop also ends once `max_turns` turns have run. */
  function Play(names: seq<string>, logs: Logs, turn: int, maxTurns: int, playerChain: (PlayerPrompt, nat) -> CallOutcome,
                gmChain: (ArbiterPrompt, nat) -> CallOutcome, parse: string -> Option<Json>, conv: PyConv): (o: Outcome)
    requires forall i :: 0 <= i < |names| ==> names[i] in logs.players
    ensures o.logs.players.Keys == logs.players.Keys
    decreases maxTurns - turn
  {
    if turn >= maxTurns then Outcome(Finished(turn, maxTurns, JNull), logs)
    else
      var reply := TurnReply(names, logs, turn + 1, playerChain, gmChain, parse, conv);
      TurnReplyUsable(names, logs, turn + 1, playerChain, gmChain, parse, conv);
      var d := DeliveredAll(logs, turn + 1, reply.fields["selected_messages"].items, conv);
      var winner := Get(reply.fields, "winner", JNull);
      if !d.ok then Outcome(Aborted(turn + 1, maxTurns), d.logs)
      else if winner != JNull then Outcome(Finished(turn + 1, maxTurns, winner), d.logs)
      else Play(names, d.logs, turn + 1, maxTurns, playerChain, gmChain, parse, conv)
  }

  /** The logs of a new game: an empty memory per player, empty arbiter and message logs. */
  function Start(names: seq<string>): (logs: Logs)
    ensures forall i :: 0 <= i < |names| ==> names[i] in logs.players
  {
    Logs(map n | n in names :: [], [], [], [])
  }

  /** Whatever the replies, a game that ran to its end reports the turn count and winner
      of the loop: at most `max_turns` turns, all of them when no winner was declared, and
      a failure only from a turn that ran. */
  lemma {:induction false} PlayShape(names: seq<string>, logs: Logs, turn: int, maxTurns: int,
                                     playerChain: (PlayerPrompt, nat) -> CallOutcome, gmChain: (ArbiterPrompt, nat) -> CallOutcome,
                                     parse: string -> Option<Json>, conv: PyConv)
    requires forall i :: 0 <= i < |names| ==> names[i] in logs.players
    requires turn >= 0
    ensures var r := Play(names, logs, turn, maxTurns, playerChain, gmChain, parse, conv).result;
      var last := if maxTurns > turn then maxTurns else turn;
      (r.success ==> r == Finished(r.turnCount, maxTurns, r.winner) && turn <= r.turnCount <= last) &&
      (r.success && r.winner == JNull ==> r.turnCount == last) &&
      (r.success && r.winner != JNull ==> turn < r.turnCount) &&
      (!r.success ==> r == Aborted(r.turnCount, maxTurns) && turn < r.turnCount <= last)
    decreases maxTurns - turn
  {
    if turn < maxTurns {
      var reply := TurnReply(names, logs, turn + 1, playerChain, gmChain, parse, conv);
      TurnReplyUsable(names, logs, turn + 1, playerChain, gmChain, parse, conv);
      var d := DeliveredAll(logs, turn + 1, reply.fields["selected_messages"].items, conv);
      if d.ok && Get(reply.fields, "winner", JNull) == JNull {
        PlayShape(names, d.logs, turn + 1, maxTurns, playerChain, gmChain, parse, conv);
      }
    }
  }

  /** An arbiter whose every call raises selects nothing and declares no winner: the game
      runs all `max_turns` turns, ends successfully without a winner, and no log changes. */
  lemma {:induction false} PlayWithSilentArbiter(names: seq<string>, logs: Logs, turn: int, maxTurns: int,
                                                 playerChain: (PlayerPrompt, nat) -> CallOutcome, gmChain: (ArbiterPrompt, nat) -> CallOutcome,
                                                 parse: string -> Option<Json>, conv: PyConv)
    requires forall i :: 0 <= i < |names| ==> names[i] in logs.players
    requires forall p, j :: gmChain(p, j).Threw?
    ensures Play(names, logs, turn, maxTurns, playerChain, gmChain, parse, conv)
      == Outcome(Finished(if maxTurns > turn then maxTurns else turn, maxTurns, JNull), logs)
    decreases maxTurns - turn
  {
    if turn < maxTurns {
      var subs := Bids(names, logs.players, turn + 1, playerChain, parse, conv);
      var calls := Calls(gmChain, ArbiterPrompt(turn + 1, Tail(logs.gm, HistoryTurns), subs));
      forall j | 0 <= j < MaxRetries ensures ArbitrationAttempt(calls(j), Cleaner(parse), SystemTexts).Failed? {
        assert gmChain(ArbiterPrompt(turn + 1, Tail(logs.gm, HistoryTurns), subs), j).Threw?;
      }
      ArbitrationExhausted(calls, Cleaner(parse), SystemTexts, MaxRetries);
      PlayWithSilentArbiter(names, logs, turn + 1, maxTurns, playerChain, gmChain, parse, conv);
    }
  }

  /** The loop of lines 663-745: turns 1, 2, ... until a winner that is not None is
      declared or `max_turns` is reached; the result and every log are those of `Play`
      from an empty game. */
  method RunGame(names: seq<string>, maxTurns: int, playerChain: (PlayerPrompt, nat) -> CallOutcome,
                 gmChain: (ArbiterPrompt, nat) -> CallOutcome, parse: string -> Option<Json>, conv: PyConv)
    returns (r: GameResult, game: Game)
    requires Distinct(names)
    ensures fresh(game) && game.Valid() && game.names == names
    ensures Outcome(r, game.Logged()) == Play(names, Start(names), 0, maxTurns, playerChain, gmChain, parse, conv)
    ensures r.success ==> r == Finished(r.turnCount, maxTurns, r.winner)
    ensures r.success ==> 0 <= r.turnCount <= (if maxTurns > 0 then maxTurns else 0)
    ensures r.success && r.winner == JNull ==> r.turnCount == (if maxTurns > 0 then maxTurns else 0)
    ensures r.success && r.winner != JNull ==> r.turnCount >= 1
    ensures !r.success ==> r == Aborted(r.turnCount, maxTurns) && 1 <= r.turnCount
  {
    PlayShape(names, Start(names), 0, maxTurns, playerChain, gmChain, parse, conv);
    game := new Game(names);
    ghost var target := Play(names, Start(names), 0, maxTurns, playerChain, gmChain, parse, conv);
    var turn := 0;
    var concluded := false;
    var winner := JNull;
    while !concluded && turn < maxTurns
      invariant game.Valid() && game.names == names
      invariant 0 <= turn
      invariant concluded <==> winner != JNull
      invariant !concluded ==> Play(names, game.Logged(), turn, maxTurns, playerChain, gmChain, parse, conv) == target
      invariant concluded ==> Outcome(Finished(turn, maxTurns, winner), game.Logged()) == target
      decreases maxTurns - turn, if concluded then 0 else 1
    {
      ghost var before := game.Logged();
      turn := turn + 1;
      var pkgs := ParallelBidding(names, game.players, turn, playerChain, parse, conv);
      var response := ProcessTurnWithAllSubmissions(game.gm, turn, pkgs, gmChain, parse);
      assert response == TurnReply(names, before, turn, playerChain, gmChain, parse, conv);
      var systemWinner := Get(response.fields, "winner", JNull);
      if systemWinner != JNull {
        concluded := true;
        winner := systemWinner;
      }
      var ok := game.DeliverAll(turn, response.fields["selected_messages"].items, conv);
      if !ok {
        return Aborted(turn, maxTurns), game;
      }
    }
    r := Finished(turn, maxTurns, winner);
  }
}
