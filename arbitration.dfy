/** The arbiter's reply handling shared by `process_turn_with_all_submissions`
    (sdg_core.py, agents.py) and `announce` (utils/agents.py): keep the well-formed
    `selected_messages`, turn each `to` into a list, default `reason` and `winner`, and
    retry a reply that is empty, not a dict, or raised. */
module Arbitration {
  import opened PyBuiltins
  import opened Retry
  import opened AgentBase

  /** A dict holding `speaker`, `to` and `message`. */
  predicate WellFormed(m: Json)
  {
    m.JDict? && "speaker" in m.fields && "to" in m.fields && "message" in m.fields
  }

  /** A well-formed entry whose `to` is a list, as the distribution code expects. */
  predicate Normalised(m: Json)
  {
    WellFormed(m) && m.fields["to"].JList?
  }

  /** `[x.strip() for x in s.split(",")]`. */
  function RecipientList(s: string): (r: seq<Json>)
    ensures |r| == |Split(s, ',')| >= 1
    ensures forall i :: 0 <= i < |r| ==> r[i] == JStr(Strip(Split(s, ',')[i]))
    ensures forall i :: 0 <= i < |r| ==> r[i].JStr? && Stripped(r[i].s) && ',' !in r[i].s
  {
    var parts := Split(s, ',');
    seq(|parts|, i requires 0 <= i < |parts| =>
      StripKeepsChars(parts[i]);
      JStr(Strip(parts[i])))
  }

  /** `to` as a list: `"ALL"` becomes `["ALL"]`, another string its trimmed comma-separated
      pieces, a list stays, anything else becomes `["ALL"]`. */
  function NormaliseTo(to: Json): (r: Json)
    ensures r.JList? && (!to.JList? ==> r.items != [])
    ensures to.JList? ==> r == to
    ensures to == JStr("ALL") || !(to.JStr? || to.JList?) ==> r == JList([JStr("ALL")])
    ensures to.JStr? ==> forall i :: 0 <= i < |r.items| ==> r.items[i].JStr? && Stripped(r.items[i].s) && ',' !in r.items[i].s
  {
    match to
    case JStr(s) => if s == "ALL" then JList([JStr("ALL")]) else JList(RecipientList(s))
    case JList(_) => to
    case _ => JList([JStr("ALL")])
  }

  function Strs(names: seq<string>): (r: seq<Json>)
    ensures |r| == |names| && forall i :: 0 <= i < |r| ==> r[i] == JStr(names[i])
  {
    seq(|names|, i requires 0 <= i < |names| => JStr(names[i]))
  }

  /** A recipient list written as `"P1,P2"` comes back as the list of those names. */
  lemma NormaliseToOfJoined(names: seq<string>)
    requires |names| >= 1
    requires forall i :: 0 <= i < |names| ==> Stripped(names[i]) && ',' !in names[i]
    ensures NormaliseTo(JStr(Join(names, ','))) == JList(Strs(names))
  {
    RecipientListOfJoined(names);
    if Join(names, ',') == "ALL" {
      RecipientListOfAll();
    }
  }

  lemma RecipientListOfAll()
    ensures RecipientList("ALL") == [JStr("ALL")]
  {
    var all := ["ALL"];
    assert Join(all, ',') == "ALL";
    assert Stripped(all[0]) && ',' !in all[0];
    RecipientListOfJoined(all);
  }

  lemma RecipientListOfJoined(names: seq<string>)
    requires |names| >= 1
    requires forall i :: 0 <= i < |names| ==> Stripped(names[i]) && ',' !in names[i]
    ensures RecipientList(Join(names, ',')) == Strs(names)
  {
    var r := RecipientList(Join(names, ','));
    SplitJoin(names, ',');
    forall i | 0 <= i < |names|
      ensures r[i] == Strs(names)[i]
    {
      StripOfStripped(names[i]);
    }
  }

  /** The entry with its `to` normalised; every other key is kept. */
  function Normalise(m: Json): (r: Json)
    requires WellFormed(m)
    ensures Normalised(r)
    ensures r.fields.Keys == m.fields.Keys
    ensures forall k :: k in m.fields && k != "to" ==> r.fields[k] == m.fields[k]
  {
    JDict(m.fields["to" := NormaliseTo(m.fields["to"])])
  }

  /** The `valid_messages` the loop builds from `selected`. */
  function NormalisedMessages(selected: seq<Json>): (r: seq<Json>)
    ensures |r| <= |selected|
    ensures forall i :: 0 <= i < |r| ==> Normalised(r[i])
  {
    if selected == [] then []
    else
      var last := selected[|selected| - 1];
      NormalisedMessages(selected[..|selected| - 1]) + (if WellFormed(last) then [Normalise(last)] else [])
  }

  /** Filtering distributes over concatenation, so survivors keep their order. */
  lemma {:induction false} NormalisedMessagesAppend(a: seq<Json>, b: seq<Json>)
    ensures NormalisedMessages(a + b) == NormalisedMessages(a) + NormalisedMessages(b)
    decreases |b|
  {
    if b != [] {
      assert (a + b)[..|a + b| - 1] == a + b[..|b| - 1];
      NormalisedMessagesAppend(a, b[..|b| - 1]);
    } else {
      assert a + b == a;
    }
  }

  /** Entries that are already normalised pass through unchanged, so normalising twice
      changes nothing. */
  lemma {:induction false} NormalisedMessagesOfNormalised(selected: seq<Json>)
    requires forall i :: 0 <= i < |selected| ==> Normalised(selected[i])
    ensures NormalisedMessages(selected) == selected
  {
    if selected != [] {
      var last := selected[|selected| - 1];
      NormalisedMessagesOfNormalised(selected[..|selected| - 1]);
      assert last.fields["to" := last.fields["to"]] == last.fields;
      assert selected[..|selected| - 1] + [last] == selected;
    }
  }

  /** A malformed entry is dropped and a well-formed one kept, wherever it stands. */
  lemma NormalisedMessagesAround(a: seq<Json>, m: Json, b: seq<Json>)
    ensures NormalisedMessages(a + [m] + b) ==
      NormalisedMessages(a) + (if WellFormed(m) then [Normalise(m)] else []) + NormalisedMessages(b)
  {
    NormalisedMessagesAppend(a + [m], b);
    NormalisedMessagesAppend(a, [m]);
    assert [m][..0] == [];
  }

  /** The loop of lines 469-479 (sdg_core.py). */
  method ValidMessages(selected: seq<Json>) returns (valid: seq<Json>)
    ensures valid == NormalisedMessages(selected)
  {
    valid := [];
    var i := 0;
    while i < |selected|
      invariant 0 <= i <= |selected|
      invariant valid == NormalisedMessages(selected[..i])
    {
      var msg := selected[i];
      if WellFormed(msg) {
        var fields := msg.fields;
        var to := fields["to"];
        if to.JStr? {
          if to.s == "ALL" {
            fields := fields["to" := JList([JStr("ALL")])];
          } else {
            fields := fields["to" := JList(RecipientList(to.s))];
          }
        } else if !to.JList? {
          fields := fields["to" := JList([JStr("ALL")])];
        }
        assert JDict(fields) == Normalise(msg);
        valid := valid + [JDict(fields)];
      }
      assert selected[..i + 1][..i] == selected[..i] && selected[..i + 1][i] == msg;
      i := i + 1;
    }
    assert selected[..i] == selected;
  }

  /** The `selected_messages` list of a reply, `[]` when missing or not a list. */
  function SelectedOf(fields: map<string, Json>): seq<Json>
  {
    if "selected_messages" in fields && fields["selected_messages"].JList? then fields["selected_messages"].items else []
  }

  /** A reply dict after validation. */
  function Validated(fields: map<string, Json>): (r: map<string, Json>)
    ensures r.Keys == fields.Keys + {"selected_messages", "reason", "winner"}
    ensures r["selected_messages"] == JList(NormalisedMessages(SelectedOf(fields)))
    ensures r["reason"] == Get(fields, "reason", JStr("No reason provided"))
    ensures r["winner"] == Get(fields, "winner", JNull)
    ensures forall k :: k in fields && k != "selected_messages" ==> r[k] == fields[k]
  {
    var withSelected := fields["selected_messages" := JList(NormalisedMessages(SelectedOf(fields)))];
    var withReason := if "reason" in fields then withSelected else withSelected["reason" := JStr("No reason provided")];
    if "winner" in fields then withReason else withReason["winner" := JNull]
  }

  /** Validating a validated reply changes nothing. */
  lemma ValidatedIdempotent(fields: map<string, Json>)
    ensures Validated(Validated(fields)) == Validated(fields)
  {
    var v := Validated(fields);
    NormalisedMessagesOfNormalised(NormalisedMessages(SelectedOf(fields)));
    assert SelectedOf(v) == NormalisedMessages(SelectedOf(fields));
    assert Validated(v).Keys == v.Keys;
  }

  /** Lines 459-489 (sdg_core.py) on the reply dict, updating it in place. */
  method Validate(fields: map<string, Json>) returns (response: map<string, Json>)
    ensures response == Validated(fields)
  {
    response := fields;
    if "selected_messages" !in response {
      response := response["selected_messages" := JList([])];
    }
    if !response["selected_messages"].JList? {
      response := response["selected_messages" := JList([])];
    }
    var valid := ValidMessages(response["selected_messages"].items);
    response := response["selected_messages" := JList(valid)];
    if "reason" !in response {
      response := response["reason" := JStr("No reason provided")];
    }
    if "winner" !in response {
      response := response["winner" := JNull];
    }
  }

  /** The texts of the two fallback replies of one variant. */
  datatype FallbackTexts = FallbackTexts(invalid: string, errorPrefix: string)

  /** A fallback reply: no message selected. */
  function Fallback(reason: string): (r: Json)
    ensures r.JDict? && "selected_messages" in r.fields && "reason" in r.fields
    ensures r.fields["selected_messages"] == JList([]) && r.fields["reason"] == JStr(reason)
  {
    JDict(map["selected_messages" := JList([]), "reason" := JStr(reason)])
  }

  /** One attempt: a raised exception or an empty / non-dict reply fails. */
  function ArbitrationAttempt(outcome: CallOutcome, clean: string -> Json, texts: FallbackTexts): Attempt<Json>
  {
    match outcome
    case Threw(e) => Failed(Fallback(texts.errorPrefix + e))
    case Returned(v) =>
      var reply := if v.JStr? then clean(v.s) else v;
      if !Truthy(reply) || !reply.JDict? then Failed(Fallback(texts.invalid))
      else Done(JDict(Validated(reply.fields)))
  }

  function ArbitrationAttempts(calls: nat -> CallOutcome, clean: string -> Json, texts: FallbackTexts): nat -> Attempt<Json>
  {
    (i: nat) => ArbitrationAttempt(calls(i), clean, texts)
  }

  /** A reply the distribution code can rely on: a dict whose `selected_messages` is a list
      of normalised entries and which has a `reason`. */
  predicate Usable(r: Json)
  {
    r.JDict? && "selected_messages" in r.fields && "reason" in r.fields && r.fields["selected_messages"].JList?
    && forall i :: 0 <= i < |r.fields["selected_messages"].items| ==> Normalised(r.fields["selected_messages"].items[i])
  }

  /** Every arbitration result is usable, and is what attempt k made of call k: its
      validated reply, or its fallback. */
  lemma ArbitrationUsable(calls: nat -> CallOutcome, clean: string -> Json, texts: FallbackTexts, maxRetries: int, r: Json)
    returns (k: nat)
    requires Retried(ArbitrationAttempts(calls, clean, texts), maxRetries) == Some(r)
    ensures Usable(r)
    ensures k < maxRetries
    ensures ArbitrationAttempt(calls(k), clean, texts) == Done(r) || ArbitrationAttempt(calls(k), clean, texts) == Failed(r)
    ensures r.fields["selected_messages"] == JList([]) || calls(k).Returned?
  {
    var attempts := ArbitrationAttempts(calls, clean, texts);
    k := RetriedCases(attempts, maxRetries, r);
    assert attempts(k) == ArbitrationAttempt(calls(k), clean, texts);
  }

  /** When every attempt fails, the result selects no message and gives the last failure's
      reason. */
  lemma ArbitrationExhausted(calls: nat -> CallOutcome, clean: string -> Json, texts: FallbackTexts, maxRetries: int)
    requires maxRetries >= 1
    requires forall j :: 0 <= j < maxRetries ==> ArbitrationAttempt(calls(j), clean, texts).Failed?
    ensures Retried(ArbitrationAttempts(calls, clean, texts), maxRetries)
      == Some(if calls(maxRetries - 1).Threw? then Fallback(texts.errorPrefix + calls(maxRetries - 1).error)
              else Fallback(texts.invalid))
  {
    var attempts := ArbitrationAttempts(calls, clean, texts);
    forall j | 0 <= j < maxRetries ensures attempts(j).Failed? {
      assert attempts(j) == ArbitrationAttempt(calls(j), clean, texts);
    }
    RetriedExhausted(attempts, maxRetries);
  }
}
