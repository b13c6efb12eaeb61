/** The helpers of llm_utils.py: the lax model-specification parser and the response
    cleaner without the quote and colon fixes (the variant agents.py uses). */
module LlmUtils {
  import opened PyBuiltins
  import opened Sanitizer

  /** An `api:model_name` pair. */
  datatype ModelSpec = ModelSpec(api: string, model: string)

  /** `parse_model_spec`: split at the first `:` and strip both halves; no lower-casing
      and no check of the API source or of an empty model name. */
  function ParseModelSpec(spec: string): (r: Result<ModelSpec>)
    ensures r.Err? <==> ':' !in spec
    ensures r.Err? ==> r.msg == "Invalid model specification: " + spec
    ensures r.Ok? ==> ':' !in r.value.api && Stripped(r.value.api) && Stripped(r.value.model)
  {
    match FirstIndex(spec, ':')
    case None => Err("Invalid model specification: " + spec)
    case Some(i) =>
      StripKeepsChars(spec[..i]);
      Ok(ModelSpec(Strip(spec[..i]), Strip(spec[i + 1..])))
  }

  /** Any specification with a colon is a colon-free source, the first `:`, and the rest:
      the result is those two halves, each stripped. */
  lemma ParseModelSpecSplits(api: string, model: string)
    requires ':' !in api
    ensures ParseModelSpec(api + ":" + model) == Ok(ModelSpec(Strip(api), Strip(model)))
  {
    var s := api + ":" + model;
    assert s[|api|] == ':';
    assert s[..|api|] == api;
    assert s[|api| + 1..] == model;
    FirstIndexAt(s, ':', |api|);
  }

  /** Formatting a pair as `api:model` and parsing it back gives the pair. */
  lemma ParseModelSpecOfJoined(api: string, model: string)
    requires ':' !in api && Stripped(api) && Stripped(model)
    ensures ParseModelSpec(api + ":" + model) == Ok(ModelSpec(api, model))
  {
    ParseModelSpecSplits(api, model);
    StripOfStripped(api);
    StripOfStripped(model);
  }

  /** Only the first colon separates: the rest stays in the model name. */
  lemma ParseModelSpecKeepsLaterColons()
    ensures ParseModelSpec("a::b") == Ok(ModelSpec("a", ":b"))
  {
    assert "a" + ":" + ":b" == "a::b";
    ParseModelSpecOfJoined("a", ":b");
  }

  /** `clean_json_response`: `{}` for a value that is not a string; otherwise the parse of
      the repaired text, else the parse of its filtered form, else `{}`. */
  function CleanJsonResponse(response: Json, parse: string -> Option<Json>): (r: Json)
    ensures !response.JStr? ==> r == JDict(map[])
  {
    if !response.JStr? then JDict(map[])
    else
      var text := CommonRepairs(response.s);
      match parse(text)
      case Some(v) => v
      case None =>
        match parse(FallbackFilter(text))
        case Some(v) => v
        case None => JDict(map[])
  }

  /** What a parse is ever given: a decode error never escapes, and the result is `{}` or
      the parse of a text with no control character and no `'`, or of a text made only
      of JSON punctuation, digits and whitespace. The first parse wins when it succeeds. */
  lemma CleanJsonResponseParses(response: Json, parse: string -> Option<Json>) returns (text: Option<string>)
    ensures text.None? ==> CleanJsonResponse(response, parse) == JDict(map[])
    ensures text.Some? ==> parse(text.value) == Some(CleanJsonResponse(response, parse))
    ensures text.Some? ==> ParseReady(text.value) || forall c :: c in text.value ==> IsFallbackChar(c)
    ensures response.JStr? && parse(CommonRepairs(response.s)).Some? ==> text == Some(CommonRepairs(response.s))
  {
    if !response.JStr? {
      return None;
    }
    var first := CommonRepairs(response.s);
    CommonRepairsParseReady(response.s);
    if parse(first).Some? {
      return Some(first);
    }
    FallbackOnlyKeepsJsonPunctuation(first);
    if parse(FallbackFilter(first)).Some? {
      return Some(FallbackFilter(first));
    }
    return None;
  }
}
