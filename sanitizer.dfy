/** The text rewrites the response cleaners apply, one function per regular-expression
    substitution, each written as the left-to-right scan `re.sub` performs: at each
    position the pattern either matches (the match is replaced and the scan resumes
    after it) or the character is copied and the scan moves on by one. */
module Sanitizer {
  import opened PyBuiltins

  const Fence: string := "```"

  /** Characters `[\x00-\x1F\x7F]`. */
  predicate IsControl(c: char)
  {
    c as int < 0x20 || c as int == 0x7F
  }

  /** Characters `[{}\[\]",:0-9\s]`, the only ones the last-resort filter keeps. */
  predicate IsFallbackChar(c: char)
  {
    c in "{}[]\",:" || '0' <= c <= '9' || IsSpace(c)
  }

  predicate IsIdentStart(c: char)
  {
    'a' <= c <= 'z' || 'A' <= c <= 'Z' || c == '_'
  }

  predicate IsIdentChar(c: char)
  {
    IsIdentStart(c) || '0' <= c <= '9'
  }

  /** `[a-zA-Z_][a-zA-Z0-9_]*` matches the whole of s. */
  predicate IsIdentifier(s: string)
  {
    |s| >= 1 && IsIdentStart(s[0]) && forall i :: 0 <= i < |s| ==> IsIdentChar(s[i])
  }

  /** The end of the run of identifier characters that starts at index i of s. */
  function IdentEnd(s: string, i: nat): (j: nat)
    requires i <= |s|
    ensures i <= j <= |s|
    ensures i < |s| && IsIdentChar(s[i]) ==> i < j
    decreases |s| - i
  {
    if i == |s| || !IsIdentChar(s[i]) then i else IdentEnd(s, i + 1)
  }

  /** The end of the run of whitespace that starts at index i of s. */
  function SpaceEnd(s: string, i: nat): (j: nat)
    requires i <= |s|
    ensures i <= j <= |s|
    decreases |s| - i
  {
    if i == |s| || !IsSpace(s[i]) then i else SpaceEnd(s, i + 1)
  }

  /** The end of the run of characters other than a double quote (`[^"]*`) that starts
      at index i of s. */
  function UnquotedEnd(s: string, i: nat): (j: nat)
    requires i <= |s|
    ensures i <= j <= |s|
    decreases |s| - i
  {
    if i == |s| || s[i] == '"' then i else UnquotedEnd(s, i + 1)
  }

  /** Every character of r occurs in s or is one of extra. */
  predicate CharsFrom(r: string, s: string, extra: set<char>)
  {
    forall c :: c in r ==> c in s || c in extra
  }

  /** Every character of a suffix of s is a character of s. */
  lemma SliceChars(s: string, i: nat)
    requires i <= |s|
    ensures forall c :: c in s[i..] ==> c in s
    ensures forall j, c :: i <= j <= |s| && c in s[i..j] ==> c in s
  {
    forall j, c | i <= j <= |s| && c in s[i..j] ensures c in s {
      var k :| 0 <= k < j - i && s[i..j][k] == c;
      assert s[i + k] == c;
    }
    forall c | c in s[i..] ensures c in s {
      assert s[i..] == s[i..|s|];
    }
  }

  /** Position of the first occurrence of c, if any. */
  function FirstIndex(s: string, c: char): (r: Option<nat>)
    ensures r.None? <==> c !in s
    ensures r.Some? ==> r.value < |s| && s[r.value] == c && c !in s[..r.value]
  {
    if s == [] then None
    else if s[0] == c then Some(0)
    else
      var rest := FirstIndex(s[1..], c);
      if rest.None? then None
      else
        assert s[..rest.value + 1] == [s[0]] + s[1..][..rest.value];
        Some(rest.value + 1)
  }

  /** The first occurrence is where c occurs with no c before it. */
  lemma {:induction false} FirstIndexAt(s: string, c: char, k: nat)
    requires k < |s| && s[k] == c && c !in s[..k]
    ensures FirstIndex(s, c) == Some(k)
  {
    if k > 0 {
      assert s[0] == s[..k][0];
      assert s[1..][..k - 1] == s[..k][1..];
      FirstIndexAt(s[1..], c, k - 1);
    }
  }

  /** Position of the last occurrence of c, if any. */
  function LastIndex(s: string, c: char): (r: Option<nat>)
    ensures r.None? <==> c !in s
    ensures r.Some? ==> r.value < |s| && s[r.value] == c && c !in s[r.value + 1..]
  {
    if s == [] then None
    else if s[|s| - 1] == c then Some(|s| - 1)
    else
      var rest := LastIndex(s[..|s| - 1], c);
      if rest.None? then
        assert s == s[..|s| - 1] + [s[|s| - 1]];
        None
      else
        assert s[rest.value + 1..] == s[..|s| - 1][rest.value + 1..] + [s[|s| - 1]];
        Some(rest.value)
  }

  /** `re.sub(r'^[^{]*({.*})[^}]*$', r'\1', s, flags=re.DOTALL)`: when a `}` follows
      the first `{`, the text from the first `{` to the last `}`; otherwise s unchanged. */
  function ExtractBraces(s: string): string
  {
    match FirstIndex(s, '{')
    case None => s
    case Some(f) =>
      match LastIndex(s, '}')
      case None => s
      case Some(l) => if l < f then s else s[f..l + 1]
  }

  /** What the brace extraction keeps: from the first `{` to the last `}` when such a
      `}` follows that `{`, and everything otherwise. */
  lemma ExtractBracesKeepsOutermost(s: string)
    ensures '{' in s && '}' in s[FirstIndex(s, '{').value..] ==>
              exists f, l :: 0 <= f <= l < |s| && ExtractBraces(s) == s[f..l + 1]
                && s[f] == '{' && '{' !in s[..f] && s[l] == '}' && '}' !in s[l + 1..]
    ensures !('{' in s && '}' in s[FirstIndex(s, '{').value..]) ==> ExtractBraces(s) == s
  {
    if '{' in s && '}' in s[FirstIndex(s, '{').value..] {
      var f, l := ExtractBracesFound(s);
    } else {
      ExtractBracesUnchanged(s);
    }
  }

  lemma ExtractBracesFound(s: string) returns (f: nat, l: nat)
    requires '{' in s && '}' in s[FirstIndex(s, '{').value..]
    ensures 0 <= f <= l < |s| && ExtractBraces(s) == s[f..l + 1]
    ensures s[f] == '{' && '{' !in s[..f] && s[l] == '}' && '}' !in s[l + 1..]
  {
    f := FirstIndex(s, '{').value;
    match LastIndex(s, '}')
    case None =>
      NoCloserIn(s, f);
      assert false;
    case Some(l') =>
      l := l';
      if l < f {
        NoCloserAfter(s, l, f);
        assert false;
      }
      ExtractBracesAt(s, f, l);
  }

  lemma ExtractBracesUnchanged(s: string)
    requires !('{' in s && '}' in s[FirstIndex(s, '{').value..])
    ensures ExtractBraces(s) == s
  {
    match FirstIndex(s, '{')
    case None =>
    case Some(f) =>
      match LastIndex(s, '}')
      case None =>
      case Some(l) =>
        if f <= l {
          CloserAfter(s, f, l);
        }
  }

  lemma ExtractBracesAt(s: string, f: nat, l: nat)
    requires FirstIndex(s, '{') == Some(f) && LastIndex(s, '}') == Some(l) && f <= l
    ensures ExtractBraces(s) == s[f..l + 1] && '}' in s[f..]
    ensures s[f] == '{' && '{' !in s[..f] && s[l] == '}' && '}' !in s[l + 1..]
  {
    assert ExtractBraces(s) == s[f..l + 1];
    CloserAfter(s, f, l);
  }

  lemma NoCloserIn(s: string, f: nat)
    requires f <= |s| && '}' !in s
    ensures '}' !in s[f..]
  {
    SliceChars(s, f);
  }

  lemma NoCloserAfter(s: string, l: nat, f: nat)
    requires l < f <= |s| && '}' !in s[l + 1..]
    ensures '}' !in s[f..]
  {
    assert s[f..] == s[l + 1..][f - l - 1..];
  }

  lemma CloserAfter(s: string, f: nat, l: nat)
    requires f <= l < |s| && s[l] == '}'
    ensures '}' in s[f..]
  {
    assert s[f..][l - f] == '}';
  }

  /** One step of ``re.sub(r"```json\s*|\s*```", "", s)`` at the start of s: the text
      written and the number of characters consumed. */
  function FenceStep(s: string): (r: (string, nat))
    requires s != []
    ensures 1 <= r.1 <= |s|
  {
    if OpensJson(s) then ([], SpaceEnd(s, 7))
    else
      var w := SpaceEnd(s, 0);
      if FenceAt(s, w) then ([], w + 3) else ([s[0]], 1)
  }

  /** A fence "```" starts at index i of s. */
  predicate FenceAt(s: string, i: nat)
  {
    i + 3 <= |s| && s[i] == '`' && s[i + 1] == '`' && s[i + 2] == '`'
  }

  /** s starts with "```json". */
  predicate OpensJson(s: string)
  {
    FenceAt(s, 0) && 7 <= |s| && s[3] == 'j' && s[4] == 's' && s[5] == 'o' && s[6] == 'n'
  }

  /** ``re.sub(r"```json\s*|\s*```", "", s)``. */
  function StripFences(s: string): string
    decreases |s|
  {
    if s == [] then []
    else
      var step := FenceStep(s);
      step.0 + StripFences(s[step.1..])
  }

  /** Fence stripping only removes characters. */
  lemma {:induction false} StripFencesRemovesOnly(s: string)
    ensures CharsFrom(StripFences(s), s, {})
    decreases |s|
  {
    if s != [] {
      var step := FenceStep(s);
      assert step.0 == [] || step.0 == [s[0]];
      StripFencesRemovesOnly(s[step.1..]);
      SliceChars(s, step.1);
    }
  }

  /** One step of `re.sub(r",\s*<close>", "<close>", s)` at the start of s. */
  function DropCommaStep(s: string, close: char): (r: (string, nat))
    requires s != []
    ensures 1 <= r.1 <= |s| && |r.0| <= r.1
  {
    if s[0] == ',' && SpaceEnd(s, 1) < |s| && s[SpaceEnd(s, 1)] == close then
      ([close], SpaceEnd(s, 1) + 1)
    else ([s[0]], 1)
  }

  /** `re.sub(r",\s*}", "}", s)` (close = `}`) and `re.sub(r",\s*]", "]", s)` (close = `]`):
      one pass, so a comma left in front of a closer by an earlier match stays. */
  function DropCommaBefore(s: string, close: char): (r: string)
    ensures |r| <= |s|
    decreases |s|
  {
    if s == [] then []
    else
      var step := DropCommaStep(s, close);
      step.0 + DropCommaBefore(s[step.1..], close)
  }

  /** `re.sub(r"[\x00-\x1F\x7F]", "", s)`. */
  function StripControl(s: string): (r: string)
    ensures forall c :: c in r ==> !IsControl(c)
    ensures CharsFrom(r, s, {})
  {
    if s == [] then []
    else
      SliceChars(s, 1);
      (if IsControl(s[0]) then [] else [s[0]]) + StripControl(s[1..])
  }

  /** `re.sub(r'[^{}\[\]",:0-9\s]', '', s)`. */
  function FallbackFilter(s: string): (r: string)
    ensures forall c :: c in r ==> IsFallbackChar(c)
    ensures CharsFrom(r, s, {})
  {
    if s == [] then []
    else
      SliceChars(s, 1);
      (if IsFallbackChar(s[0]) then [s[0]] else []) + FallbackFilter(s[1..])
  }

  /** Where `([{,])\s*([a-zA-Z_][a-zA-Z0-9_]*)\s*:` matches at the start of s: the key
      occupies s[keyStart..keyEnd] and the match ends before `next`. */
  datatype KeyMatch = KeyMatch(keyStart: nat, keyEnd: nat, next: nat)

  function MatchBareKey(s: string): (m: Option<KeyMatch>)
    ensures m.Some? ==>
      s != [] && 1 <= m.value.keyStart < m.value.keyEnd < m.value.next <= |s| && s[m.value.next - 1] == ':'
  {
    if s == [] || (s[0] != '{' && s[0] != ',') then None
    else KeyFrom(s, SpaceEnd(s, 1))
  }

  /** The rest of the bare-key match once the whitespace after the separator is skipped. */
  function KeyFrom(s: string, q: nat): (m: Option<KeyMatch>)
    requires 1 <= q <= |s|
    ensures m.Some? ==> q == m.value.keyStart < m.value.keyEnd < m.value.next <= |s| && s[m.value.next - 1] == ':'
  {
    if q < |s| && IsIdentStart(s[q]) then ColonFrom(s, q, IdentEnd(s, q)) else None
  }

  /** The rest of the bare-key match once the key s[q..k] is read. */
  function ColonFrom(s: string, q: nat, k: nat): (m: Option<KeyMatch>)
    requires q < k <= |s|
    ensures m.Some? ==> q == m.value.keyStart && k == m.value.keyEnd < m.value.next <= |s| && s[m.value.next - 1] == ':'
  {
    var e := SpaceEnd(s, k);
    if e < |s| && s[e] == ':' then Some(KeyMatch(q, k, e + 1)) else None
  }

  /** One step of the bare-key repair at the start of s: the text written and the
      number of characters consumed. */
  function QuoteStep(s: string): (r: (string, nat))
    requires s != []
    ensures 1 <= r.1 <= |s|
  {
    match MatchBareKey(s)
    case Some(m) => ([s[0], '"'] + s[m.keyStart..m.keyEnd] + ['"', ':'], m.next)
    case None => ([s[0]], 1)
  }

  /** `re.sub(r'([{,])\s*([a-zA-Z_][a-zA-Z0-9_]*)\s*:', r'\1"\2":', s)`. */
  function QuoteBareKeys(s: string): string
    decreases |s|
  {
    if s == [] then []
    else
      var step := QuoteStep(s);
      step.0 + QuoteBareKeys(s[step.1..])
  }

  /** One step adds no character but a double quote. */
  lemma QuoteStepAddsOnlyQuotes(s: string)
    requires s != []
    ensures CharsFrom(QuoteStep(s).0, s, {'"'})
  {
    assert s[0] in s;
    match MatchBareKey(s)
    case Some(m) =>
      SliceChars(s, m.keyStart);
      assert s[m.next - 1] in s;
    case None =>
  }

  /** The bare-key repair adds no character but a double quote. */
  lemma {:induction false} QuoteAddsOnlyQuotes(s: string)
    ensures CharsFrom(QuoteBareKeys(s), s, {'"'})
    decreases |s|
  {
    if s != [] {
      var step := QuoteStep(s);
      QuoteStepAddsOnlyQuotes(s);
      QuoteAddsOnlyQuotes(s[step.1..]);
      SliceChars(s, step.1);
    }
  }

  /** `re.sub(r"'", '"', s)`. */
  function SingleToDouble(s: string): (r: string)
    ensures |r| == |s|
    ensures forall i :: 0 <= i < |s| ==> r[i] == (if s[i] == '\'' then '"' else s[i])
  {
    seq(|s|, i requires 0 <= i < |s| => if s[i] == '\'' then '"' else s[i])
  }

  /** Where `:\s*"([^"]*)"([^"]*)"` matches at the start of s: the groups are
      s[open + 1..mid] and s[mid + 1..close], and the match ends at close. */
  datatype QuoteMatch = QuoteMatch(open: nat, mid: nat, close: nat)

  function MatchUnescaped(s: string): (m: Option<QuoteMatch>)
    ensures m.Some? ==>
      s != [] && s[0] == ':' && 1 <= m.value.open < m.value.mid < m.value.close < |s| && s[m.value.open] == '"'
  {
    if s == [] || s[0] != ':' then None
    else OpenQuoteFrom(s, SpaceEnd(s, 1))
  }

  /** The rest of the match once the whitespace after the colon is skipped. */
  function OpenQuoteFrom(s: string, o: nat): (m: Option<QuoteMatch>)
    requires 1 <= o <= |s|
    ensures m.Some? ==> o == m.value.open < m.value.mid < m.value.close < |s| && s[o] == '"'
  {
    if o < |s| && s[o] == '"' then SecondGroupFrom(s, o, UnquotedEnd(s, o + 1)) else None
  }

  /** The rest of the match once the first group s[o + 1..md] is read. */
  function SecondGroupFrom(s: string, o: nat, md: nat): (m: Option<QuoteMatch>)
    requires o < md <= |s|
    ensures m.Some? ==> o == m.value.open && md == m.value.mid < m.value.close < |s|
  {
    if md < |s| then
      var c := UnquotedEnd(s, md + 1);
      if c < |s| then Some(QuoteMatch(o, md, c)) else None
    else None
  }

  /** One step of the unescaped-quote repair at the start of s: the text written and
      the number of characters consumed. */
  function MergeStep(s: string): (r: (string, nat))
    requires s != []
    ensures 1 <= r.1 <= |s|
  {
    if s[0] != ':' then ([s[0]], 1)
    else
      match MatchUnescaped(s)
      case Some(m) => ([':', ' ', '"'] + s[m.open + 1..m.mid] + s[m.mid + 1..m.close] + ['"'], m.close + 1)
      case None => ([s[0]], 1)
  }

  /** `re.sub(r':\s*"([^"]*)"([^"]*)"', r': "\1\2"', s)`. */
  function MergeUnescapedQuotes(s: string): string
    decreases |s|
  {
    if s == [] then []
    else
      var step := MergeStep(s);
      step.0 + MergeUnescapedQuotes(s[step.1..])
  }

  /** One step adds no character but a space: the colon and the quotes it writes were
      in the match. */
  lemma MergeStepAddsOnlySpace(s: string)
    requires s != []
    ensures CharsFrom(MergeStep(s).0, s, {' '})
  {
    if s[0] == ':' {
      match MatchUnescaped(s)
      case Some(m) =>
        SliceChars(s, m.open + 1);
        SliceChars(s, m.mid + 1);
        assert s[0] in s && s[m.open] in s;
      case None =>
        assert s[0] in s;
    } else {
      assert s[0] in s;
    }
  }

  /** The unescaped-quote repair adds no character but a space. */
  lemma {:induction false} MergeAddsOnlySpace(s: string)
    ensures CharsFrom(MergeUnescapedQuotes(s), s, {' '})
    decreases |s|
  {
    if s != [] {
      var step := MergeStep(s);
      MergeStepAddsOnlySpace(s);
      MergeAddsOnlySpace(s[step.1..]);
      SliceChars(s, step.1);
    }
  }

  /** One step of `re.sub(a + r'\s*' + b, a + b, s)` at the start of s: the text
      written and the number of characters consumed. */
  function TightenStep(s: string, a: char, b: char): (r: (string, nat))
    requires s != []
    ensures 1 <= r.1 <= |s| && |r.0| <= r.1
  {
    if s[0] == a && SpaceEnd(s, 1) < |s| && s[SpaceEnd(s, 1)] == b then ([a, b], SpaceEnd(s, 1) + 1)
    else ([s[0]], 1)
  }

  /** `re.sub(a + r'\s*' + b, a + b, s)`: the whitespace between a and b is removed. */
  function Tighten(s: string, a: char, b: char): (r: string)
    ensures |r| <= |s|
    decreases |s|
  {
    if s == [] then []
    else
      var step := TightenStep(s, a, b);
      step.0 + Tighten(s[step.1..], a, b)
  }

  /** `re.sub(r'"\s*:', '":', s)`. */
  function TightenBeforeColon(s: string): string
  {
    Tighten(s, '"', ':')
  }

  /** `re.sub(r':\s*"', ':"', s)`. */
  function TightenAfterColon(s: string): string
  {
    Tighten(s, ':', '"')
  }

  /** One step writes only characters of the text it reads. */
  lemma TightenStepAddsNothing(s: string, a: char, b: char)
    requires s != []
    ensures CharsFrom(TightenStep(s, a, b).0, s, {})
  {
    assert s[0] in s;
    if s[0] == a && SpaceEnd(s, 1) < |s| && s[SpaceEnd(s, 1)] == b {
      assert s[SpaceEnd(s, 1)] in s;
    }
  }

  /** At a match, `a`, the whitespace after it and `b` become `ab`, and the scan goes on
      after `b`. */
  lemma TightenRemovesSpace(ws: string, a: char, b: char, rest: string)
    requires AllSpace(ws) && !IsSpace(b)
    ensures Tighten([a] + ws + [b] + rest, a, b) == [a, b] + Tighten(rest, a, b)
  {
    var s := [a] + ws + [b] + rest;
    SpaceEndOver(s, 1, ws);
    assert s[2 + |ws|..] == rest;
  }

  /** Tightening removes characters and adds none. */
  lemma {:induction false} TightenAddsNothing(s: string, a: char, b: char)
    ensures CharsFrom(Tighten(s, a, b), s, {})
    decreases |s|
  {
    if s != [] {
      var step := TightenStep(s, a, b);
      TightenStepAddsNothing(s, a, b);
      TightenAddsNothing(s[step.1..], a, b);
      SliceChars(s, step.1);
    }
  }

  /** The repairs both cleaners apply, in order, before the first parse. */
  function CommonRepairs(s: string): string
  {
    var braces := ExtractBraces(s);
    var unfenced := StripFences(braces);
    var noTrailing := DropCommaBefore(DropCommaBefore(unfenced, '}'), ']');
    SingleToDouble(QuoteBareKeys(StripControl(noTrailing)))
  }

  /** The three further repairs of the fuller cleaner. */
  function ExtendedRepairs(s: string): string
  {
    TightenAfterColon(TightenBeforeColon(MergeUnescapedQuotes(CommonRepairs(s))))
  }

  /** No character below 0x20, no 0x7F and no single quote. */
  predicate ParseReady(s: string)
  {
    forall c :: c in s ==> !IsControl(c) && c != '\''
  }

  lemma CommonRepairsParseReady(s: string)
    ensures ParseReady(CommonRepairs(s))
  {
    var noTrailing := DropCommaBefore(DropCommaBefore(StripFences(ExtractBraces(s)), '}'), ']');
    var quoted := QuoteBareKeys(StripControl(noTrailing));
    QuoteAddsOnlyQuotes(StripControl(noTrailing));
    assert forall c :: c in quoted ==> !IsControl(c);
    var r := SingleToDouble(quoted);
    forall c | c in r ensures !IsControl(c) && c != '\'' {
      var i :| 0 <= i < |r| && r[i] == c;
      assert quoted[i] in quoted;
    }
  }

  lemma ExtendedRepairsParseReady(s: string)
    ensures ParseReady(ExtendedRepairs(s))
  {
    CommonRepairsParseReady(s);
    MergeAddsOnlySpace(CommonRepairs(s));
    TightenAddsNothing(MergeUnescapedQuotes(CommonRepairs(s)), '"', ':');
    TightenAddsNothing(TightenBeforeColon(MergeUnescapedQuotes(CommonRepairs(s))), ':', '"');
  }

  /** The text the second parse sees holds only `{}[]",:`, digits and whitespace. */
  lemma FallbackOnlyKeepsJsonPunctuation(s: string)
    ensures forall c :: c in FallbackFilter(s) ==> IsFallbackChar(c)
    ensures forall c :: c in s && IsFallbackChar(c) ==> c in FallbackFilter(s)
  {
    if s != [] {
      FallbackOnlyKeepsJsonPunctuation(s[1..]);
      assert s == [s[0]] + s[1..];
    }
  }

  /** A second extraction changes nothing: the kept text starts with `{` and ends with `}`. */
  lemma ExtractBracesIdempotent(s: string)
    ensures ExtractBraces(ExtractBraces(s)) == ExtractBraces(s)
  {
    match FirstIndex(s, '{')
    case None =>
    case Some(f) =>
      match LastIndex(s, '}')
      case None =>
      case Some(l) =>
        if f <= l {
          assert ExtractBraces(s) == s[f..l + 1];
          ExtractBracesOfBraced(s[f..l + 1]);
        }
  }

  lemma ExtractBracesOfBraced(r: string)
    requires |r| >= 1 && r[0] == '{' && r[|r| - 1] == '}'
    ensures ExtractBraces(r) == r
  {
    assert FirstIndex(r, '{') == Some(0);
    assert LastIndex(r, '}') == Some(|r| - 1);
    assert r[0..|r|] == r;
  }

  /** The characters that are not commas or whitespace, in order. */
  function Skeleton(s: string): string
  {
    if s == [] then []
    else (if s[0] == ',' || IsSpace(s[0]) then [] else [s[0]]) + Skeleton(s[1..])
  }

  /** The characters that are not whitespace, in order. */
  function NonSpace(s: string): string
  {
    if s == [] then []
    else (if IsSpace(s[0]) then [] else [s[0]]) + NonSpace(s[1..])
  }

  lemma {:induction false} SkeletonAppend(a: string, b: string)
    ensures Skeleton(a + b) == Skeleton(a) + Skeleton(b)
    ensures NonSpace(a + b) == NonSpace(a) + NonSpace(b)
  {
    if a != [] {
      SkeletonAppend(a[1..], b);
      assert (a + b)[0] == a[0];
      assert (a + b)[1..] == a[1..] + b;
      assert Skeleton(a + b) == (if a[0] == ',' || IsSpace(a[0]) then [] else [a[0]]) + Skeleton(a[1..] + b);
      assert NonSpace(a + b) == (if IsSpace(a[0]) then [] else [a[0]]) + NonSpace(a[1..] + b);
    } else {
      assert a + b == b;
    }
  }

  lemma {:induction false} SkeletonOfSpace(ws: string)
    requires AllSpace(ws)
    ensures Skeleton(ws) == [] && NonSpace(ws) == []
  {
    if ws != [] {
      SkeletonOfSpace(ws[1..]);
    }
  }

  /** Splits s at the end of the match `<open>\s*<close>` found at its head. */
  lemma SplitAtMatch(s: string)
    requires |s| >= 1 && SpaceEnd(s, 1) < |s|
    ensures var e := SpaceEnd(s, 1);
            s == [s[0]] + s[1..e] + [s[e]] + s[e + 1..] && AllSpace(s[1..e])
  {
    var e := SpaceEnd(s, 1);
    SplitAround(s, e);
    SpaceEndSpans(s, 1);
    assert forall p :: 0 <= p < e - 1 ==> s[1..e][p] == s[p + 1];
  }

  lemma SplitAround(s: string, e: nat)
    requires 1 <= e < |s|
    ensures s == [s[0]] + s[1..e] + [s[e]] + s[e + 1..]
  {
    assert s == s[..e] + s[e..];
    assert s[..e] == [s[0]] + s[1..e];
    assert s[e..] == [s[e]] + s[e + 1..];
  }

  /** Everything between i and the end of the whitespace run from i is whitespace. */
  lemma {:induction false} SpaceEndSpans(s: string, i: nat)
    requires i <= |s|
    ensures forall p :: i <= p < SpaceEnd(s, i) ==> IsSpace(s[p])
    decreases |s| - i
  {
    if i < |s| && IsSpace(s[i]) {
      SpaceEndSpans(s, i + 1);
    }
  }

  /** Removing trailing commas takes away only commas and whitespace. */
  lemma {:induction false} DropCommaKeepsSkeleton(s: string, close: char)
    requires close != ',' && !IsSpace(close)
    ensures Skeleton(DropCommaBefore(s, close)) == Skeleton(s)
    decreases |s|
  {
    if s != [] {
      var step := DropCommaStep(s, close);
      DropCommaStepSkeleton(s, close);
      DropCommaKeepsSkeleton(s[step.1..], close);
      SkeletonCons(step.0[0], DropCommaBefore(s[step.1..], close));
    }
  }

  /** One step of the trailing-comma repair writes one character and keeps the skeleton
      of what it consumes. */
  lemma DropCommaStepSkeleton(s: string, close: char)
    requires close != ',' && !IsSpace(close) && s != []
    ensures var step := DropCommaStep(s, close);
      step.0 == [step.0[0]] &&
      Skeleton(s) == (if step.0[0] == ',' || IsSpace(step.0[0]) then [] else [step.0[0]]) + Skeleton(s[step.1..])
  {
    if s[0] == ',' && SpaceEnd(s, 1) < |s| && s[SpaceEnd(s, 1)] == close {
      SkeletonAtMatch(s, close);
    } else {
      SkeletonCons(s[0], s[1..]);
      assert s == [s[0]] + s[1..];
    }
  }

  lemma SkeletonCons(c: char, t: string)
    ensures Skeleton([c] + t) == (if c == ',' || IsSpace(c) then [] else [c]) + Skeleton(t)
  {
    assert ([c] + t)[1..] == t;
  }

  /** Where `,\s*<close>` matches at the head of s, the skeleton keeps only the closer. */
  lemma SkeletonAtMatch(s: string, close: char)
    requires close != ',' && !IsSpace(close)
    requires |s| >= 1 && s[0] == ',' && SpaceEnd(s, 1) < |s| && s[SpaceEnd(s, 1)] == close
    ensures Skeleton(s) == [close] + Skeleton(s[SpaceEnd(s, 1) + 1..])
  {
    var e := SpaceEnd(s, 1);
    SplitAtMatch(s);
    SkeletonOfMatch(s[1..e], close, s[e + 1..]);
  }

  lemma SkeletonOfMatch(ws: string, close: char, rest: string)
    requires close != ',' && !IsSpace(close) && AllSpace(ws)
    ensures Skeleton([','] + ws + [close] + rest) == [close] + Skeleton(rest)
  {
    SkeletonOfSpace(ws);
    SkeletonCons(',', ws);
    SkeletonCons(close, rest);
    SkeletonAppend([','] + ws, [close] + rest);
    assert [','] + ws + [close] + rest == ([','] + ws) + ([close] + rest);
  }

  /** Text without a comma passes through the trailing-comma step unchanged. */
  lemma {:induction false} DropCommaWithoutComma(s: string, close: char)
    requires ',' !in s
    ensures DropCommaBefore(s, close) == s
    decreases |s|
  {
    if s != [] {
      DropCommaWithoutComma(s[1..], close);
      assert s == [s[0]] + s[1..];
    }
  }

  /** A comma before a closer is dropped together with the whitespace between them. */
  lemma DropCommaRemovesTrailingComma(ws: string, close: char, rest: string)
    requires AllSpace(ws) && !IsSpace(close)
    ensures DropCommaBefore([','] + ws + [close] + rest, close) == [close] + DropCommaBefore(rest, close)
  {
    var s := [','] + ws + [close] + rest;
    SpaceEndOver(s, 1, ws);
    assert s[2 + |ws|..] == rest;
  }

  /** A single pass: of two commas before `}` only the last goes. */
  lemma DropCommaSinglePass()
    ensures DropCommaBefore(",,}", '}') == ",}"
  {
    DropCommaRemovesTrailingComma([], '}', []);
    assert ",,}"[1..] == [','] + [] + ['}'] + [];
  }

  /** A run of whitespace ws written at index i ends where ws does. */
  lemma SpaceEndOver(s: string, i: nat, ws: string)
    requires i + |ws| <= |s| && s[i..i + |ws|] == ws && AllSpace(ws)
    requires i + |ws| == |s| || !IsSpace(s[i + |ws|])
    ensures SpaceEnd(s, i) == i + |ws|
  {
    forall p | i <= p < i + |ws| ensures IsSpace(s[p]) {
      assert s[p] == ws[p - i];
    }
    SpaceEndAt(s, i, i + |ws|);
  }

  /** NonSpace of a match `<open>\s*<close>` followed by rest. */
  lemma NonSpaceOfMatch(a: char, ws: string, c: char, rest: string)
    requires AllSpace(ws) && !IsSpace(a) && !IsSpace(c)
    ensures NonSpace([a] + ws + [c] + rest) == [a, c] + NonSpace(rest)
  {
    var tail := [c] + rest;
    assert [a] + ws + [c] + rest == [a] + (ws + tail);
    assert ([a] + (ws + tail))[1..] == ws + tail;
    SkeletonOfSpace(ws);
    SkeletonAppend(ws, tail);
    assert tail[1..] == rest;
  }

  /** One step keeps the characters that are not whitespace, a and b among them. */
  lemma TightenStepKeepsNonSpace(s: string, a: char, b: char)
    requires s != [] && !IsSpace(a) && !IsSpace(b)
    ensures NonSpace(TightenStep(s, a, b).0) == NonSpace(s[..TightenStep(s, a, b).1])
  {
    if s[0] == a && SpaceEnd(s, 1) < |s| && s[SpaceEnd(s, 1)] == b {
      var e := SpaceEnd(s, 1);
      SplitAtMatch(s);
      assert s[..e + 1] == [a] + s[1..e] + [b] + [];
      NonSpaceOfMatch(a, s[1..e], b, []);
      assert [a, b] == [a] + [b];
      SkeletonAppend([a], [b]);
    } else {
      assert s[..1] == [s[0]];
    }
  }

  /** The colon-tightening steps take away only whitespace. */
  lemma {:induction false} TightenKeepsNonSpace(s: string, a: char, b: char)
    requires !IsSpace(a) && !IsSpace(b)
    ensures NonSpace(Tighten(s, a, b)) == NonSpace(s)
    decreases |s|
  {
    if s != [] {
      var step := TightenStep(s, a, b);
      TightenStepKeepsNonSpace(s, a, b);
      TightenKeepsNonSpace(s[step.1..], a, b);
      SkeletonAppend(step.0, Tighten(s[step.1..], a, b));
      SkeletonAppend(s[..step.1], s[step.1..]);
      assert s == s[..step.1] + s[step.1..];
    }
  }


  /** Text without a backtick passes through fence stripping unchanged. */
  lemma {:induction false} StripFencesWithoutBacktick(s: string)
    requires '`' !in s
    ensures StripFences(s) == s
    decreases |s|
  {
    if s != [] {
      NoBacktickSkipsChar(s);
      assert '`' !in s[1..] by { SliceChars(s, 1); }
      StripFencesWithoutBacktick(s[1..]);
      assert s == [s[0]] + s[1..];
    }
  }

  lemma NoBacktickSkipsChar(s: string)
    requires s != [] && '`' !in s
    ensures StripFences(s) == [s[0]] + StripFences(s[1..])
  {
    if SpaceEnd(s, 0) < |s| {
      assert s[SpaceEnd(s, 0)] in s;
    }
    StripFencesSkipsChar(s);
  }

  /** Where no fence starts at the head of s or after its leading whitespace, the first
      character is copied. */
  lemma StripFencesSkipsChar(s: string)
    requires s != [] && s[0] != '`' && (SpaceEnd(s, 0) == |s| || s[SpaceEnd(s, 0)] != '`')
    ensures StripFences(s) == [s[0]] + StripFences(s[1..])
  {
    FenceStepCopies(s);
  }

  lemma FenceStepCopies(s: string)
    requires s != [] && s[0] != '`' && (SpaceEnd(s, 0) == |s| || s[SpaceEnd(s, 0)] != '`')
    ensures FenceStep(s) == ([s[0]], 1)
  {
  }

  lemma {:induction false} SpaceEndStopsAt(s: string, i: nat, k: nat)
    requires i <= k < |s| && !IsSpace(s[k])
    ensures SpaceEnd(s, i) <= k
    decreases k - i
  {
    if i < k && IsSpace(s[i]) {
      SpaceEndStopsAt(s, i + 1, k);
    }
  }

  /** Text with no backtick that does not end in whitespace is copied through, and the
      scan resumes right after it. */
  lemma {:induction false} StripFencesCopiesPlainText(b: string, t: string)
    requires '`' !in b && (b == [] || !IsSpace(b[|b| - 1]))
    ensures StripFences(b + t) == b + StripFences(t)
    decreases |b|
  {
    if b != [] {
      var s := b + t;
      SpaceEndStopsAt(s, 0, |b| - 1);
      assert s[SpaceEnd(s, 0)] == b[SpaceEnd(s, 0)];
      StripFencesSkipsChar(s);
      assert s[1..] == b[1..] + t;
      StripFencesCopiesPlainText(b[1..], t);
      assert b == [b[0]] + b[1..];
    } else {
      assert b + t == t;
    }
  }

  /** A closing fence, with the whitespace before it, is removed. */
  lemma ClosingFence(ws: string)
    requires AllSpace(ws)
    ensures StripFences(ws + Fence) == []
  {
    var t := ws + Fence;
    assert !OpensJson(t) by {
      if ws != [] { assert t[0] == ws[0]; }
    }
    SpaceEndOver(t, 0, ws);
    assert FenceAt(t, |ws|);
    assert t[|ws| + 3..] == [];
  }

  /** An opening fence, with the whitespace after it, is removed. */
  lemma OpeningFence(ws: string, body: string)
    requires AllSpace(ws) && (body == [] || !IsSpace(body[0]))
    ensures StripFences(Fence + "json" + ws + body) == StripFences(body)
  {
    var s := Fence + "json" + ws + body;
    JsonOpener(ws, body);
    SpaceEndOver(s, 7, ws);
    StripFencesAtJson(s);
  }

  lemma JsonOpener(ws: string, body: string)
    ensures var s := Fence + "json" + ws + body;
      OpensJson(s) && |s| == 7 + |ws| + |body| && s[7..7 + |ws|] == ws && s[7 + |ws|..] == body
  {
    var s := Fence + "json" + ws + body;
    assert s == Fence + "json" + (ws + body);
    assert s[7..] == ws + body;
  }

  lemma StripFencesAtJson(s: string)
    requires OpensJson(s)
    ensures StripFences(s) == StripFences(s[SpaceEnd(s, 7)..])
  {
  }

  /** A fenced block loses its opening fence, its closing fence and the whitespace
      next to them, and nothing else. */
  lemma FencedBlock(ws1: string, b: string, ws2: string)
    requires AllSpace(ws1) && AllSpace(ws2)
    requires '`' !in b && b != [] && !IsSpace(b[0]) && !IsSpace(b[|b| - 1])
    ensures StripFences(Fence + "json" + ws1 + (b + ws2 + Fence)) == b
  {
    var body := b + ws2 + Fence;
    OpeningFence(ws1, body);
    assert StripFences(body) == b + StripFences(ws2 + Fence) by {
      assert body == b + (ws2 + Fence);
      StripFencesCopiesPlainText(b, ws2 + Fence);
    }
    assert StripFences(ws2 + Fence) == [] by {
      ClosingFence(ws2);
    }
    assert b + [] == b;
  }

  /** Text without `{` or `,` has no bare key to quote. */
  lemma {:induction false} QuoteBareKeysWithoutSeparators(s: string)
    requires forall i :: 0 <= i < |s| ==> s[i] != '{' && s[i] != ','
    ensures QuoteBareKeys(s) == s
    decreases |s|
  {
    if s != [] {
      QuoteSkipsChar(s);
      QuoteBareKeysWithoutSeparators(s[1..]);
      assert s == [s[0]] + s[1..];
    }
  }

  /** Where the text does not start with a separator, its first character is copied. */
  lemma QuoteSkipsChar(s: string)
    requires s != [] && s[0] != '{' && s[0] != ','
    ensures QuoteBareKeys(s) == [s[0]] + QuoteBareKeys(s[1..])
  {
    assert QuoteStep(s) == ([s[0]], 1);
  }

  /** Control characters are gone after one pass, so a second pass changes nothing. */
  lemma {:induction false} StripControlIdempotent(s: string)
    ensures StripControl(StripControl(s)) == StripControl(s)
  {
    StripControlOfClean(StripControl(s));
  }

  /** Every character that is not a control character is kept. */
  lemma {:induction false} StripControlKeepsOthers(s: string)
    ensures forall c :: c in StripControl(s) <==> c in s && !IsControl(c)
  {
    if s != [] {
      StripControlKeepsOthers(s[1..]);
      assert forall c :: c in s <==> c == s[0] || c in s[1..];
    }
  }

  /** Control characters are removed piece by piece: stripping a concatenation strips each
      part, so the kept characters stay in their order. */
  lemma {:induction false} StripControlAppend(x: string, y: string)
    ensures StripControl(x + y) == StripControl(x) + StripControl(y)
  {
    if x == [] {
      assert x + y == y;
    } else {
      var head := if IsControl(x[0]) then [] else [x[0]];
      assert (x + y)[0] == x[0] && (x + y)[1..] == x[1..] + y;
      assert StripControl(x + y) == head + StripControl(x[1..] + y);
      StripControlAppend(x[1..], y);
      assert StripControl(x) == head + StripControl(x[1..]);
    }
  }

  lemma {:induction false} StripControlOfClean(s: string)
    requires forall c :: c in s ==> !IsControl(c)
    ensures StripControl(s) == s
  {
    if s != [] {
      assert s[0] in s;
      StripControlOfClean(s[1..]);
      assert s == [s[0]] + s[1..];
    }
  }

  /** After the quote swap no single quote is left. */
  lemma SingleToDoubleLeavesNoSingleQuote(s: string)
    ensures '\'' !in SingleToDouble(s)
  {
  }

  lemma MatchBareKeyAt(s: string, q: nat, k: nat, e: nat)
    requires |s| >= 1 && (s[0] == '{' || s[0] == ',')
    requires q == SpaceEnd(s, 1) && q < |s| && IsIdentStart(s[q])
    requires k == IdentEnd(s, q) && e == SpaceEnd(s, k) && e < |s| && s[e] == ':'
    ensures MatchBareKey(s) == Some(KeyMatch(q, k, e + 1))
  {
  }

  lemma {:induction false} SpaceEndAt(s: string, i: nat, j: nat)
    requires i <= j <= |s| && (forall p :: i <= p < j ==> IsSpace(s[p])) && (j == |s| || !IsSpace(s[j]))
    ensures SpaceEnd(s, i) == j
    decreases j - i
  {
    if i < j {
      SpaceEndAt(s, i + 1, j);
    }
  }

  lemma {:induction false} IdentEndAt(s: string, i: nat, j: nat)
    requires i <= j <= |s| && (forall p :: i <= p < j ==> IsIdentChar(s[p])) && (j == |s| || !IsIdentChar(s[j]))
    ensures IdentEnd(s, i) == j
    decreases j - i
  {
    if i < j {
      IdentEndAt(s, i + 1, j);
    }
  }

  lemma SpacesIn(s: string, i: nat, j: nat)
    requires i <= j <= |s| && AllSpace(s[i..j])
    ensures forall p :: i <= p < j ==> IsSpace(s[p])
  {
    forall p | i <= p < j ensures IsSpace(s[p]) {
      assert s[p] == s[i..j][p - i];
    }
  }

  lemma {:induction false} UnquotedEndAt(s: string, i: nat, j: nat)
    requires i <= j < |s| && (forall p :: i <= p < j ==> s[p] != '"') && s[j] == '"'
    ensures UnquotedEnd(s, i) == j
    decreases j - i
  {
    if i < j {
      UnquotedEndAt(s, i + 1, j);
    }
  }

  lemma QuoteFreeIn(s: string, i: nat, j: nat)
    requires i <= j <= |s| && '"' !in s[i..j]
    ensures forall p :: i <= p < j ==> s[p] != '"'
  {
    forall p | i <= p < j ensures s[p] != '"' {
      assert s[p] == s[i..j][p - i];
    }
  }

  /** What the bare-key repair does where its pattern matches, with the key at
      s[m.keyStart..m.keyEnd] and the colon just before s[m.next..]: `{ key :`
      (or `, key :`) becomes `{"key":` (or `,"key":`), and the scan goes on after
      the colon. */
  lemma QuoteBareKeysRewritesMatch(s: string, m: KeyMatch)
    requires 1 <= m.keyStart < m.keyEnd < m.next <= |s|
    requires (s[0] == '{' || s[0] == ',') && AllSpace(s[1..m.keyStart])
    requires IsIdentifier(s[m.keyStart..m.keyEnd]) && AllSpace(s[m.keyEnd..m.next - 1]) && s[m.next - 1] == ':'
    ensures QuoteBareKeys(s) == [s[0], '"'] + s[m.keyStart..m.keyEnd] + ['"', ':'] + QuoteBareKeys(s[m.next..])
  {
    MatchBareKeyOf(s, m);
    QuoteAtMatch(s, m);
  }

  lemma MatchBareKeyOf(s: string, m: KeyMatch)
    requires 1 <= m.keyStart < m.keyEnd < m.next <= |s|
    requires (s[0] == '{' || s[0] == ',') && AllSpace(s[1..m.keyStart])
    requires IsIdentifier(s[m.keyStart..m.keyEnd]) && AllSpace(s[m.keyEnd..m.next - 1]) && s[m.next - 1] == ':'
    ensures MatchBareKey(s) == Some(m)
  {
    var q, k, e := m.keyStart, m.keyEnd, m.next - 1;
    IdentifierChars(s, q, k);
    KeyEnds(s, k, e);
    SpacesIn(s, 1, q);
    SpaceEndAt(s, 1, q);
    IdentEndAt(s, q, k);
    SpacesIn(s, k, e);
    SpaceEndAt(s, k, e);
    MatchBareKeyAt(s, q, k, e);
    assert m == KeyMatch(q, k, e + 1);
  }

  lemma IdentifierChars(s: string, q: nat, k: nat)
    requires q <= k <= |s| && IsIdentifier(s[q..k])
    ensures q < k && IsIdentStart(s[q])
    ensures forall p :: q <= p < k ==> IsIdentChar(s[p])
  {
    assert s[q] == s[q..k][0];
    assert forall p :: q <= p < k ==> s[p] == s[q..k][p - q];
  }

  /** A key is followed by whitespace and then the colon, none of them a key character. */
  lemma KeyEnds(s: string, k: nat, e: nat)
    requires k <= e < |s| && AllSpace(s[k..e]) && s[e] == ':'
    ensures !IsIdentChar(s[k])
  {
    if k < e {
      assert s[k] == s[k..e][0];
    }
  }

  lemma QuoteAtMatch(s: string, m: KeyMatch)
    requires MatchBareKey(s) == Some(m)
    ensures QuoteBareKeys(s) == [s[0], '"'] + s[m.keyStart..m.keyEnd] + ['"', ':'] + QuoteBareKeys(s[m.next..])
  {
    QuoteStepAtMatch(s, m);
  }

  lemma QuoteStepAtMatch(s: string, m: KeyMatch)
    requires MatchBareKey(s) == Some(m)
    ensures QuoteStep(s) == ([s[0], '"'] + s[m.keyStart..m.keyEnd] + ['"', ':'], m.next)
  {
  }

  lemma MatchUnescapedAt(s: string, o: nat, md: nat, c: nat)
    requires |s| >= 1 && s[0] == ':'
    requires o == SpaceEnd(s, 1) && o < |s| && s[o] == '"'
    requires md == UnquotedEnd(s, o + 1) && md < |s|
    requires c == UnquotedEnd(s, md + 1) && c < |s|
    ensures MatchUnescaped(s) == Some(QuoteMatch(o, md, c))
  {
  }

  /** What the unescaped-quote repair does where its pattern matches, with the quotes
      at s[m.open], s[m.mid] and s[m.close]: `:<ws>"g1"g2"` becomes `: "g1g2"`, and
      the scan goes on after the third quote. */
  lemma MergeRewritesMatch(s: string, m: QuoteMatch)
    requires 1 <= m.open < m.mid < m.close < |s|
    requires s[0] == ':' && AllSpace(s[1..m.open]) && s[m.open] == '"' && s[m.mid] == '"' && s[m.close] == '"'
    requires '"' !in s[m.open + 1..m.mid] && '"' !in s[m.mid + 1..m.close]
    ensures MergeUnescapedQuotes(s)
            == [':', ' ', '"'] + s[m.open + 1..m.mid] + s[m.mid + 1..m.close] + ['"'] + MergeUnescapedQuotes(s[m.close + 1..])
  {
    SpacesIn(s, 1, m.open);
    SpaceEndAt(s, 1, m.open);
    QuoteFreeIn(s, m.open + 1, m.mid);
    UnquotedEndAt(s, m.open + 1, m.mid);
    QuoteFreeIn(s, m.mid + 1, m.close);
    UnquotedEndAt(s, m.mid + 1, m.close);
    MatchUnescapedAt(s, m.open, m.mid, m.close);
    MergeAtMatch(s, m);
  }

  lemma MergeAtMatch(s: string, m: QuoteMatch)
    requires MatchUnescaped(s) == Some(m)
    ensures MergeUnescapedQuotes(s)
            == [':', ' ', '"'] + s[m.open + 1..m.mid] + s[m.mid + 1..m.close] + ['"'] + MergeUnescapedQuotes(s[m.close + 1..])
  {
    MergeStepAtMatch(s, m);
  }

  lemma MergeStepAtMatch(s: string, m: QuoteMatch)
    requires MatchUnescaped(s) == Some(m)
    ensures MergeStep(s) == ([':', ' ', '"'] + s[m.open + 1..m.mid] + s[m.mid + 1..m.close] + ['"'], m.close + 1)
  {
  }

  /** The unescaped-quote repair also fires across two well-formed fields: it takes the
      closing quote of a string value and the opening quote of the next key for its two
      inner quotes, so `{"a": "x", "b"...` becomes `{"a": "x, "b"...`: the quote that
      closed the first value is lost. */
  lemma MergeJoinsAdjacentFields(a: string, x: string, b: string, t: string)
    requires '"' !in a && ':' !in a && '"' !in x && '"' !in b && ':' !in b
    ensures MergeUnescapedQuotes(("{\"" + a + "\"") + ((": \"" + x + "\", \"") + ((b + "\"") + t)))
            == ("{\"" + a + "\"") + ((": \"" + x + ", \"") + ((b + "\"") + MergeUnescapedQuotes(t)))
  {
    var head, after := "{\"" + a + "\"", b + "\"";
    ColonFree(head);
    MergeCopiesColonFree(head, (": \"" + x + "\", \"") + (after + t));
    MergeAcrossFields(x, after + t);
    ColonFree(after);
    MergeCopiesColonFree(after, t);
  }

  lemma ColonFree(s: string)
    requires ':' !in s
    ensures forall i :: 0 <= i < |s| ==> s[i] != ':'
  {
  }

  /** The match `:<space>"x", "` at the head of the text: its two groups are `x` and `, `. */
  lemma MergeAcrossFields(x: string, rest: string)
    requires '"' !in x
    ensures MergeUnescapedQuotes((": \"" + x + "\", \"") + rest) == (": \"" + x + ", \"") + MergeUnescapedQuotes(rest)
  {
    var first := (": \"" + x + "\", \"") + rest;
    var m := QuoteMatch(2, 3 + |x|, 6 + |x|);
    assert first[1..2] == " ";
    assert first[3..3 + |x|] == x;
    assert first[4 + |x|..6 + |x|] == ", ";
    MergeRewritesMatch(first, m);
    assert first[7 + |x|..] == rest;
    assert [':', ' ', '"'] + x + ", " + ['"'] == ": \"" + x + ", \"";
  }

  /** Text without a colon is copied through the unescaped-quote repair. */
  lemma {:induction false} MergeCopiesColonFree(b: string, t: string)
    requires forall i :: 0 <= i < |b| ==> b[i] != ':'
    ensures MergeUnescapedQuotes(b + t) == b + MergeUnescapedQuotes(t)
  {
    var s := b + t;
    ColonFreeHead(s, |b|);
    MergeCopiesPrefix(s, |b|);
    assert s[..|b|] == b && s[|b|..] == t;
  }

  /** None of the first n characters of s is a colon. */
  predicate NoColonIn(s: string, n: nat)
    requires n <= |s|
  {
    n == 0 || (s[0] != ':' && NoColonIn(s[1..], n - 1))
  }

  lemma {:induction false} ColonFreeHead(s: string, n: nat)
    requires n <= |s| && forall i :: 0 <= i < n ==> s[i] != ':'
    ensures NoColonIn(s, n)
    decreases n
  {
    if n > 0 {
      assert forall i :: 0 <= i < n - 1 ==> s[1..][i] == s[i + 1];
      ColonFreeHead(s[1..], n - 1);
    }
  }

  /** The first n characters of s, none a colon, are copied. */
  lemma {:induction false} MergeCopiesPrefix(s: string, n: nat)
    requires n <= |s| && NoColonIn(s, n)
    ensures MergeUnescapedQuotes(s) == s[..n] + MergeUnescapedQuotes(s[n..])
    decreases n
  {
    if n == 0 {
      assert s[..0] == [] && s[0..] == s;
    } else {
      MergeCopiesPrefix(s[1..], n - 1);
      MergePrefixStep(s, n);
    }
  }

  lemma MergePrefixStep(s: string, n: nat)
    requires 0 < n <= |s| && s[0] != ':'
    requires MergeUnescapedQuotes(s[1..]) == s[1..][..n - 1] + MergeUnescapedQuotes(s[1..][n - 1..])
    ensures MergeUnescapedQuotes(s) == s[..n] + MergeUnescapedQuotes(s[n..])
  {
    MergeSkipsChar(s);
    assert s[1..][n - 1..] == s[n..];
    assert s[..n] == [s[0]] + s[1..][..n - 1];
  }

  /** Where the pattern does not match, the first character is copied. */
  lemma MergeSkipsChar(s: string)
    requires s != [] && s[0] != ':'
    ensures MergeUnescapedQuotes(s) == [s[0]] + MergeUnescapedQuotes(s[1..])
  {
    assert MergeStep(s) == ([s[0]], 1);
  }
}
