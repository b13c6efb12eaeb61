/** The Python values and built-in string operations the turn engine relies on:
    the loosely typed value a JSON parse produces, truthiness, `str.isspace`,
    `str.strip`, `str.split`, `str.join`, `str.lower` and the slice `xs[-n:]`. */
module PyBuiltins {

  datatype Option<+T> = None | Some(value: T)

  /** A value, or the message of the exception Python raised instead. */
  datatype Result<+T> = Ok(value: T) | Err(msg: string)

  /** A value produced by `json.loads` (or handed over by the output parser of a
      language-model chain): None, bool, int/float, str, list or dict. */
  datatype Json =
    | JNull
    | JBool(b: bool)
    | JNum(n: real)
    | JStr(s: string)
    | JList(items: seq<Json>)
    | JDict(fields: map<string, Json>)

  /** Python truthiness (`if v:` / `not v`). */
  predicate Truthy(v: Json)
  {
    match v
    case JNull => false
    case JBool(b) => b
    case JNum(n) => n != 0.0
    case JStr(s) => s != ""
    case JList(items) => items != []
    case JDict(fields) => fields != map[]
  }

  /** `d.get(key, default)` on a dict. */
  function Get(fields: map<string, Json>, key: string, default: Json): (v: Json)
    ensures key in fields ==> v == fields[key]
    ensures key !in fields ==> v == default
  {
    if key in fields then fields[key] else default
  }

  /** Every item of a list is a string (what `",".join` demands). */
  predicate AllStr(xs: seq<Json>)
  {
    forall i :: 0 <= i < |xs| ==> xs[i].JStr?
  }

  function StrsOf(xs: seq<Json>): (r: seq<string>)
    requires AllStr(xs)
    ensures |r| == |xs| && forall i :: 0 <= i < |xs| ==> xs[i] == JStr(r[i])
  {
    seq(|xs|, i requires 0 <= i < |xs| => xs[i].s)
  }

  /** The conversions of Python's run time that the model does not spell out:
      `float(s)` on a string (None when Python raises ValueError) and `str(v)` on a
      value that is not a string (the Python repr). */
  datatype PyConv = PyConv(floatOfStr: string -> Option<real>, reprOf: Json -> string)

  /** `str(v)`: the identity on strings, the repr otherwise. */
  function PyStr(v: Json, conv: PyConv): (r: string)
    ensures v.JStr? ==> r == v.s
  {
    if v.JStr? then v.s else conv.reprOf(v)
  }

  /** `float(v)`; None when Python raises (TypeError for None, list and dict). */
  function PyFloat(v: Json, conv: PyConv): (r: Option<real>)
    ensures v.JNum? ==> r == Some(v.n)
    ensures v.JBool? ==> r == Some(if v.b then 1.0 else 0.0)
    ensures v.JNull? || v.JList? || v.JDict? ==> r == None
  {
    match v
    case JNum(n) => Some(n)
    case JBool(b) => Some(if b then 1.0 else 0.0)
    case JStr(s) => conv.floatOfStr(s)
    case _ => None
  }

  /** `c.isspace()`, which is also what `\s` matches in a `str` regular expression. */
  predicate IsSpace(c: char)
  {
    var n := c as int;
    0x09 <= n <= 0x0D || 0x1C <= n <= 0x20 || n == 0x85 || n == 0xA0 || n == 0x1680
    || 0x2000 <= n <= 0x200A || n == 0x2028 || n == 0x2029 || n == 0x202F || n == 0x205F || n == 0x3000
  }

  predicate AllSpace(s: string)
  {
    forall i :: 0 <= i < |s| ==> IsSpace(s[i])
  }

  /** Length of the leading run of whitespace. */
  function SpaceRun(s: string): (k: nat)
    ensures k <= |s|
    ensures k == |s| || !IsSpace(s[k])
  {
    if s == [] || !IsSpace(s[0]) then 0 else 1 + SpaceRun(s[1..])
  }

  /** The leading run is all whitespace. */
  lemma {:induction false} SpaceRunSpans(s: string)
    ensures AllSpace(s[..SpaceRun(s)])
  {
    if s != [] && IsSpace(s[0]) {
      SpaceRunSpans(s[1..]);
      assert s[..SpaceRun(s)] == [s[0]] + s[1..][..SpaceRun(s[1..])];
    }
  }

  /** Length of the trailing run of whitespace. */
  function TrailingSpaceRun(s: string): (k: nat)
    ensures k <= |s|
    ensures AllSpace(s[|s| - k..])
    ensures k == |s| || !IsSpace(s[|s| - k - 1])
  {
    if s == [] || !IsSpace(s[|s| - 1]) then 0 else 1 + TrailingSpaceRun(s[..|s| - 1])
  }

  predicate Stripped(s: string)
  {
    s == [] || (!IsSpace(s[0]) && !IsSpace(s[|s| - 1]))
  }

  /** `s.lstrip()`. */
  function LStrip(s: string): (r: string)
    ensures r == s[SpaceRun(s)..]
    ensures r == [] || !IsSpace(r[0])
  {
    s[SpaceRun(s)..]
  }

  /** `s.rstrip()`. */
  function RStrip(s: string): (r: string)
    ensures r == s[..|s| - TrailingSpaceRun(s)]
    ensures r == [] || !IsSpace(r[|r| - 1])
  {
    s[..|s| - TrailingSpaceRun(s)]
  }

  /** `s.strip()`: drops leading and trailing whitespace and nothing else. */
  function Strip(s: string): (r: string)
    ensures Stripped(r)
  {
    var l := LStrip(s);
    var r := RStrip(l);
    assert r != [] ==> r[0] == l[0];
    r
  }

  /** The stripped text is the original with only whitespace removed around it. */
  lemma StripRemovesOnlySpace(s: string) returns (a: nat, b: nat)
    ensures a <= b <= |s| && Strip(s) == s[a..b]
    ensures AllSpace(s[..a]) && AllSpace(s[b..])
  {
    a := SpaceRun(s);
    SpaceRunSpans(s);
    var l := s[a..];
    var k := TrailingSpaceRun(l);
    b := |s| - k;
    SliceOfSuffix(s, a, |l| - k, |l|);
    SliceOfSuffix(s, a, 0, |l| - k);
  }

  lemma SliceOfSuffix<T>(s: seq<T>, a: nat, i: nat, j: nat)
    requires a <= |s| && i <= j <= |s| - a
    ensures s[a..][i..j] == s[a + i..a + j]
  {
  }

  /** Stripping introduces no character. */
  lemma StripKeepsChars(s: string)
    ensures forall c :: c in Strip(s) ==> c in s
  {
    var a, b := StripRemovesOnlySpace(s);
    forall c | c in Strip(s) ensures c in s {
      var k :| 0 <= k < b - a && s[a..b][k] == c;
      assert s[a + k] == c;
    }
  }

  lemma {:induction false} StripOfStripped(s: string)
    requires Stripped(s)
    ensures Strip(s) == s
  {
    assert SpaceRun(s) == 0;
    assert s[0..] == s;
  }

  /** `s.split(sep)`: the pieces between the separators, always at least one. */
  function Split(s: string, sep: char): (parts: seq<string>)
    ensures |parts| >= 1
    ensures forall i :: 0 <= i < |parts| ==> sep !in parts[i]
  {
    if s == [] then [[]]
    else
      var rest := Split(s[1..], sep);
      if s[0] == sep then [[]] + rest
      else [[s[0]] + rest[0]] + rest[1..]
  }

  /** `sep.join(parts)`. */
  function Join(parts: seq<string>, sep: char): string
  {
    if parts == [] then []
    else if |parts| == 1 then parts[0]
    else parts[0] + [sep] + Join(parts[1..], sep)
  }

  /** Joining what `split` produced gives back the original text. */
  lemma {:induction false} JoinSplit(s: string, sep: char)
    ensures Join(Split(s, sep), sep) == s
  {
    if s != [] {
      var rest := Split(s[1..], sep);
      JoinSplit(s[1..], sep);
      if s[0] == sep {
        assert Split(s, sep) == [[]] + rest;
        assert Join([[]] + rest, sep) == [] + [sep] + Join(rest, sep);
      } else {
        if |rest| == 1 {
          assert Split(s, sep) == [[s[0]] + rest[0]];
        } else {
          assert Split(s, sep) == [[s[0]] + rest[0]] + rest[1..];
          assert Join(rest, sep) == rest[0] + [sep] + Join(rest[1..], sep);
          assert ([[s[0]] + rest[0]] + rest[1..])[1..] == rest[1..];
        }
      }
    }
  }

  /** Splitting a text that has no separator gives that one text. */
  lemma {:induction false} SplitWithoutSeparator(s: string, sep: char)
    requires sep !in s
    ensures Split(s, sep) == [s]
  {
    if s != [] {
      SplitWithoutSeparator(s[1..], sep);
      assert [s[0]] + s[1..] == s;
    }
  }

  /** A separator followed by more text starts a new piece. */
  lemma {:induction false} SplitAfterPiece(a: string, sep: char, b: string)
    requires sep !in a
    ensures Split(a + [sep] + b, sep) == [a] + Split(b, sep)
  {
    if a == [] {
      assert a + [sep] + b == [sep] + b;
    } else {
      assert (a + [sep] + b)[1..] == a[1..] + [sep] + b;
      SplitAfterPiece(a[1..], sep, b);
      assert [a[0]] + a[1..] == a;
    }
  }

  /** Splitting what `join` produced gives back the pieces, when none holds the separator. */
  lemma {:induction false} SplitJoin(parts: seq<string>, sep: char)
    requires |parts| >= 1
    requires forall i :: 0 <= i < |parts| ==> sep !in parts[i]
    ensures Split(Join(parts, sep), sep) == parts
  {
    if |parts| == 1 {
      SplitWithoutSeparator(parts[0], sep);
    } else {
      SplitJoin(parts[1..], sep);
      SplitAfterPiece(parts[0], sep, Join(parts[1..], sep));
    }
  }

  /** `c.lower()` restricted to ASCII letters. */
  function AsciiLowerChar(c: char): char
  {
    if 'A' <= c <= 'Z' then (c as int + 32) as char else c
  }

  function AsciiLower(s: string): (r: string)
    ensures |r| == |s|
    ensures forall i :: 0 <= i < |s| ==> r[i] == AsciiLowerChar(s[i])
  {
    seq(|s|, i requires 0 <= i < |s| => AsciiLowerChar(s[i]))
  }

  lemma AsciiLowerKeepsSpace(c: char)
    ensures IsSpace(AsciiLowerChar(c)) == IsSpace(c)
  {
  }

  lemma {:induction false} SpaceRunOfLower(s: string)
    ensures SpaceRun(AsciiLower(s)) == SpaceRun(s)
  {
    if s != [] {
      AsciiLowerKeepsSpace(s[0]);
      assert AsciiLower(s)[1..] == AsciiLower(s[1..]);
      SpaceRunOfLower(s[1..]);
    }
  }

  lemma {:induction false} TrailingSpaceRunOfLower(s: string)
    ensures TrailingSpaceRun(AsciiLower(s)) == TrailingSpaceRun(s)
  {
    if s != [] {
      AsciiLowerKeepsSpace(s[|s| - 1]);
      assert AsciiLower(s)[..|s| - 1] == AsciiLower(s[..|s| - 1]);
      TrailingSpaceRunOfLower(s[..|s| - 1]);
    }
  }

  /** Lower-casing ASCII letters and stripping whitespace can be done in either order. */
  lemma StripOfLower(s: string)
    ensures Strip(AsciiLower(s)) == AsciiLower(Strip(s))
  {
    LStripOfLower(s);
    RStripOfLower(LStrip(s));
  }

  lemma LStripOfLower(s: string)
    ensures LStrip(AsciiLower(s)) == AsciiLower(LStrip(s))
  {
    SpaceRunOfLower(s);
    var a := SpaceRun(s);
    assert AsciiLower(s)[a..] == AsciiLower(s[a..]);
  }

  lemma RStripOfLower(s: string)
    ensures RStrip(AsciiLower(s)) == AsciiLower(RStrip(s))
  {
    TrailingSpaceRunOfLower(s);
    var b := |s| - TrailingSpaceRun(s);
    assert AsciiLower(s)[..b] == AsciiLower(s[..b]);
  }

  /** `xs[start:]` with Python's rules for a negative or too large start. */
  function SliceFrom<T>(xs: seq<T>, start: int): seq<T>
  {
    if start < 0 then
      (if |xs| + start < 0 then xs else xs[|xs| + start..])
    else if start > |xs| then []
    else xs[start..]
  }

  /** `xs[-n:]`, the history window the agents render into their prompts. */
  function Tail<T>(xs: seq<T>, n: int): seq<T>
  {
    SliceFrom(xs, -n)
  }

  /** For a positive bound the window is the last min(n, |xs|) entries, in order. */
  lemma TailIsLastEntries<T>(xs: seq<T>, n: int)
    requires n > 0
    ensures |Tail(xs, n)| == if n < |xs| then n else |xs|
    ensures xs == xs[..|xs| - |Tail(xs, n)|] + Tail(xs, n)
  {
  }

  /** `xs[-0:]` is the whole list: a window of 0 hides nothing. */
  lemma TailZeroIsWhole<T>(xs: seq<T>)
    ensures Tail(xs, 0) == xs
  {
  }

  predicate Distinct<T(==)>(xs: seq<T>)
  {
    forall i, j :: 0 <= i < j < |xs| ==> xs[i] != xs[j]
  }

  /** Number of occurrences of x in xs. */
  function Count<T(==)>(xs: seq<T>, x: T): nat
  {
    if xs == [] then 0
    else Count(xs[..|xs| - 1], x) + (if xs[|xs| - 1] == x then 1 else 0)
  }

  lemma {:induction false} CountAbsent<T>(xs: seq<T>, x: T)
    requires x !in xs
    ensures Count(xs, x) == 0
  {
    if xs != [] {
      assert xs == xs[..|xs| - 1] + [xs[|xs| - 1]];
      CountAbsent(xs[..|xs| - 1], x);
    }
  }

  lemma {:induction false} CountPresent<T>(xs: seq<T>, x: T)
    requires x in xs
    ensures Count(xs, x) >= 1
  {
    if xs[|xs| - 1] != x {
      var i :| 0 <= i < |xs| && xs[i] == x;
      assert xs[..|xs| - 1][i] == x;
      CountPresent(xs[..|xs| - 1], x);
    }
  }

  /** n copies of x. */
  function Repeat<T>(x: T, n: nat): (r: seq<T>)
    ensures |r| == n
    ensures forall i :: 0 <= i < n ==> r[i] == x
  {
    if n == 0 then [] else Repeat(x, n - 1) + [x]
  }
}
