/**
 * `VariableReplacer`: placeholder substitution over the text of a recipe
 * file.  The two regular expressions of the source are restated as
 * hand-written token recognisers (`BraceAt`, `SimpleAt`, `MaskAt`); a pass
 * over a text is the sequence of pieces its scanner produces (`Scan`), and
 * substituting is rendering those pieces against the variable map.  The
 * class keeps the map as a field and runs the `find`/`appendReplacement`
 * loops of the source against those definitions.
 */
module VariableReplacement {
  import opened Wrappers
  import opened JavaText

  // ---------------------------------------------------------------------
  // Character classes

  /** What the word-boundary assertion `\b` counts as a word character (ASCII). */
  predicate IsWordChar(c: char) {
    ('a' <= c <= 'z') || ('A' <= c <= 'Z') || ('0' <= c <= '9') || c == '_'
  }

  /** `[a-zA-Z_]`: the first character of a variable name. */
  predicate IsNameStart(c: char) {
    ('a' <= c <= 'z') || ('A' <= c <= 'Z') || c == '_'
  }

  /** `[a-zA-Z0-9_.]`: any later character of a variable name. */
  predicate IsNameChar(c: char) {
    IsWordChar(c) || c == '.'
  }

  /** `s[a..b]` is a variable name: `[a-zA-Z_][a-zA-Z0-9_.]*`. */
  predicate IsNameAt(s: string, a: int, b: int) {
    0 <= a < b <= |s| && IsNameStart(s[a]) && forall p :: a < p < b ==> IsNameChar(s[p])
  }

  predicate IsName(n: string) {
    IsNameAt(n, 0, |n|)
  }

  /** `\b` at position `e` of `s`. */
  predicate Boundary(s: string, e: int) {
    (0 < e <= |s| && IsWordChar(s[e - 1])) != (0 <= e < |s| && IsWordChar(s[e]))
  }

  // ---------------------------------------------------------------------
  // The three patterns, as languages

  /** `s[i..e]` matches `\$\{([a-zA-Z_][a-zA-Z0-9_.]*)\}`. */
  predicate BraceAt(s: string, i: int, e: int) {
    0 <= i && i + 4 <= e <= |s| && s[i] == '$' && s[i + 1] == '{' && s[e - 1] == '}' &&
    IsNameAt(s, i + 2, e - 1)
  }

  /** `s[i..e]` matches `\$([a-zA-Z_][a-zA-Z0-9_.]*)\b`. */
  predicate SimpleAt(s: string, i: int, e: int) {
    0 <= i && i + 2 <= e <= |s| && s[i] == '$' && IsNameAt(s, i + 1, e) && Boundary(s, e)
  }

  /** `s[i..e]` matches `\$\{[^}]+\}`, the pattern masked before counting `$name` uses. */
  predicate MaskAt(s: string, i: int, e: int) {
    0 <= i && i + 4 <= e <= |s| && s[i] == '$' && s[i + 1] == '{' && s[e - 1] == '}' &&
    forall p :: i + 2 <= p < e - 1 ==> s[p] != '}'
  }

  datatype Kind = BracePattern | SimplePattern | MaskPattern

  predicate TokenAt(kind: Kind, s: string, i: int, e: int) {
    match kind
    case BracePattern => BraceAt(s, i, e)
    case SimplePattern => SimpleAt(s, i, e)
    case MaskPattern => MaskAt(s, i, e)
  }

  // ---------------------------------------------------------------------
  // Recognisers

  /** End of the run of name characters starting at `j`. */
  function NameRunEnd(s: string, j: int): (k: int)
    requires 0 <= j <= |s|
    ensures j <= k <= |s|
    ensures forall p :: j <= p < k ==> IsNameChar(s[p])
    ensures k < |s| ==> !IsNameChar(s[k])
    decreases |s| - j
  {
    if j == |s| || !IsNameChar(s[j]) then j else NameRunEnd(s, j + 1)
  }

  /** Index of the first `}` at or after `j`, or `|s|`. */
  function FirstClose(s: string, j: int): (k: int)
    requires 0 <= j <= |s|
    ensures j <= k <= |s|
    ensures forall p :: j <= p < k ==> s[p] != '}'
    ensures k < |s| ==> s[k] == '}'
    decreases |s| - j
  {
    if j == |s| || s[j] == '}' then j else FirstClose(s, j + 1)
  }

  /** Backtracking from the greedy run end `k` to just after its last word character. */
  function LastWordEnd(s: string, lo: int, k: int): (e: int)
    requires 0 <= lo < k <= |s| && IsWordChar(s[lo])
    ensures lo < e <= k && IsWordChar(s[e - 1])
    ensures forall p :: e <= p < k ==> !IsWordChar(s[p])
    decreases k
  {
    if IsWordChar(s[k - 1]) then k else LastWordEnd(s, lo, k - 1)
  }

  /** Where a `${name}` starting at `i` ends, or -1: the only match there is. */
  function BraceEnd(s: string, i: int): (r: int)
    requires 0 <= i <= |s|
    ensures r >= 0 ==> BraceAt(s, i, r)
    ensures forall e :: BraceAt(s, i, e) ==> r == e
  {
    if i + 2 < |s| && s[i] == '$' && s[i + 1] == '{' && IsNameStart(s[i + 2]) then
      var k := NameRunEnd(s, i + 3);
      if k < |s| && s[k] == '}' then k + 1 else -1
    else -1
  }

  /**
   * Where a `$name` starting at `i` ends, or -1.  The greedy name run is cut
   * back to the longest prefix followed by a word boundary, so the regex
   * engine's choice is the longest match.
   */
  function SimpleEnd(s: string, i: int): (r: int)
    requires 0 <= i <= |s|
    ensures r >= 0 ==> SimpleAt(s, i, r)
    ensures r >= 0 ==> i + 1 < r && IsWordChar(s[r - 1])
    ensures forall e :: SimpleAt(s, i, e) ==> e <= r
  {
    if i + 1 < |s| && s[i] == '$' && IsNameStart(s[i + 1]) then
      var k := NameRunEnd(s, i + 2);
      var e := LastWordEnd(s, i + 1, k);
      assert IsNameAt(s, i + 1, e);
      assert Boundary(s, e) by {
        if e < |s| {
          assert !IsWordChar(s[e]);
        }
      }
      forall e' | SimpleAt(s, i, e')
        ensures e' <= e
      {
      }
      e
    else -1
  }

  /** A trailing `.` is never part of a `$name`: in `$a.b.` the match is `$a.b`. */
  lemma TrailingDotNotInName()
    ensures SimpleEnd("$a.b.", 0) == 4
  {
    var s := "$a.b.";
    assert SimpleAt(s, 0, 4) by {
      assert IsNameAt(s, 1, 4);
      assert Boundary(s, 4);
    }
    assert !IsWordChar(s[4]);
  }

  /** Where a `${...}` with a non-empty body and no inner `}` starting at `i` ends, or -1. */
  function MaskEnd(s: string, i: int): (r: int)
    requires 0 <= i <= |s|
    ensures r >= 0 ==> MaskAt(s, i, r)
    ensures forall e :: MaskAt(s, i, e) ==> r == e
  {
    if i + 1 < |s| && s[i] == '$' && s[i + 1] == '{' then
      var k := FirstClose(s, i + 2);
      if i + 2 < k < |s| then k + 1 else -1
    else -1
  }

  /** The end of the match the pattern makes at `i`, or -1 when it makes none. */
  function TokenEnd(kind: Kind, s: string, i: int): (r: int)
    requires 0 <= i <= |s|
    ensures r >= 0 ==> i < r <= |s| && TokenAt(kind, s, i, r)
    ensures forall e :: TokenAt(kind, s, i, e) ==> e <= r
  {
    match kind
    case BracePattern => BraceEnd(s, i)
    case SimplePattern => SimpleEnd(s, i)
    case MaskPattern => MaskEnd(s, i)
  }

  /** `matcher.group(1)`: the variable name inside a match. */
  function NameOf(kind: Kind, s: string, i: int, e: int): string
    requires TokenAt(kind, s, i, e)
  {
    if kind.SimplePattern? then s[i + 1..e] else s[i + 2..e - 1]
  }

  predicate NoTokenBetween(kind: Kind, s: string, a: int, b: int)
    requires 0 <= a && b <= |s|
  {
    forall j :: a <= j < b ==> TokenEnd(kind, s, j) < 0
  }

  // ---------------------------------------------------------------------
  // Scanning and rendering

  /** A character copied as it is, or a match with its name and its text. */
  datatype Piece = Lit(c: char) | Var(name: string, raw: string)

  /** What successive `matcher.find()` calls see from position `i` on. */
  function Scan(kind: Kind, s: string, i: int): seq<Piece>
    requires 0 <= i <= |s|
    decreases |s| - i
  {
    if i == |s| then []
    else
      var e := TokenEnd(kind, s, i);
      if e < 0 then [Lit(s[i])] + Scan(kind, s, i + 1)
      else [Var(NameOf(kind, s, i, e), s[i..e])] + Scan(kind, s, e)
  }

  /** A known variable becomes its value; an unknown one stays as it was written. */
  function PieceText(m: map<string, string>, p: Piece): string {
    match p
    case Lit(c) => [c]
    case Var(n, raw) => if n in m then m[n] else raw
  }

  function Render(m: map<string, string>, ps: seq<Piece>): string {
    if ps == [] then [] else PieceText(m, ps[0]) + Render(m, ps[1..])
  }

  /** Number of matches whose name the map knows. */
  function KnownCount(m: map<string, string>, ps: seq<Piece>): nat {
    if ps == [] then 0 else (if ps[0].Var? && ps[0].name in m then 1 else 0) + KnownCount(m, ps[1..])
  }

  const Marker: string := "___BRACE_PATTERN___"

  /** Every match replaced by the marker. */
  function Masked(ps: seq<Piece>): string {
    if ps == [] then [] else (if ps[0].Lit? then [ps[0].c] else Marker) + Masked(ps[1..])
  }

  /** `replaceBraceVariables`. */
  function ReplaceBrace(m: map<string, string>, s: string): string {
    Render(m, Scan(BracePattern, s, 0))
  }

  /** `replaceSimpleVariables`. */
  function ReplaceSimple(m: map<string, string>, s: string): string {
    Render(m, Scan(SimplePattern, s, 0))
  }

  /** The text `replaceVariablesInFile` ends with: the `$name` pass runs on the `${name}` pass's output. */
  function ReplaceAll(m: map<string, string>, s: string): string {
    ReplaceSimple(m, ReplaceBrace(m, s))
  }

  /** `original.replaceAll("\\$\\{[^}]+\\}", "___BRACE_PATTERN___")`. */
  function Mask(s: string): string {
    Masked(Scan(MaskPattern, s, 0))
  }

  /**
   * `countReplacements`: 0 for an unchanged text; otherwise the known
   * `${name}` matches of the original plus the known `$name` matches of the
   * original with every `${...}` masked.
   */
  function Count(m: map<string, string>, original: string, replaced: string): nat {
    if original == replaced then 0
    else KnownCount(m, Scan(BracePattern, original, 0)) + KnownCount(m, Scan(SimplePattern, Mask(original), 0))
  }

  // ---------------------------------------------------------------------
  // Scanner lemmas

  /** Positions where no match starts are copied through and counted as nothing. */
  lemma RenderSkip(kind: Kind, m: map<string, string>, s: string, a: int, b: int)
    requires 0 <= a <= b <= |s| && NoTokenBetween(kind, s, a, b)
    ensures Render(m, Scan(kind, s, a)) == s[a..b] + Render(m, Scan(kind, s, b))
    ensures KnownCount(m, Scan(kind, s, a)) == KnownCount(m, Scan(kind, s, b))
  {
    CopySkip(kind, m, s, a, b);
    CountSkip(kind, m, s, a, b);
  }

  lemma {:induction false} CopySkip(kind: Kind, m: map<string, string>, s: string, a: int, b: int)
    requires 0 <= a <= b <= |s| && NoTokenBetween(kind, s, a, b)
    ensures Render(m, Scan(kind, s, a)) == s[a..b] + Render(m, Scan(kind, s, b))
    decreases b - a
  {
    if a < b {
      var rest := Render(m, Scan(kind, s, b));
      var t := s[a + 1..b];
      assert s[a..b] == [s[a]] + t;
      assert Render(m, Scan(kind, s, a + 1)) == t + rest by {
        CopySkip(kind, m, s, a + 1, b);
      }
      assert Render(m, Scan(kind, s, a)) == [s[a]] + Render(m, Scan(kind, s, a + 1)) by {
        LiteralStep(kind, m, s, a);
      }
      ConcatAssoc([s[a]], t, rest);
    }
  }

  lemma {:induction false} CountSkip(kind: Kind, m: map<string, string>, s: string, a: int, b: int)
    requires 0 <= a <= b <= |s| && NoTokenBetween(kind, s, a, b)
    ensures KnownCount(m, Scan(kind, s, a)) == KnownCount(m, Scan(kind, s, b))
    decreases b - a
  {
    if a < b {
      CountSkip(kind, m, s, a + 1, b);
      LiteralStep(kind, m, s, a);
    }
  }

  /** A match of a name the map does not know is copied as written. */
  lemma MatchStep(kind: Kind, m: map<string, string>, s: string, a: int)
    requires 0 <= a < |s| && TokenEnd(kind, s, a) >= 0
    ensures var e := TokenEnd(kind, s, a);
      var n := NameOf(kind, s, a, e);
      KnownCount(m, Scan(kind, s, a)) == (if n in m then 1 else 0) + KnownCount(m, Scan(kind, s, e)) &&
      (n !in m ==> Render(m, Scan(kind, s, a)) == s[a..e] + Render(m, Scan(kind, s, e)))
  {
    var e := TokenEnd(kind, s, a);
    var ps := Scan(kind, s, a);
    assert ps[0] == Var(NameOf(kind, s, a, e), s[a..e]);
    assert ps[1..] == Scan(kind, s, e);
  }

  /** A position where no match starts is copied as one character. */
  lemma LiteralStep(kind: Kind, m: map<string, string>, s: string, a: int)
    requires 0 <= a < |s| && TokenEnd(kind, s, a) < 0
    ensures Render(m, Scan(kind, s, a)) == [s[a]] + Render(m, Scan(kind, s, a + 1))
    ensures KnownCount(m, Scan(kind, s, a)) == KnownCount(m, Scan(kind, s, a + 1))
  {
    var ps := Scan(kind, s, a);
    assert ps[0] == Lit(s[a]);
    assert ps[1..] == Scan(kind, s, a + 1);
  }

  /** A match is rendered as its piece, and the scan resumes at its end. */
  lemma RenderToken(kind: Kind, m: map<string, string>, s: string, i: int)
    requires 0 <= i < |s| && TokenEnd(kind, s, i) >= 0
    ensures var e := TokenEnd(kind, s, i);
      var p := Var(NameOf(kind, s, i, e), s[i..e]);
      Render(m, Scan(kind, s, i)) == PieceText(m, p) + Render(m, Scan(kind, s, e)) &&
      KnownCount(m, Scan(kind, s, i)) == (if p.name in m then 1 else 0) + KnownCount(m, Scan(kind, s, e))
  {
    var e := TokenEnd(kind, s, i);
    var ps := Scan(kind, s, i);
    assert ps[1..] == Scan(kind, s, e);
  }

  lemma ConcatAssoc(a: string, b: string, c: string)
    ensures (a + b) + c == a + (b + c)
  {
  }

  /** From the last match's end to the end of the next match. */
  lemma RenderAdvance(kind: Kind, m: map<string, string>, s: string, last: int, start: int, e: int)
    requires 0 <= last <= start < |s| && NoTokenBetween(kind, s, last, start)
    requires e == TokenEnd(kind, s, start) && e >= 0
    ensures TokenAt(kind, s, start, e)
    ensures Render(m, Scan(kind, s, last)) ==
      s[last..start] + (PieceText(m, Var(NameOf(kind, s, start, e), s[start..e])) + Render(m, Scan(kind, s, e)))
    ensures KnownCount(m, Scan(kind, s, last)) ==
      (if NameOf(kind, s, start, e) in m then 1 else 0) + KnownCount(m, Scan(kind, s, e))
  {
    RenderSkip(kind, m, s, last, start);
    RenderToken(kind, m, s, start);
  }

  /** One `appendReplacement` keeps `result + rest-of-scan` equal to the whole rendering. */
  lemma AppendReplacementStep(kind: Kind, m: map<string, string>, s: string, last: int, start: int, e: int,
                              result: string, target: string)
    requires 0 <= last <= start < |s| && NoTokenBetween(kind, s, last, start)
    requires e == TokenEnd(kind, s, start) && e >= 0
    requires result + Render(m, Scan(kind, s, last)) == target
    ensures TokenAt(kind, s, start, e)
    ensures (result + (s[last..start] + PieceText(m, Var(NameOf(kind, s, start, e), s[start..e])))) +
      Render(m, Scan(kind, s, e)) == target
  {
    RenderAdvance(kind, m, s, last, start, e);
    var x := s[last..start];
    var p := PieceText(m, Var(NameOf(kind, s, start, e), s[start..e]));
    var r := Render(m, Scan(kind, s, e));
    ConcatAssoc(result, x + p, r);
    ConcatAssoc(x, p, r);
  }

  /** `appendTail` completes the rendering. */
  lemma AppendTailStep(kind: Kind, m: map<string, string>, s: string, last: int, result: string, target: string)
    requires 0 <= last <= |s| && NoTokenBetween(kind, s, last, |s|)
    requires result + Render(m, Scan(kind, s, last)) == target
    ensures result + s[last..] == target
  {
    RenderSkip(kind, m, s, last, |s|);
    assert Scan(kind, s, |s|) == [];
  }

  lemma RenderSingle(m: map<string, string>, p: Piece)
    ensures Render(m, [p]) == PieceText(m, p)
    ensures KnownCount(m, [p]) == if p.Var? && p.name in m then 1 else 0
    ensures Masked([p]) == if p.Lit? then [p.c] else Marker
  {
    assert [p][1..] == [];
  }

  /** A pass that meets no known name gives back its input. */
  lemma {:induction false} PassWithoutKnownNameIsIdentity(kind: Kind, m: map<string, string>, s: string, i: int)
    requires 0 <= i <= |s|
    requires KnownCount(m, Scan(kind, s, i)) == 0
    ensures Render(m, Scan(kind, s, i)) == s[i..]
    decreases |s| - i
  {
    if i < |s| {
      var e := TokenEnd(kind, s, i);
      var j := if e < 0 then i + 1 else e;
      var head := s[i..j];
      assert s[i..] == head + s[j..];
      assert KnownCount(m, Scan(kind, s, j)) == 0
        && Render(m, Scan(kind, s, i)) == head + Render(m, Scan(kind, s, j)) by {
        if e < 0 {
          LiteralStep(kind, m, s, i);
          assert head == [s[i]];
        } else {
          MatchStep(kind, m, s, i);
        }
      }
      assert Render(m, Scan(kind, s, j)) == s[j..] by {
        PassWithoutKnownNameIsIdentity(kind, m, s, j);
      }
    }
  }

  /** Text without a `$` holds no match: it is copied and counts nothing. */
  lemma {:induction false} DollarFreeIsCopied(kind: Kind, m: map<string, string>, s: string, i: int)
    requires 0 <= i <= |s|
    requires forall p :: i <= p < |s| ==> s[p] != '$'
    ensures Render(m, Scan(kind, s, i)) == s[i..]
    ensures KnownCount(m, Scan(kind, s, i)) == 0
  {
    assert NoTokenBetween(kind, s, i, |s|);
    RenderSkip(kind, m, s, i, |s|);
  }

  /** With an empty map both passes give the text back. */
  lemma EmptyMapIsIdentity(s: string)
    ensures ReplaceAll(map[], s) == s
  {
    var m: map<string, string> := map[];
    KnownCountOfEmptyMap(Scan(BracePattern, s, 0));
    PassWithoutKnownNameIsIdentity(BracePattern, m, s, 0);
    KnownCountOfEmptyMap(Scan(SimplePattern, s, 0));
    PassWithoutKnownNameIsIdentity(SimplePattern, m, s, 0);
  }

  lemma {:induction false} KnownCountOfEmptyMap(ps: seq<Piece>)
    ensures KnownCount(map[], ps) == 0
  {
    if ps != [] {
      KnownCountOfEmptyMap(ps[1..]);
    }
  }

  /** A text without any `$` is left alone whatever the map holds. */
  lemma NoDollarUnchanged(m: map<string, string>, s: string)
    requires '$' !in s
    ensures ReplaceAll(m, s) == s
    ensures Count(m, s, ReplaceAll(m, s)) == 0
  {
    DollarFreeIsCopied(BracePattern, m, s, 0);
    DollarFreeIsCopied(SimplePattern, m, s, 0);
  }

  /**
   * A text changes only through a known name: one met by the `${name}` pass
   * in the original, or by the `$name` pass in the first pass's output.
   */
  lemma ChangeNeedsKnownName(m: map<string, string>, s: string)
    requires ReplaceAll(m, s) != s
    ensures KnownCount(m, Scan(BracePattern, s, 0)) > 0 ||
            KnownCount(m, Scan(SimplePattern, ReplaceBrace(m, s), 0)) > 0
  {
    if KnownCount(m, Scan(BracePattern, s, 0)) == 0 {
      PassWithoutKnownNameIsIdentity(BracePattern, m, s, 0);
      if KnownCount(m, Scan(SimplePattern, ReplaceBrace(m, s), 0)) == 0 {
        PassWithoutKnownNameIsIdentity(SimplePattern, m, ReplaceBrace(m, s), 0);
      }
    }
  }

  function BraceText(n: string): string {
    "${" + n + "}"
  }

  /** The whole of `${n}` is one brace match named `n`. */
  lemma BraceTextScans(kind: Kind, n: string)
    requires IsName(n) && kind != SimplePattern
    ensures var t := BraceText(n);
      TokenEnd(kind, t, 0) == |t| && NameOf(kind, t, 0, |t|) == n &&
      Scan(kind, t, 0) == [Var(n, t)]
  {
    var t := BraceText(n);
    assert t[2..|t| - 1] == n;
    assert forall p :: 2 <= p < |t| - 1 ==> t[p] == n[p - 2];
    assert TokenAt(kind, t, 0, |t|);
    var e := TokenEnd(kind, t, 0);
    assert e == |t|;
    assert NameOf(kind, t, 0, e) == n;
    assert Scan(kind, t, |t|) == [];
    assert Scan(kind, t, 0) == [Var(n, t[0..e])] + Scan(kind, t, e);
    assert t[0..e] == t;
  }

  /** An unknown `${n}` survives both passes unchanged and is not counted. */
  lemma UnknownBraceSurvives(m: map<string, string>, n: string)
    requires IsName(n) && n !in m
    ensures ReplaceAll(m, BraceText(n)) == BraceText(n)
    ensures Count(m, BraceText(n), ReplaceAll(m, BraceText(n))) == 0
  {
    var t := BraceText(n);
    BraceTextScans(BracePattern, n);
    RenderSingle(m, Var(n, t));
    assert ReplaceBrace(m, t) == t;
    BraceTextHasNoSimpleMatch(n);
    RenderSkip(SimplePattern, m, t, 0, |t|);
    assert Scan(SimplePattern, t, |t|) == [];
    assert t[0..|t|] == t;
  }

  /** The `$name` pass finds nothing in `${n}`: its `$` is followed by `{`. */
  lemma BraceTextHasNoSimpleMatch(n: string)
    requires IsName(n)
    ensures NoTokenBetween(SimplePattern, BraceText(n), 0, |BraceText(n)|)
  {
    var t := BraceText(n);
    forall j | 0 <= j < |t|
      ensures TokenEnd(SimplePattern, t, j) < 0
    {
      if j == 0 {
        assert !IsNameStart(t[1]);
      } else {
        assert t[j] != '$' by {
          if 2 <= j < |t| - 1 {
            assert t[j] == n[j - 2];
          }
        }
        NoTokenWithoutDollar(SimplePattern, t, j);
      }
    }
  }

  /**
   * A `$b` inside the value of `${a}` is substituted again by the second
   * pass, while the count sees only the one `${a}` of the original.
   */
  lemma NestedValueSubstitutedAgain(m: map<string, string>, a: string, b: string)
    requires IsName(a) && IsName(b) && IsWordChar(b[|b| - 1])
    requires a in m && m[a] == "$" + b && b in m
    ensures ReplaceAll(m, BraceText(a)) == m[b]
    ensures Count(m, BraceText(a), m[b]) == if m[b] == BraceText(a) then 0 else 1
  {
    KnownBraceText(m, a);
    SimpleTextScans(b);
    RenderSingle(m, Var(b, "$" + b));
  }

  /** A known `${a}` alone: replaced by its value, counted once, masked whole. */
  lemma KnownBraceText(m: map<string, string>, a: string)
    requires IsName(a) && a in m
    ensures ReplaceBrace(m, BraceText(a)) == m[a]
    ensures KnownCount(m, Scan(BracePattern, BraceText(a), 0)) == 1
    ensures KnownCount(m, Scan(SimplePattern, Mask(BraceText(a)), 0)) == 0
  {
    var t := BraceText(a);
    BraceTextScans(BracePattern, a);
    BraceTextScans(MaskPattern, a);
    RenderSingle(m, Var(a, t));
    MarkerHasNoMatch(m);
  }

  lemma MarkerHasNoMatch(m: map<string, string>)
    ensures KnownCount(m, Scan(SimplePattern, Marker, 0)) == 0
  {
    DollarFreeIsCopied(SimplePattern, m, Marker, 0);
  }

  /** The whole of `$b` is one `$name` match named `b` when `b` ends in a word character. */
  lemma SimpleTextScans(b: string)
    requires IsName(b) && IsWordChar(b[|b| - 1])
    ensures Scan(SimplePattern, "$" + b, 0) == [Var(b, "$" + b)]
  {
    var u := "$" + b;
    assert SimpleAt(u, 0, |u|) by {
      assert forall p :: 1 <= p < |u| ==> u[p] == b[p - 1];
    }
    var e := TokenEnd(SimplePattern, u, 0);
    assert e == |u|;
    assert u[1..|u|] == b;
    assert u[0..|u|] == u;
    assert Scan(SimplePattern, u, |u|) == [];
  }

  lemma ScanCopiesLit(kind: Kind, s: string, a: int)
    requires 0 <= a < |s| && TokenEnd(kind, s, a) < 0
    ensures Scan(kind, s, a) == [Lit(s[a])] + Scan(kind, s, a + 1)
  {
  }

  lemma MaskedLit(c: char, rest: seq<Piece>)
    ensures Masked([Lit(c)] + rest) == [c] + Masked(rest)
  {
    assert ([Lit(c)] + rest)[1..] == rest;
  }

  /** Masking copies what no `${...}` covers. */
  lemma {:induction false} MaskedSkip(s: string, a: int, b: int)
    requires 0 <= a <= b <= |s| && NoTokenBetween(MaskPattern, s, a, b)
    ensures Masked(Scan(MaskPattern, s, a)) == s[a..b] + Masked(Scan(MaskPattern, s, b))
    decreases b - a
  {
    if a < b {
      MaskedSkip(s, a + 1, b);
      ScanCopiesLit(MaskPattern, s, a);
      MaskedLit(s[a], Scan(MaskPattern, s, a + 1));
      assert s[a..b] == [s[a]] + s[a + 1..b];
    }
  }

  /** After a `$` never followed by `{`, neither brace pattern matches. */
  predicate NoBraceOpening(y: string) {
    forall p :: 0 <= p < |y| - 1 && y[p] == '$' ==> y[p + 1] != '{'
  }

  /** No pattern matches where there is no `$`. */
  lemma NoTokenWithoutDollar(kind: Kind, s: string, j: int)
    requires 0 <= j < |s| && s[j] != '$'
    ensures TokenEnd(kind, s, j) < 0
  {
  }

  /** Neither brace pattern matches at a `$` not followed by `{`. */
  lemma NoBraceWithoutOpening(kind: Kind, s: string, j: int)
    requires kind != SimplePattern && 0 <= j < |s|
    requires j + 1 == |s| || s[j + 1] != '{'
    ensures TokenEnd(kind, s, j) < 0
  {
  }

  /** The brace patterns find nothing in a text without an opening `${`. */
  lemma NoBraceIn(kind: Kind, t: string, L: int)
    requires kind != SimplePattern && 0 <= L <= |t|
    requires NoBraceOpening(t[L..])
    ensures NoTokenBetween(kind, t, L, |t|)
  {
    var y := t[L..];
    forall j | L <= j < |t|
      ensures TokenEnd(kind, t, j) < 0
    {
      assert t[j] == y[j - L];
      if t[j] != '$' {
        NoTokenWithoutDollar(kind, t, j);
      } else {
        if j + 1 < |t| {
          assert t[j + 1] == y[j + 1 - L];
        }
        NoBraceWithoutOpening(kind, t, j);
      }
    }
  }

  /** A leading `${a}` is the first match of both brace patterns, and ends where it should. */
  lemma LeadingBraceEnd(kind: Kind, a: string, y: string)
    requires IsName(a) && kind != SimplePattern
    ensures var t := BraceText(a) + y;
      TokenEnd(kind, t, 0) == |BraceText(a)| && NameOf(kind, t, 0, |BraceText(a)|) == a &&
      t[0..|BraceText(a)|] == BraceText(a)
  {
    var h := BraceText(a);
    var t := h + y;
    var L := |h|;
    assert forall p :: 0 <= p < L ==> t[p] == h[p];
    assert forall p :: 2 <= p < L - 1 ==> h[p] == a[p - 2];
    assert TokenAt(kind, t, 0, L);
    if kind == BracePattern {
      assert BraceEnd(t, 0) == L;
    } else {
      assert MaskEnd(t, 0) == L;
    }
    assert t[2..L - 1] == a;
    assert t[0..L] == h;
  }

  /** A leading `${a}` is one match; the text after it is copied. */
  lemma LeadingBrace(kind: Kind, m: map<string, string>, a: string, y: string)
    requires IsName(a) && kind != SimplePattern
    requires NoBraceOpening(y)
    ensures var t := BraceText(a) + y;
      Render(m, Scan(kind, t, 0)) == PieceText(m, Var(a, BraceText(a))) + y &&
      KnownCount(m, Scan(kind, t, 0)) == (if a in m then 1 else 0) &&
      (kind == MaskPattern ==> Masked(Scan(kind, t, 0)) == Marker + y)
  {
    var h := BraceText(a);
    var t := h + y;
    var L := |h|;
    LeadingBraceEnd(kind, a, y);
    assert t[L..] == y;
    NoBraceIn(kind, t, L);
    RenderSkip(kind, m, t, L, |t|);
    if kind == MaskPattern {
      MaskedSkip(t, L, |t|);
    }
    assert Scan(kind, t, |t|) == [];
    assert t[L..|t|] == y;
    var ps := Scan(kind, t, 0);
    assert ps == [Var(a, h)] + Scan(kind, t, L);
    assert ps[1..] == Scan(kind, t, L);
  }

  /** `$b` ending in a word character, after anything, is one match reaching the end. */
  lemma TrailingSimpleEnd(x: string, b: string)
    requires IsName(b) && IsWordChar(b[|b| - 1])
    ensures var u := x + ("$" + b);
      TokenEnd(SimplePattern, u, |x|) == |u| && NameOf(SimplePattern, u, |x|, |u|) == b &&
      u[|x|..|u|] == "$" + b
  {
    var u := x + ("$" + b);
    var P := |x|;
    assert forall p :: P + 1 <= p < |u| ==> u[p] == b[p - P - 1];
    assert SimpleAt(u, P, |u|);
    assert u[P + 1..|u|] == b;
    assert u[P..|u|] == "$" + b;
  }

  /** A `$b` after text without `$` is one match at the end. */
  lemma TrailingSimple(m: map<string, string>, x: string, b: string)
    requires '$' !in x && IsName(b) && IsWordChar(b[|b| - 1])
    ensures var u := x + ("$" + b);
      Render(m, Scan(SimplePattern, u, 0)) == x + PieceText(m, Var(b, "$" + b)) &&
      KnownCount(m, Scan(SimplePattern, u, 0)) == (if b in m then 1 else 0)
  {
    var u := x + ("$" + b);
    var P := |x|;
    forall j | 0 <= j < P
      ensures TokenEnd(SimplePattern, u, j) < 0
    {
      assert u[j] == x[j];
      NoTokenWithoutDollar(SimplePattern, u, j);
    }
    RenderSkip(SimplePattern, m, u, 0, P);
    assert u[0..P] == x;
    TrailingSimpleEnd(x, b);
    assert Scan(SimplePattern, u, |u|) == [];
    var ps := Scan(SimplePattern, u, P);
    assert ps[1..] == [];
  }

  lemma AndThenSimpleHasNoOpening(b: string)
    requires IsName(b)
    ensures NoBraceOpening(" and " + ("$" + b))
  {
    var y := " and " + ("$" + b);
    assert forall p :: 6 <= p < |y| ==> y[p] == b[p - 6];
  }

  /** The text `${a} and $a` after both passes. */
  lemma BothFormsText(m: map<string, string>, a: string)
    requires IsName(a) && IsWordChar(a[|a| - 1]) && a in m && '$' !in m[a]
    ensures var t := BraceText(a) + (" and " + ("$" + a));
      ReplaceBrace(m, t) == (m[a] + " and ") + ("$" + a) &&
      ReplaceAll(m, t) == (m[a] + " and ") + m[a] &&
      KnownCount(m, Scan(BracePattern, t, 0)) == 1
  {
    var y := " and " + ("$" + a);
    AndThenSimpleHasNoOpening(a);
    LeadingBrace(BracePattern, m, a, y);
    ConcatAssoc(m[a], " and ", "$" + a);
    TrailingSimple(m, m[a] + " and ", a);
  }

  /** The count for `${a} and $a`: the masked text still shows the `$a`. */
  lemma BothFormsMasked(m: map<string, string>, a: string)
    requires IsName(a) && IsWordChar(a[|a| - 1])
    ensures var t := BraceText(a) + (" and " + ("$" + a));
      KnownCount(m, Scan(SimplePattern, Mask(t), 0)) == (if a in m then 1 else 0)
  {
    var y := " and " + ("$" + a);
    AndThenSimpleHasNoOpening(a);
    LeadingBrace(MaskPattern, m, a, y);
    ConcatAssoc(Marker, " and ", "$" + a);
    MarkerAndHasNoDollar();
    TrailingSimple(m, Marker + " and ", a);
  }

  lemma MarkerAndHasNoDollar()
    ensures '$' !in Marker + " and "
  {
  }

  /**
   * The documented example `${app.name} and $app.name`: both forms are
   * replaced by the value and the count is 2.
   */
  lemma BothFormsReplaced(m: map<string, string>, a: string)
    requires IsName(a) && IsWordChar(a[|a| - 1]) && a in m && '$' !in m[a]
    ensures var t := BraceText(a) + (" and " + ("$" + a));
      ReplaceAll(m, t) == (m[a] + " and ") + m[a] &&
      Count(m, t, ReplaceAll(m, t)) == 2
  {
    var t := BraceText(a) + (" and " + ("$" + a));
    BothFormsText(m, a);
    BothFormsMasked(m, a);
    assert t[0] == '$';
    assert '$' !in (m[a] + " and ") + m[a];
  }

  // ---------------------------------------------------------------------
  // loadVariableMap

  /** A property value as stored: trimmed, and "" for a missing value. */
  function StoredValue(v: Option<string>): string {
    if v.Some? then Trim(v.value) else ""
  }

  /** Each property as `loadVariableMap` puts it: trimmed name, stored value. */
  function StoredPairs(props: seq<(string, Option<string>)>): (r: seq<(string, string)>)
    ensures |r| == |props|
    ensures forall i :: 0 <= i < |props| ==> r[i] == (Trim(props[i].0), StoredValue(props[i].1))
  {
    seq(|props|, i requires 0 <= i < |props| => (Trim(props[i].0), StoredValue(props[i].1)))
  }

  /** Successive `put`s, later pairs overwriting earlier ones. */
  function PutAll(ps: seq<(string, string)>): map<string, string>
    decreases |ps|
  {
    if ps == [] then map[] else PutAll(ps[..|ps| - 1])[ps[|ps| - 1].0 := ps[|ps| - 1].1]
  }

  /** The map `loadVariableMap` leaves behind (it is cleared first). */
  function Loaded(props: seq<(string, Option<string>)>): map<string, string> {
    PutAll(StoredPairs(props))
  }

  lemma PutAllStep(ps: seq<(string, string)>, i: int)
    requires 0 <= i < |ps|
    ensures PutAll(ps[..i + 1]) == PutAll(ps[..i])[ps[i].0 := ps[i].1]
  {
    assert ps[..i + 1][..i] == ps[..i];
  }

  lemma {:induction false} PutAllKeys(ps: seq<(string, string)>, k: string)
    ensures k in PutAll(ps) <==> exists i :: 0 <= i < |ps| && ps[i].0 == k
    decreases |ps|
  {
    if ps != [] {
      var n := |ps| - 1;
      var prev := ps[..n];
      PutAllKeys(prev, k);
      if k == ps[n].0 {
      } else if k in PutAll(prev) {
        var i :| 0 <= i < n && prev[i].0 == k;
        assert ps[i].0 == k;
      } else {
        forall i | 0 <= i < |ps|
          ensures ps[i].0 != k
        {
          if i < n {
            assert ps[i] == prev[i];
          }
        }
      }
    }
  }

  lemma {:induction false} PutAllLastWins(ps: seq<(string, string)>, i: int)
    requires 0 <= i < |ps|
    requires forall j :: i < j < |ps| ==> ps[j].0 != ps[i].0
    ensures ps[i].0 in PutAll(ps) && PutAll(ps)[ps[i].0] == ps[i].1
    decreases |ps|
  {
    var n := |ps| - 1;
    if i < n {
      PutAllLastWins(ps[..n], i);
    }
  }

  lemma {:induction false} PutAllValues(ps: seq<(string, string)>, k: string)
    requires k in PutAll(ps)
    ensures exists i :: 0 <= i < |ps| && ps[i] == (k, PutAll(ps)[k])
    decreases |ps|
  {
    var n := |ps| - 1;
    if k != ps[n].0 {
      PutAllValues(ps[..n], k);
      var i :| 0 <= i < n && ps[..n][i] == (k, PutAll(ps[..n])[k]);
      assert ps[i] == (k, PutAll(ps)[k]);
    }
  }

  lemma {:induction false} PutAllSize(ps: seq<(string, string)>)
    ensures |PutAll(ps)| <= |ps|
    decreases |ps|
  {
    if ps != [] {
      var n := |ps| - 1;
      PutAllSize(ps[..n]);
      var prev := PutAll(ps[..n]);
      if ps[n].0 in prev {
        assert PutAll(ps).Keys == prev.Keys;
      } else {
        assert PutAll(ps).Keys == prev.Keys + {ps[n].0};
      }
    }
  }

  /** The keys are exactly the trimmed property names. */
  lemma LoadedKeys(props: seq<(string, Option<string>)>, k: string)
    ensures k in Loaded(props) <==> exists i :: 0 <= i < |props| && Trim(props[i].0) == k
  {
    var ps := StoredPairs(props);
    PutAllKeys(ps, k);
    if k in Loaded(props) {
      var i :| 0 <= i < |ps| && ps[i].0 == k;
      assert Trim(props[i].0) == k;
    }
  }

  /** A name's value comes from the last property that trims to it. */
  lemma LoadedLastWins(props: seq<(string, Option<string>)>, i: int)
    requires 0 <= i < |props|
    requires forall j :: i < j < |props| ==> Trim(props[j].0) != Trim(props[i].0)
    ensures Trim(props[i].0) in Loaded(props)
    ensures Loaded(props)[Trim(props[i].0)] == StoredValue(props[i].1)
  {
    PutAllLastWins(StoredPairs(props), i);
  }

  lemma TrimOfTrimmed(s: string)
    requires s == [] || (!IsTrimmable(s[0]) && !IsTrimmable(s[|s| - 1]))
    ensures Trim(s) == s
  {
  }

  lemma StoredValueIsTrimmed(v: Option<string>)
    ensures Trim(StoredValue(v)) == StoredValue(v)
  {
    if v.Some? {
      TrimOfTrimmed(Trim(v.value));
    }
  }

  /** Every stored name and value is already trimmed. */
  lemma LoadedIsTrimmed(props: seq<(string, Option<string>)>, k: string)
    requires k in Loaded(props)
    ensures Trim(k) == k && Trim(Loaded(props)[k]) == Loaded(props)[k]
  {
    var ps := StoredPairs(props);
    PutAllValues(ps, k);
    var i :| 0 <= i < |ps| && ps[i] == (k, PutAll(ps)[k]);
    assert k == Trim(props[i].0);
    TrimOfTrimmed(k);
    StoredValueIsTrimmed(props[i].1);
  }

  /** `getVariableCount` after loading never exceeds the number of properties. */
  lemma LoadedSize(props: seq<(string, Option<string>)>)
    ensures |Loaded(props)| <= |props|
  {
    PutAllSize(StoredPairs(props));
  }

  // ---------------------------------------------------------------------
  // The scanning loops

  /** `matcher.find()`: the first match at or after `from`. */
  method FindToken(kind: Kind, s: string, from: int) returns (start: int, end: int)
    requires 0 <= from <= |s|
    ensures start >= 0 ==>
      from <= start < end <= |s| && end == TokenEnd(kind, s, start) && NoTokenBetween(kind, s, from, start)
    ensures start < 0 ==> NoTokenBetween(kind, s, from, |s|)
  {
    var j := from;
    while j < |s|
      invariant from <= j <= |s|
      invariant NoTokenBetween(kind, s, from, j)
    {
      var e := TokenEnd(kind, s, j);
      if e >= 0 {
        return j, e;
      }
      j := j + 1;
    }
    return -1, -1;
  }

  class VariableReplacer {
    var variableMap: map<string, string>

    constructor()
      ensures variableMap == map[]
    {
      variableMap := map[];
    }

    /** `loadVariableMap` from the properties already read, in iteration order. */
    method LoadVariableMap(props: seq<(string, Option<string>)>)
      modifies this
      ensures variableMap == Loaded(props)
    {
      ghost var ps := StoredPairs(props);
      variableMap := map[];
      var i := 0;
      while i < |props|
        invariant 0 <= i <= |props|
        invariant variableMap == PutAll(ps[..i])
      {
        var key := props[i].0;
        var value := props[i].1;
        PutAllStep(ps, i);
        if value.Some? {
          variableMap := variableMap[Trim(key) := Trim(value.value)];
        } else {
          variableMap := variableMap[Trim(key) := ""];
        }
        i := i + 1;
      }
      assert ps[..i] == ps;
    }

    method GetVariableCount() returns (n: int)
      ensures n == |variableMap|
    {
      n := |variableMap|;
    }

    /** The `find`/`appendReplacement`/`appendTail` loop of both replace passes. */
    method ReplaceMatches(kind: Kind, content: string) returns (r: string)
      ensures r == Render(variableMap, Scan(kind, content, 0))
    {
      ghost var target := Render(variableMap, Scan(kind, content, 0));
      var result := "";
      var last := 0;
      var done := false;
      while !done
        invariant 0 <= last <= |content|
        invariant !done ==> result + Render(variableMap, Scan(kind, content, last)) == target
        invariant done ==> result == target
        decreases |content| - last, !done
      {
        var start, end := FindToken(kind, content, last);
        if start < 0 {
          AppendTailStep(kind, variableMap, content, last, result, target);
          result := result + content[last..];
          done := true;
        } else {
          AppendReplacementStep(kind, variableMap, content, last, start, end, result, target);
          var name := NameOf(kind, content, start, end);
          // the value when the map knows the name, else the match itself
          var replacement := PieceText(variableMap, Var(name, content[start..end]));
          result := result + (content[last..start] + replacement);
          last := end;
        }
      }
      r := result;
    }

    method ReplaceBraceVariables(content: string) returns (r: string)
      ensures r == ReplaceBrace(variableMap, content)
    {
      r := ReplaceMatches(BracePattern, content);
    }

    method ReplaceSimpleVariables(content: string) returns (r: string)
      ensures r == ReplaceSimple(variableMap, content)
    {
      r := ReplaceMatches(SimplePattern, content);
    }

    /** One counting loop of `countReplacements`. */
    method CountKnownMatches(kind: Kind, content: string) returns (count: int)
      ensures count == KnownCount(variableMap, Scan(kind, content, 0))
    {
      count := 0;
      var last := 0;
      var start, end := FindToken(kind, content, 0);
      while start >= 0
        invariant 0 <= last <= |content|
        invariant start >= 0 ==>
          last <= start < end <= |content| && end == TokenEnd(kind, content, start) &&
          NoTokenBetween(kind, content, last, start)
        invariant start < 0 ==> NoTokenBetween(kind, content, last, |content|)
        invariant count + KnownCount(variableMap, Scan(kind, content, last)) == KnownCount(variableMap, Scan(kind, content, 0))
        decreases |content| - last
      {
        RenderAdvance(kind, variableMap, content, last, start, end);
        var name := NameOf(kind, content, start, end);
        if name in variableMap {
          count := count + 1;
        }
        last := end;
        start, end := FindToken(kind, content, last);
      }
      RenderSkip(kind, variableMap, content, last, |content|);
      assert Scan(kind, content, |content|) == [];
    }

    method CountReplacements(original: string, replaced: string) returns (count: int)
      ensures count == Count(variableMap, original, replaced)
    {
      if original == replaced {
        return 0;
      }
      var braces := CountKnownMatches(BracePattern, original);
      var marked := Mask(original);
      var simples := CountKnownMatches(SimplePattern, marked);
      count := braces + simples;
    }

    /**
     * `replaceVariablesInFile` on the file's text: the new text to write back
     * when it differs from the old, and the count reported.
     */
    method ReplaceVariablesInFile(content: string) returns (written: Option<string>, count: int)
      ensures var r := ReplaceAll(variableMap, content);
        written == (if r != content then Some(r) else None) &&
        count == Count(variableMap, content, r)
      ensures written.None? ==> count == 0
    {
      var replaced := ReplaceBraceVariables(content);
      replaced := ReplaceSimpleVariables(replaced);
      if replaced != content {
        written := Some(replaced);
        count := CountReplacements(content, replaced);
        return;
      }
      written := None;
      count := 0;
    }
  }
}
