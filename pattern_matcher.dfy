/**
 * Glob matching of rule patterns against a project's groupId and artifactId.
 *
 * The source turns each glob into a `java.util.regex` pattern by escaping
 * `.` and rewriting `*` to `.*` and `?` to `.`, then anchors it at both ends.
 * This model restates that glob language directly as tokens and a matcher,
 * and admits only patterns without any other regex metacharacter.
 */
module PatternMatcher {
  import opened Wrappers
  import opened JavaText

  /** Characters the regex `.` refuses without DOTALL (Java's line terminators). */
  predicate IsLineTerminator(c: char) {
    c == '\n' || c == '\r' || c == '\U{0085}' || c == '\U{2028}' || c == '\U{2029}'
  }

  /** Regex metacharacters that the glob translation would pass through unescaped. */
  predicate IsRegexMeta(c: char) {
    c in "\\^$|+()[]{}"
  }

  /** Patterns inside the modelled glob language. */
  predicate PlainPattern(p: string) {
    forall i :: 0 <= i < |p| ==> !IsRegexMeta(p[i])
  }

  /** One element of the translated regex. */
  datatype Token = Literal(c: char) | AnyRun | AnyOne

  /** `convertGlobToRegex`: `.` stays a literal dot, `*` becomes `.*`, `?` becomes `.`. */
  function GlobToTokens(glob: string): (r: seq<Token>)
    ensures |r| == |glob|
    ensures forall i :: 0 <= i < |glob| ==>
      r[i] == (if glob[i] == '*' then AnyRun else if glob[i] == '?' then AnyOne else Literal(glob[i]))
  {
    if glob == [] then []
    else
      [if glob[0] == '*' then AnyRun else if glob[0] == '?' then AnyOne else Literal(glob[0])]
      + GlobToTokens(glob[1..])
  }

  /** `Pattern.matcher(value).matches()` for an anchored token sequence. */
  function TokensMatch(ts: seq<Token>, v: string): bool
    decreases |ts| + |v|
  {
    if ts == [] then v == []
    else match ts[0]
      case Literal(c) => v != [] && v[0] == c && TokensMatch(ts[1..], v[1..])
      case AnyOne => v != [] && !IsLineTerminator(v[0]) && TokensMatch(ts[1..], v[1..])
      case AnyRun =>
        TokensMatch(ts[1..], v) || (v != [] && !IsLineTerminator(v[0]) && TokensMatch(ts, v[1..]))
  }

  /** A single trimmed sub-pattern matched against the whole value. */
  function GlobMatch(glob: string, v: string): bool {
    TokensMatch(GlobToTokens(glob), v)
  }

  /** `piece` is non-empty once trimmed and then matches the whole of `v`. */
  predicate PieceHits(piece: string, v: string) {
    Trim(piece) != [] && GlobMatch(Trim(piece), v)
  }

  /** The early-return loop over the pieces: does some piece hit? */
  function AnyPieceMatches(pieces: seq<string>, v: string): bool {
    if pieces == [] then false
    else PieceHits(pieces[0], v) || AnyPieceMatches(pieces[1..], v)
  }

  /** Every comma-separated piece of `pattern` is in the modelled glob language. */
  predicate PlainPieces(pattern: string) {
    forall i :: 0 <= i < |SplitOnComma(pattern)| ==> PlainPattern(Trim(SplitOnComma(pattern)[i]))
  }

  /** `PatternMatcher.matches`: None stands for a null pattern or value. */
  function Matches(pattern: Option<string>, value: Option<string>): (r: bool)
    requires pattern.Some? && pattern.value != "*" ==> PlainPieces(pattern.value)
    ensures pattern == None || pattern == Some("*") ==> r
    ensures pattern != None && pattern != Some("*") && value == None ==> !r
  {
    if pattern == None || pattern == Some("*") then true
    else if value == None then false
    else AnyPieceMatches(SplitOnComma(pattern.value), value.value)
  }

  // ---------------------------------------------------------------------
  // Properties of the matcher

  lemma {:induction false} AnyPieceMatchesExists(pieces: seq<string>, v: string)
    ensures AnyPieceMatches(pieces, v) <==> exists i :: 0 <= i < |pieces| && PieceHits(pieces[i], v)
  {
    if pieces != [] {
      var tail := pieces[1..];
      AnyPieceMatchesExists(tail, v);
      assert forall i :: 0 <= i < |tail| ==> tail[i] == pieces[i + 1];
      if exists i :: 0 <= i < |pieces| && PieceHits(pieces[i], v) {
        var i :| 0 <= i < |pieces| && PieceHits(pieces[i], v);
        if i > 0 {
          assert PieceHits(tail[i - 1], v);
        }
      }
    }
  }

  /**
   * A comma list other than "*" matches a non-null value iff some trimmed,
   * non-empty piece matches the whole value.
   */
  lemma CommaListMatchesIffSomePiece(pattern: string, v: string)
    requires PlainPieces(pattern) && pattern != "*"
    ensures Matches(Some(pattern), Some(v)) <==>
      exists i :: 0 <= i < |SplitOnComma(pattern)| && PieceHits(SplitOnComma(pattern)[i], v)
  {
    AnyPieceMatchesExists(SplitOnComma(pattern), v);
  }

  /** A pattern whose pieces are all blank (such as ",") matches nothing. */
  lemma BlankPiecesMatchNothing(pattern: string, v: Option<string>)
    requires PlainPieces(pattern) && pattern != "*"
    requires forall i :: 0 <= i < |SplitOnComma(pattern)| ==> Trim(SplitOnComma(pattern)[i]) == []
    ensures !Matches(Some(pattern), v)
  {
    if v.Some? {
      AnyPieceMatchesExists(SplitOnComma(pattern), v.value);
    }
  }

  predicate NoWildcards(glob: string) {
    '*' !in glob && '?' !in glob
  }

  /** A wildcard-free glob, dots included, matches exactly the identical string. */
  lemma {:induction false} LiteralGlobMatchesOnlyItself(glob: string, v: string)
    requires NoWildcards(glob)
    ensures GlobMatch(glob, v) <==> v == glob
  {
    if glob != [] {
      assert GlobToTokens(glob)[1..] == GlobToTokens(glob[1..]);
      assert NoWildcards(glob[1..]) by {
        assert forall c :: c in glob[1..] ==> c in glob;
      }
      if v != [] {
        LiteralGlobMatchesOnlyItself(glob[1..], v[1..]);
        assert v == [v[0]] + v[1..] && glob == [glob[0]] + glob[1..];
      }
    }
  }

  predicate NoLineTerminators(v: string) {
    forall i :: 0 <= i < |v| ==> !IsLineTerminator(v[i])
  }

  lemma {:induction false} AnyRunSplits(ts: seq<Token>, v: string)
    requires ts != [] && ts[0] == AnyRun
    ensures TokensMatch(ts, v) <==>
      exists k :: 0 <= k <= |v| && NoLineTerminators(v[..k]) && TokensMatch(ts[1..], v[k..])
    decreases |v|
  {
    if v == [] {
      if TokensMatch(ts, v) {
        assert NoLineTerminators(v[..0]) && v[0..] == v;
      }
    } else {
      AnyRunSplits(ts, v[1..]);
      if TokensMatch(ts, v) {
        if TokensMatch(ts[1..], v) {
          assert NoLineTerminators(v[..0]) && v[0..] == v;
        } else {
          var k :| 0 <= k <= |v[1..]| && NoLineTerminators(v[1..][..k]) && TokensMatch(ts[1..], v[1..][k..]);
          assert v[..k + 1] == [v[0]] + v[1..][..k];
          assert v[k + 1..] == v[1..][k..];
        }
      }
      if exists k :: 0 <= k <= |v| && NoLineTerminators(v[..k]) && TokensMatch(ts[1..], v[k..]) {
        var k :| 0 <= k <= |v| && NoLineTerminators(v[..k]) && TokensMatch(ts[1..], v[k..]);
        if k > 0 {
          assert v[..k][0] == v[0];
          assert v[1..][..k - 1] == v[..k][1..];
          assert v[1..][k - 1..] == v[k..];
        } else {
          assert v[0..] == v;
        }
      }
    }
  }

  /**
   * In a sub-pattern, `*` matches any run of characters, the empty run
   * included, that holds no line terminator.
   */
  lemma StarMatchesAnyRun(rest: string, v: string)
    ensures GlobMatch("*" + rest, v) <==>
      exists k :: 0 <= k <= |v| && NoLineTerminators(v[..k]) && GlobMatch(rest, v[k..])
  {
    var ts := GlobToTokens("*" + rest);
    assert ts[1..] == GlobToTokens(rest) by {
      assert ("*" + rest)[1..] == rest;
    }
    AnyRunSplits(ts, v);
  }

  /** In a sub-pattern, `?` matches exactly one character that is not a line terminator. */
  lemma QuestionMatchesOneChar(rest: string, v: string)
    ensures GlobMatch("?" + rest, v) <==>
      |v| >= 1 && !IsLineTerminator(v[0]) && GlobMatch(rest, v[1..])
  {
    assert GlobToTokens("?" + rest)[1..] == GlobToTokens(rest) by {
      assert ("?" + rest)[1..] == rest;
    }
  }

  lemma SinglePiece(glob: string)
    requires ',' !in glob
    ensures SplitOnComma(glob) == [glob]
  {
    SplitFromNoComma(glob, []);
    assert [] + glob == glob;
  }

  lemma {:induction false} SplitFromNoComma(t: string, cur: string)
    requires ',' !in cur && ',' !in t
    ensures SplitFrom(t, cur) == [cur + t]
    decreases |t|
  {
    if t != [] {
      assert t[0] in t;
      assert ',' !in t[1..] by {
        assert forall c :: c in t[1..] ==> c in t;
      }
      assert ',' !in cur + [t[0]];
      SplitFromNoComma(t[1..], cur + [t[0]]);
      assert cur + [t[0]] + t[1..] == cur + t;
    } else {
      assert cur + t == cur;
    }
  }

  lemma TrimKeeps(s: string)
    requires s != [] && !IsTrimmable(s[0]) && !IsTrimmable(s[|s| - 1])
    ensures Trim(s) == s
  {
  }

  lemma TokensOfMySvc()
    ensures GlobToTokens("my-*-svc") ==
      [Literal('m'), Literal('y'), Literal('-'), AnyRun, Literal('-'), Literal('s'), Literal('v'), Literal('c')]
  {
  }

  lemma MySvcMatches()
    ensures GlobMatch("my-*-svc", "my-app-svc")
  {
    TokensOfMySvc();
    var ts := GlobToTokens("my-*-svc");
    var tail := [Literal('-'), Literal('s'), Literal('v'), Literal('c')];
    assert ts[4..] == tail;
    assert TokensMatch([], []);
    assert TokensMatch(tail[3..], "c");
    assert TokensMatch(tail[2..], "vc");
    assert TokensMatch(tail[1..], "svc");
    assert TokensMatch(tail, "-svc");
    assert TokensMatch(ts[3..], "-svc");
    assert TokensMatch(ts[3..], "p-svc");
    assert TokensMatch(ts[3..], "pp-svc");
    assert TokensMatch(ts[3..], "app-svc");
    assert TokensMatch(ts[2..], "-app-svc");
    assert TokensMatch(ts[1..], "y-app-svc");
  }

  lemma OtherSvcFails()
    ensures !GlobMatch("my-*-svc", "other-app-svc")
  {
    TokensOfMySvc();
  }

  /** A single already-trimmed glob without commas is inside the modelled language. */
  lemma SingleGlobIsPlain(glob: string)
    requires ',' !in glob && PlainPattern(glob)
    requires glob != [] && !IsTrimmable(glob[0]) && !IsTrimmable(glob[|glob| - 1])
    ensures SplitOnComma(glob) == [glob] && Trim(glob) == glob
    ensures PlainPieces(glob)
  {
    SinglePiece(glob);
    TrimKeeps(glob);
  }

  /** A pattern that is one piece matches exactly what that piece hits. */
  lemma SinglePieceMatches(glob: string, v: string)
    requires glob != "*" && PlainPieces(glob) && SplitOnComma(glob) == [glob]
    ensures Matches(Some(glob), Some(v)) == PieceHits(glob, v)
  {
    calc {
      Matches(Some(glob), Some(v));
      AnyPieceMatches([glob], v);
      { assert [glob][1..] == []; }
      PieceHits(glob, v) || AnyPieceMatches([], v);
    }
  }

  lemma MySvcGlobIsPlain(glob: string)
    requires glob == "my-*-svc"
    ensures glob != "*" && SplitOnComma(glob) == [glob] && Trim(glob) == glob && PlainPieces(glob)
  {
    assert ',' !in glob;
    assert PlainPattern(glob);
    SingleGlobIsPlain(glob);
  }

  /** The source's own examples: anchoring rules out substring hits. */
  lemma AnchoredExamples(glob: string)
    requires glob == "my-*-svc"
    ensures PlainPieces(glob)
    ensures Matches(Some(glob), Some("my-app-svc"))
    ensures !Matches(Some(glob), Some("other-app-svc"))
  {
    MySvcGlobIsPlain(glob);
    MySvcMatches();
    OtherSvcFails();
    SinglePieceMatches(glob, "my-app-svc");
    SinglePieceMatches(glob, "other-app-svc");
  }
}
