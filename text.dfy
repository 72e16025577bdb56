/** The few `java.lang.String` operations the engine relies on. */
module JavaText {

  /** Characters `String.trim()` strips: every code unit up to and including the space. */
  predicate IsTrimmable(c: char) {
    c <= ' '
  }

  function TrimStart(s: string): (r: string)
    ensures |r| <= |s| && r == s[|s| - |r|..]
    ensures r == [] || !IsTrimmable(r[0])
    ensures forall i :: 0 <= i < |s| - |r| ==> IsTrimmable(s[i])
  {
    if s == [] || !IsTrimmable(s[0]) then s else TrimStart(s[1..])
  }

  function TrimEnd(s: string): (r: string)
    ensures |r| <= |s| && r == s[..|r|]
    ensures r == [] || !IsTrimmable(r[|r| - 1])
    ensures forall i :: |r| <= i < |s| ==> IsTrimmable(s[i])
  {
    if s == [] || !IsTrimmable(s[|s| - 1]) then s else TrimEnd(s[..|s| - 1])
  }

  /** `String.trim()`: the longest infix that neither starts nor ends with a trimmable character. */
  function Trim(s: string): (r: string)
    ensures r == [] || (!IsTrimmable(r[0]) && !IsTrimmable(r[|r| - 1]))
    ensures r == [] <==> forall i :: 0 <= i < |s| ==> IsTrimmable(s[i])
  {
    var t := TrimStart(s);
    var r := TrimEnd(t);
    assert r == [] ==> forall i :: 0 <= i < |s| ==> IsTrimmable(s[i]) by {
      if r == [] {
        assert t == [];
      }
    }
    r
  }

  /** `s.trim().isEmpty()`, what the rule validation calls blank. */
  predicate IsBlank(s: string) {
    Trim(s) == []
  }

  /**
   * `s.split(",")` without the removal of trailing empty pieces: every
   * caller skips empty pieces, so dropping them changes nothing.
   */
  function SplitOnComma(s: string): (r: seq<string>)
    ensures |r| >= 1
    ensures forall i :: 0 <= i < |r| ==> ',' !in r[i]
  {
    SplitFrom(s, [])
  }

  function SplitFrom(s: string, current: string): (r: seq<string>)
    requires ',' !in current
    ensures |r| >= 1
    ensures forall i :: 0 <= i < |r| ==> ',' !in r[i]
    decreases |s|
  {
    if s == [] then [current]
    else if s[0] == ',' then [current] + SplitFrom(s[1..], [])
    else SplitFrom(s[1..], current + [s[0]])
  }

  /** Joining the pieces with commas gives back the original text. */
  function JoinWithComma(parts: seq<string>): string
    requires |parts| >= 1
  {
    if |parts| == 1 then parts[0] else parts[0] + [','] + JoinWithComma(parts[1..])
  }

  lemma {:induction false} SplitFromJoins(s: string, current: string)
    requires ',' !in current
    ensures JoinWithComma(SplitFrom(s, current)) == current + s
    decreases |s|
  {
    if s == [] {
    } else if s[0] == ',' {
      SplitFromJoins(s[1..], []);
      assert s == [','] + s[1..];
    } else {
      SplitFromJoins(s[1..], current + [s[0]]);
      assert current + [s[0]] + s[1..] == current + s;
    }
  }

  /** Splitting loses nothing: the pieces re-joined are the input. */
  lemma SplitJoins(s: string)
    ensures JoinWithComma(SplitOnComma(s)) == s
  {
    SplitFromJoins(s, []);
  }
}
