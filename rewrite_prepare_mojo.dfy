/**
 * `RewritePrepareMojo`: the `prepare` goal.  It checks the rule table,
 * keeps the rules whose patterns match the project, merges the recipe
 * files those rules list, applies every merge definition's edits and then
 * every matched rule's own edit, and hands the recipe definitions (never
 * the merge definitions) to `writeRecipes`.
 *
 * The rule file arrives already decoded (`RuleFile`); the recipe files are
 * a `FileSystem`; the output file's content is returned.  Any exception of
 * the source is an outcome here: `Rejected` for a rule that fails
 * validation, `Failed` for everything else.
 */
module PrepareMojo {
  import opened Wrappers
  import opened YamlValues
  import opened Recipes
  import opened JavaText
  import opened PatternMatcher
  import opened UpdateOrders
  import opened RecipeDefinitions
  import opened MergeDefinitions
  import opened ListEdits
  import opened RecipeListUpdater
  import opened YamlParser
  import opened RecipeMerger

  /** One row of the rule table (`Rule`); None stands for a null field. */
  datatype Rule = Rule(
    artifactId: Option<string>,
    groupId: Option<string>,
    mergeFiles: Option<seq<string>>,
    updateRecipeList: Option<UpdateSpec>)

  // ---------------------------------------------------------------------
  // validateRules

  datatype Problem = BlankArtifactId | EmptyMergeFiles | BlankUpdateName

  /** The exception `validateRules` throws: the 1-based rule index and what is wrong. */
  datatype Violation = Violation(ruleIndex: nat, problem: Problem)

  /**
   * The first check a rule fails, in the order they are tried.  Only a
   * present value can fail: a null field passes.
   */
  function RuleProblem(r: Rule): Option<Problem>
  {
    if r.artifactId.Some? && IsBlank(r.artifactId.value) then Some(BlankArtifactId)
    else if r.mergeFiles.Some? && r.mergeFiles.value == [] then Some(EmptyMergeFiles)
    else if r.updateRecipeList.Some? && r.updateRecipeList.value.name.Some?
      && IsBlank(r.updateRecipeList.value.name.value) then Some(BlankUpdateName)
    else None
  }

  /**
   * A blank `artifactId` is always the reported problem (it is checked
   * first), and absent fields are never a problem: only present values
   * are checked.
   */
  lemma RuleProblemCases(r: Rule)
    ensures RuleProblem(r) == Some(BlankArtifactId) <==> r.artifactId.Some? && IsBlank(r.artifactId.value)
    ensures r.artifactId.None? && r.mergeFiles.None? && r.updateRecipeList.None? ==> RuleProblem(r).None?
    ensures r.mergeFiles.Some? && r.mergeFiles.value == [] ==> RuleProblem(r).Some?
  {
  }

  /** The first failing rule at or after position `i`. */
  function FirstViolationFrom(rules: seq<Rule>, i: nat): (v: Option<Violation>)
    requires i <= |rules|
    ensures v.None? <==> forall j :: i <= j < |rules| ==> RuleProblem(rules[j]).None?
    ensures v.Some? ==>
      i < v.value.ruleIndex <= |rules| &&
      RuleProblem(rules[v.value.ruleIndex - 1]) == Some(v.value.problem) &&
      forall j :: i <= j < v.value.ruleIndex - 1 ==> RuleProblem(rules[j]).None?
    decreases |rules| - i
  {
    if i == |rules| then None
    else
      var p := RuleProblem(rules[i]);
      if p.Some? then Some(Violation(i + 1, p.value))
      else FirstViolationFrom(rules, i + 1)
  }

  /**
   * What `validateRules` throws: nothing exactly when every rule passes,
   * otherwise the 1-based index of the first failing rule and its problem.
   */
  function FirstViolation(rules: seq<Rule>): (v: Option<Violation>)
    ensures v.None? <==> forall j :: 0 <= j < |rules| ==> RuleProblem(rules[j]).None?
    ensures v.Some? ==>
      1 <= v.value.ruleIndex <= |rules| &&
      RuleProblem(rules[v.value.ruleIndex - 1]) == Some(v.value.problem) &&
      forall j :: 0 <= j < v.value.ruleIndex - 1 ==> RuleProblem(rules[j]).None?
  {
    FirstViolationFrom(rules, 0)
  }

  /** One step of the scan: a rule with a problem stops it, a rule without passes it on. */
  lemma ViolationAt(rules: seq<Rule>, i: nat)
    requires i < |rules|
    ensures RuleProblem(rules[i]).Some? ==>
      FirstViolationFrom(rules, i) == Some(Violation(i + 1, RuleProblem(rules[i]).value))
    ensures RuleProblem(rules[i]).None? ==> FirstViolationFrom(rules, i) == FirstViolationFrom(rules, i + 1)
  {
  }

  /** `validateRules`: the indexed loop that throws at the first failing rule. */
  method ValidateRules(rules: seq<Rule>) returns (v: Option<Violation>)
    ensures v == FirstViolation(rules)
  {
    var i := 0;
    while i < |rules|
      invariant 0 <= i <= |rules|
      invariant FirstViolationFrom(rules, i) == FirstViolation(rules)
    {
      var rule := rules[i];
      var ruleIndex := i + 1;
      if rule.artifactId.Some? && IsBlank(rule.artifactId.value) {
        ViolationAt(rules, i);
        return Some(Violation(ruleIndex, BlankArtifactId));
      }
      if rule.mergeFiles.Some? && rule.mergeFiles.value == [] {
        ViolationAt(rules, i);
        return Some(Violation(ruleIndex, EmptyMergeFiles));
      }
      if rule.updateRecipeList.Some? {
        var name := rule.updateRecipeList.value.name;
        if name.Some? && IsBlank(name.value) {
          ViolationAt(rules, i);
          return Some(Violation(ruleIndex, BlankUpdateName));
        }
      }
      ViolationAt(rules, i);
      i := i + 1;
    }
    return None;
  }

  // ---------------------------------------------------------------------
  // findMatchingRules

  /** Both patterns of a rule are of the shape `PatternMatcher` models. */
  predicate PlainRule(r: Rule) {
    (r.groupId.Some? && r.groupId.value != "*" ==> PlainPieces(r.groupId.value)) &&
    (r.artifactId.Some? && r.artifactId.value != "*" ==> PlainPieces(r.artifactId.value))
  }

  predicate PlainTable(rules: seq<Rule>) {
    forall i :: 0 <= i < |rules| ==> PlainRule(rules[i])
  }

  /** The filter's test: the group pattern and the artifact pattern both match. */
  predicate RuleMatches(r: Rule, groupId: Option<string>, artifactId: Option<string>)
    requires PlainRule(r)
  {
    Matches(r.groupId, groupId) && Matches(r.artifactId, artifactId)
  }

  /** `findMatchingRules`: the matching rules, in table order. */
  function MatchingRules(rules: seq<Rule>, groupId: Option<string>, artifactId: Option<string>): (r: seq<Rule>)
    requires PlainTable(rules)
    ensures |r| <= |rules|
    ensures forall x :: x in r ==> x in rules
    ensures forall i :: 0 <= i < |rules| ==> (rules[i] in r <==> RuleMatches(rules[i], groupId, artifactId))
    decreases |rules|
  {
    if rules == [] then []
    else
      (if RuleMatches(rules[0], groupId, artifactId) then [rules[0]] else []) +
      MatchingRules(rules[1..], groupId, artifactId)
  }

  /** Filtering works row by row: it distributes over concatenation, so order is kept. */
  lemma {:induction false} MatchingRulesAppend(a: seq<Rule>, b: seq<Rule>, groupId: Option<string>, artifactId: Option<string>)
    requires PlainTable(a + b)
    ensures PlainTable(a) && PlainTable(b)
    ensures MatchingRules(a + b, groupId, artifactId) ==
      MatchingRules(a, groupId, artifactId) + MatchingRules(b, groupId, artifactId)
    decreases |a|
  {
    if a != [] {
      assert (a + b)[0] == a[0];
      assert (a + b)[1..] == a[1..] + b;
      MatchingRulesAppend(a[1..], b, groupId, artifactId);
    } else {
      assert a + b == b;
    }
  }

  /** A rule with a null or `*` pattern on both sides is kept for every project. */
  lemma WildcardRuleAlwaysMatches(rules: seq<Rule>, k: nat, groupId: Option<string>, artifactId: Option<string>)
    requires PlainTable(rules) && k < |rules|
    requires rules[k].groupId == None || rules[k].groupId == Some("*")
    requires rules[k].artifactId == None || rules[k].artifactId == Some("*")
    ensures rules[k] in MatchingRules(rules, groupId, artifactId)
  {
  }

  // ---------------------------------------------------------------------
  // mergeAllFiles / mergeAllFilesWithMerge

  /** The matched rules' `mergeFiles`, concatenated in rule order; null lists add nothing. */
  function AllMergeFiles(rules: seq<Rule>): seq<string>
    decreases |rules|
  {
    if rules == [] then []
    else AllMergeFiles(rules[..|rules| - 1]) + rules[|rules| - 1].mergeFiles.GetOr([])
  }

  lemma {:induction false} AllMergeFilesAppend(a: seq<Rule>, b: seq<Rule>)
    ensures AllMergeFiles(a + b) == AllMergeFiles(a) + AllMergeFiles(b)
    decreases |b|
  {
    if b == [] {
      assert a + b == a;
    } else {
      assert (a + b)[..|a + b| - 1] == a + b[..|b| - 1];
      AllMergeFilesAppend(a, b[..|b| - 1]);
    }
  }

  /** A path is in the merge list exactly when some rule lists it. */
  lemma {:induction false} AllMergeFilesListed(rules: seq<Rule>, f: string)
    ensures f in AllMergeFiles(rules) <==>
      exists i :: 0 <= i < |rules| && rules[i].mergeFiles.Some? && f in rules[i].mergeFiles.value
    decreases |rules|
  {
    if rules != [] {
      var init := rules[..|rules| - 1];
      AllMergeFilesListed(init, f);
      if f in AllMergeFiles(init) {
        var i :| 0 <= i < |init| && init[i].mergeFiles.Some? && f in init[i].mergeFiles.value;
        assert rules[i] == init[i];
      }
      if exists i :: 0 <= i < |rules| && rules[i].mergeFiles.Some? && f in rules[i].mergeFiles.value {
        var i :| 0 <= i < |rules| && rules[i].mergeFiles.Some? && f in rules[i].mergeFiles.value;
        if i < |init| {
          assert init[i] == rules[i];
        }
      }
    }
  }

  /** The collecting loop shared by `mergeAllFiles` and `mergeAllFilesWithMerge`. */
  method CollectMergeFiles(matchedRules: seq<Rule>) returns (allMergeFiles: seq<string>)
    ensures allMergeFiles == AllMergeFiles(matchedRules)
  {
    allMergeFiles := [];
    var i := 0;
    while i < |matchedRules|
      invariant 0 <= i <= |matchedRules|
      invariant allMergeFiles == AllMergeFiles(matchedRules[..i])
    {
      assert matchedRules[..i + 1][..i] == matchedRules[..i];
      var rule := matchedRules[i];
      if rule.mergeFiles.Some? {
        allMergeFiles := allMergeFiles + rule.mergeFiles.value;
      }
      i := i + 1;
    }
    assert matchedRules[..i] == matchedRules;
  }

  /** `mergeAllFilesWithMerge`: one merge over every matched rule's files. */
  method MergeAllFilesWithMerge(recipeDirectory: string, matchedRules: seq<Rule>, fs: FileSystem)
    returns (ok: bool, result: MergeResult)
    ensures var m := MergeAll(recipeDirectory, AllMergeFiles(matchedRules), fs);
      ok == m.ok &&
      (ok ==> Values(result.recipes) == m.recipes && MergeValues(result.mergeDefinitions) == m.merges)
    ensures forall d :: d in result.recipes ==> fresh(d)
    ensures Distinct(result.recipes)
  {
    var allMergeFiles := CollectMergeFiles(matchedRules);
    ok, result := MergeFilesWithMerge(recipeDirectory, allMergeFiles, fs);
  }

  /** `mergeAllFiles` (deprecated): the same merge, keeping only the recipe definitions. */
  method MergeAllFiles(recipeDirectory: string, matchedRules: seq<Rule>, fs: FileSystem)
    returns (ok: bool, recipes: seq<RecipeDefinition>)
    ensures var m := MergeAll(recipeDirectory, AllMergeFiles(matchedRules), fs);
      ok == m.ok && (ok ==> Values(recipes) == m.recipes)
    ensures forall d :: d in recipes ==> fresh(d)
  {
    var allMergeFiles := CollectMergeFiles(matchedRules);
    ok, recipes := MergeFiles(recipeDirectory, allMergeFiles, fs);
  }

  /** Every definition has a name and can be written. */
  predicate NamedWritable(ds: seq<Definition>) {
    forall i :: 0 <= i < |ds| ==> ds[i].name.Some? && Serializable(ds[i])
  }

  lemma {:induction false} MergeFoldWritable(m: Merged, dir: string, names: seq<string>, fs: FileSystem)
    requires NamedWritable(m.recipes)
    ensures NamedWritable(MergeFold(m, dir, names, fs).recipes)
    decreases |names|
  {
    if names != [] {
      var prev := MergeFold(m, dir, names[..|names| - 1], fs);
      MergeFoldWritable(m, dir, names[..|names| - 1], fs);
      var key := PathKey(dir, names[|names| - 1]);
      if prev.ok && key !in prev.processed && key in fs && fs[key].Readable? {
        var added := RecipesIn(fs[key].docs);
        var r := MergeFold(m, dir, names, fs).recipes;
        assert r == prev.recipes + added;
        forall i | |prev.recipes| <= i < |r| ensures r[i].name.Some? && Serializable(r[i]) {
          assert r[i] == added[i - |prev.recipes|];
        }
      }
    }
  }

  /** Merged recipe definitions are named and can be written. */
  lemma MergedRecipesWritable(dir: string, names: seq<string>, fs: FileSystem)
    ensures NamedWritable(MergeAll(dir, names, fs).recipes)
  {
    MergeFoldWritable(Start, dir, names, fs);
  }

  // ---------------------------------------------------------------------
  // The edit phase

  /** The merge definitions' update blocks: definition order, then list order. */
  function MergeDefUpdates(ms: seq<MergeDef>): seq<UpdateSpec>
    decreases |ms|
  {
    if ms == [] then []
    else MergeDefUpdates(ms[..|ms| - 1]) + ms[|ms| - 1].rules
  }

  /** The matched rules' own update blocks, in rule order; null ones are skipped. */
  function RuleUpdates(rules: seq<Rule>): seq<UpdateSpec>
    decreases |rules|
  {
    if rules == [] then []
    else
      var r := rules[|rules| - 1];
      RuleUpdates(rules[..|rules| - 1]) + (if r.updateRecipeList.Some? then [r.updateRecipeList.value] else [])
  }

  /** `updateRecipeList` once per block, in order; the first exception ends the run. */
  function UpdateFold(s: Updated, us: seq<UpdateSpec>): (r: Updated)
    ensures |r.defs| == |s.defs|
    decreases |us|
  {
    if us == [] then s
    else
      var prev := UpdateFold(s, us[..|us| - 1]);
      if !prev.ok then prev else UpdateValues(prev.defs, us[|us| - 1])
  }

  lemma {:induction false} UpdateFoldFailed(s: Updated, us: seq<UpdateSpec>)
    requires !s.ok
    ensures UpdateFold(s, us) == s
    decreases |us|
  {
    if us != [] {
      UpdateFoldFailed(s, us[..|us| - 1]);
    }
  }

  lemma {:induction false} UpdateFoldAppend(s: Updated, a: seq<UpdateSpec>, b: seq<UpdateSpec>)
    ensures UpdateFold(s, a + b) == UpdateFold(UpdateFold(s, a), b)
    decreases |b|
  {
    if b == [] {
      assert a + b == a;
    } else {
      assert (a + b)[..|a + b| - 1] == a + b[..|b| - 1];
      UpdateFoldAppend(s, a, b[..|b| - 1]);
    }
  }

  lemma {:induction false} MergeDefUpdatesAppend(a: seq<MergeDef>, b: seq<MergeDef>)
    ensures MergeDefUpdates(a + b) == MergeDefUpdates(a) + MergeDefUpdates(b)
    decreases |b|
  {
    if b == [] {
      assert a + b == a;
    } else {
      assert (a + b)[..|a + b| - 1] == a + b[..|b| - 1];
      MergeDefUpdatesAppend(a, b[..|b| - 1]);
    }
  }

  lemma {:induction false} RuleUpdatesAppend(a: seq<Rule>, b: seq<Rule>)
    ensures RuleUpdates(a + b) == RuleUpdates(a) + RuleUpdates(b)
    decreases |b|
  {
    if b == [] {
      assert a + b == a;
    } else {
      assert (a + b)[..|a + b| - 1] == a + b[..|b| - 1];
      RuleUpdatesAppend(a, b[..|b| - 1]);
    }
  }

  lemma FoldOneMore(s: Updated, us: seq<UpdateSpec>, u: UpdateSpec)
    requires UpdateFold(s, us).ok
    ensures UpdateFold(s, us + [u]) == UpdateValues(UpdateFold(s, us).defs, u)
  {
    assert (us + [u])[..|us|] == us;
  }

  lemma UpdateFoldStops(s: Updated, us: seq<UpdateSpec>, k: nat)
    requires k <= |us| && !UpdateFold(s, us[..k]).ok
    ensures UpdateFold(s, us) == UpdateFold(s, us[..k])
  {
    assert us[..k] + us[k..] == us;
    UpdateFoldAppend(s, us[..k], us[k..]);
    UpdateFoldFailed(UpdateFold(s, us[..k]), us[k..]);
  }

  lemma MergeDefUpdatesStep(ms: seq<MergeDef>, i: nat)
    requires i < |ms|
    ensures MergeDefUpdates(ms[..i + 1]) == MergeDefUpdates(ms[..i]) + ms[i].rules
  {
    assert ms[..i + 1][..i] == ms[..i];
  }

  lemma MergeDefFoldStops(s: Updated, ms: seq<MergeDef>, k: nat)
    requires k <= |ms| && !UpdateFold(s, MergeDefUpdates(ms[..k])).ok
    ensures UpdateFold(s, MergeDefUpdates(ms)) == UpdateFold(s, MergeDefUpdates(ms[..k]))
  {
    assert ms[..k] + ms[k..] == ms;
    MergeDefUpdatesAppend(ms[..k], ms[k..]);
    UpdateFoldAppend(s, MergeDefUpdates(ms[..k]), MergeDefUpdates(ms[k..]));
    UpdateFoldFailed(UpdateFold(s, MergeDefUpdates(ms[..k])), MergeDefUpdates(ms[k..]));
  }

  lemma RuleUpdatesStep(rules: seq<Rule>, j: nat)
    requires j < |rules|
    ensures RuleUpdates(rules[..j + 1]) == RuleUpdates(rules[..j]) +
      (if rules[j].updateRecipeList.Some? then [rules[j].updateRecipeList.value] else [])
  {
    assert rules[..j + 1][..j] == rules[..j];
  }

  lemma RuleFoldStops(s: Updated, rules: seq<Rule>, k: nat)
    requires k <= |rules| && !UpdateFold(s, RuleUpdates(rules[..k])).ok
    ensures UpdateFold(s, RuleUpdates(rules)) == UpdateFold(s, RuleUpdates(rules[..k]))
  {
    assert rules[..k] + rules[k..] == rules;
    RuleUpdatesAppend(rules[..k], rules[k..]);
    UpdateFoldAppend(s, RuleUpdates(rules[..k]), RuleUpdates(rules[k..]));
    UpdateFoldFailed(UpdateFold(s, RuleUpdates(rules[..k])), RuleUpdates(rules[k..]));
  }

  /**
   * `e` is `d` after edits: every property but the recipe list is the
   * same, a present list stays present, and the list only gained entries.
   */
  predicate Grown(d: Definition, e: Definition) {
    e == d.(recipeList := e.recipeList) &&
    (d.recipeList.Some? ==> e.recipeList.Some?) &&
    Extends(d.recipeList.GetOr([]), e.recipeList.GetOr([]))
  }

  lemma {:induction false} ExtendsTrans(l: seq<Recipe>, m: seq<Recipe>, n: seq<Recipe>)
    requires Extends(l, m) && Extends(m, n)
    ensures Extends(l, n)
    decreases |n|
  {
    if n != [] {
      if m != [] && m[0] == n[0] && Extends(m[1..], n[1..]) {
        if l != [] && l[0] == m[0] && Extends(l[1..], m[1..]) {
          ExtendsTrans(l[1..], m[1..], n[1..]);
        } else {
          ExtendsTrans(l, m[1..], n[1..]);
        }
      } else {
        ExtendsTrans(l, m, n[1..]);
      }
    }
  }

  lemma {:induction false} ExtendsKeepsWritable(l: seq<Recipe>, m: seq<Recipe>)
    requires Extends(l, m) && AllWritable(l)
    ensures AllWritable(m)
    decreases |m|
  {
    if m != [] {
      if l != [] && l[0] == m[0] && Extends(l[1..], m[1..]) {
        ExtendsKeepsWritable(l[1..], m[1..]);
      } else {
        ExtendsKeepsWritable(l, m[1..]);
      }
      assert forall i :: 1 <= i < |m| ==> m[i] == m[1..][i - 1];
    }
  }

  lemma GrownKeepsSerializable(d: Definition, e: Definition)
    requires Grown(d, e) && Serializable(d)
    ensures Serializable(e) && e.name == d.name
  {
    if e.recipeList.Some? {
      ExtendsKeepsWritable(d.recipeList.GetOr([]), e.recipeList.value);
    }
  }

  lemma UpdateValuesGrows(ds: seq<Definition>, u: UpdateSpec)
    ensures forall i :: 0 <= i < |ds| ==> Grown(ds[i], UpdateValues(ds, u).defs[i])
  {
    forall i | 0 <= i < |ds|
      ensures Grown(ds[i], UpdateValues(ds, u).defs[i])
    {
      if UpdateValues(ds, u).defs[i] == ds[i] {
        ExtendsRefl(ds[i].recipeList.GetOr([]));
      }
    }
  }

  /** However many blocks run, every definition keeps its place and only its list grows. */
  lemma {:induction false} UpdateFoldGrows(s: Updated, us: seq<UpdateSpec>)
    ensures forall i :: 0 <= i < |s.defs| ==> Grown(s.defs[i], UpdateFold(s, us).defs[i])
    decreases |us|
  {
    if us == [] {
      forall i | 0 <= i < |s.defs| ensures Grown(s.defs[i], s.defs[i]) {
        ExtendsRefl(s.defs[i].recipeList.GetOr([]));
      }
    } else {
      var prev := UpdateFold(s, us[..|us| - 1]);
      UpdateFoldGrows(s, us[..|us| - 1]);
      if prev.ok {
        UpdateValuesGrows(prev.defs, us[|us| - 1]);
        forall i | 0 <= i < |s.defs| ensures Grown(s.defs[i], UpdateFold(s, us).defs[i]) {
          var a, b, c := s.defs[i], prev.defs[i], UpdateFold(s, us).defs[i];
          ExtendsTrans(a.recipeList.GetOr([]), b.recipeList.GetOr([]), c.recipeList.GetOr([]));
        }
      }
    }
  }

  lemma FoldKeepsSerializable(s: Updated, us: seq<UpdateSpec>)
    requires forall i :: 0 <= i < |s.defs| ==> Serializable(s.defs[i])
    ensures forall i :: 0 <= i < |s.defs| ==> Serializable(UpdateFold(s, us).defs[i])
  {
    UpdateFoldGrows(s, us);
    forall i | 0 <= i < |s.defs| ensures Serializable(UpdateFold(s, us).defs[i]) {
      GrownKeepsSerializable(s.defs[i], UpdateFold(s, us).defs[i]);
    }
  }

  /** One `updateRecipeList` call on a list of distinct objects. */
  method ApplyUpdate(defs: seq<RecipeDefinition>, u: UpdateSpec) returns (ok: bool)
    requires Distinct(defs)
    modifies set d | d in defs
    ensures var r := UpdateValues(old(Values(defs)), u); ok == r.ok && Values(defs) == r.defs
  {
    ghost var before := Values(defs);
    ok := RecipeListUpdater.UpdateRecipeList(defs, u);
    ghost var r := UpdateValues(before, u);
    ghost var t := UpdateTarget(before, u);
    forall i | 0 <= i < |defs| ensures defs[i].Value() == r.defs[i] {
      if t >= 0 && i != t {
        assert defs[i] != defs[t];
      }
    }
    assert Values(defs) == r.defs;
  }

  /** The inner loop over one merge definition's `rules`. */
  method ApplyUpdates(defs: seq<RecipeDefinition>, us: seq<UpdateSpec>) returns (ok: bool)
    requires Distinct(defs)
    modifies set d | d in defs
    ensures var r := UpdateFold(Updated(old(Values(defs)), true), us); ok == r.ok && Values(defs) == r.defs
  {
    ghost var start := Updated(Values(defs), true);
    var i := 0;
    while i < |us|
      invariant 0 <= i <= |us|
      invariant UpdateFold(start, us[..i]) == Updated(Values(defs), true)
    {
      assert us[..i + 1][..i] == us[..i];
      ok := ApplyUpdate(defs, us[i]);
      FoldOneMore(start, us[..i], us[i]);
      if !ok {
        UpdateFoldStops(start, us, i + 1);
        return false;
      }
      i := i + 1;
    }
    assert us[..i] == us;
    return true;
  }

  // ---------------------------------------------------------------------
  // execute

  /** What Maven knows about the project being built. */
  datatype Project = Project(groupId: Option<string>, artifactId: Option<string>)

  /** The rule file: missing, unparsable (both throw), or its decoded `rules` list. */
  datatype RuleFile = Missing | Unparsable | Parsed(rules: Option<seq<Rule>>)

  predicate PlainRuleFile(f: RuleFile) {
    f.Parsed? && f.rules.Some? ==> PlainTable(f.rules.value)
  }

  /**
   * How a run ends.  `Wrote(recipes)`: `writeRecipes` received these
   * definitions, so the output file holds `Written(recipes)`.
   */
  datatype Outcome = Failed | Rejected(violation: Violation) | NothingToDo | Wrote(recipes: seq<Definition>)

  /** A null or empty parameter falls back to the project's value; a blank one does not. */
  function EffectiveId(param: Option<string>, projectValue: Option<string>): (r: Option<string>)
    ensures param == None || param == Some("") ==> r == projectValue
    ensures param != None && param != Some("") ==> r == param
  {
    if param.None? || param.value == "" then projectValue else param
  }

  /** The rules a run applies: the valid table's rows matching the effective ids. */
  function Matched(groupId: Option<string>, artifactId: Option<string>, project: Project, rules: seq<Rule>): seq<Rule>
    requires PlainTable(rules)
  {
    MatchingRules(rules, EffectiveId(groupId, project.groupId), EffectiveId(artifactId, project.artifactId))
  }

  /** The whole of `execute`, from the parameters as injected to the outcome. */
  function Run(groupId: Option<string>, artifactId: Option<string>, project: Project,
               ruleFile: RuleFile, recipeDirectory: string, fs: FileSystem): (r: Outcome)
    requires PlainRuleFile(ruleFile)
    ensures r.Wrote? ==> forall i :: 0 <= i < |r.recipes| ==> Serializable(r.recipes[i])
  {
    if !ruleFile.Parsed? then Failed
    else if ruleFile.rules.None? || ruleFile.rules.value == [] then NothingToDo
    else
      var rules := ruleFile.rules.value;
      var bad := FirstViolation(rules);
      if bad.Some? then Rejected(bad.value)
      else
        var matched := Matched(groupId, artifactId, project, rules);
        if matched == [] then NothingToDo
        else Prepare(recipeDirectory, matched, fs)
  }

  /**
   * The run once rules have matched: merge their files, apply the merge
   * definitions' edits, then the rules' own edits, and write the recipes.
   */
  function Prepare(recipeDirectory: string, matched: seq<Rule>, fs: FileSystem): (r: Outcome)
    ensures r.Wrote? ==> forall i :: 0 <= i < |r.recipes| ==> Serializable(r.recipes[i])
  {
    var m := MergeAll(recipeDirectory, AllMergeFiles(matched), fs);
    if !m.ok then Failed
    else
      var afterMerges := UpdateFold(Updated(m.recipes, true), MergeDefUpdates(m.merges));
      var afterRules := UpdateFold(afterMerges, RuleUpdates(matched));
      if !afterRules.ok then Failed
      else
        MergedRecipesWritable(recipeDirectory, AllMergeFiles(matched), fs);
        FoldKeepsSerializable(Updated(m.recipes, true), MergeDefUpdates(m.merges));
        FoldKeepsSerializable(afterMerges, RuleUpdates(matched));
        Wrote(afterRules.defs)
  }

  /** Step 2 of `execute`: every merge definition's `rules`, in order. */
  method ApplyMergeDefinitions(mergedRecipes: seq<RecipeDefinition>, mergedMergeDefinitions: seq<MergeRecipeDefinition>)
    returns (ok: bool)
    requires Distinct(mergedRecipes)
    modifies set d | d in mergedRecipes
    ensures var r := UpdateFold(Updated(old(Values(mergedRecipes)), true), MergeDefUpdates(old(MergeValues(mergedMergeDefinitions))));
      ok == r.ok && Values(mergedRecipes) == r.defs
  {
    ghost var start := Updated(Values(mergedRecipes), true);
    ghost var ms := MergeValues(mergedMergeDefinitions);
    var i := 0;
    while i < |mergedMergeDefinitions|
      invariant 0 <= i <= |mergedMergeDefinitions|
      invariant MergeValues(mergedMergeDefinitions) == ms
      invariant UpdateFold(start, MergeDefUpdates(ms[..i])) == Updated(Values(mergedRecipes), true)
    {
      MergeDefUpdatesStep(ms, i);
      var mergeDef := mergedMergeDefinitions[i];
      ok := ApplyUpdates(mergedRecipes, mergeDef.rules);
      UpdateFoldAppend(start, MergeDefUpdates(ms[..i]), ms[i].rules);
      if !ok {
        MergeDefFoldStops(start, ms, i + 1);
        return false;
      }
      i := i + 1;
    }
    assert ms[..i] == ms;
    return true;
  }

  /** Step 3 of `execute`: each matched rule's own `updateRecipeList`, in rule order. */
  method ApplyRuleUpdates(mergedRecipes: seq<RecipeDefinition>, matchedRules: seq<Rule>) returns (ok: bool)
    requires Distinct(mergedRecipes)
    modifies set d | d in mergedRecipes
    ensures var r := UpdateFold(Updated(old(Values(mergedRecipes)), true), RuleUpdates(matchedRules));
      ok == r.ok && Values(mergedRecipes) == r.defs
  {
    ghost var start := Updated(Values(mergedRecipes), true);
    var j := 0;
    while j < |matchedRules|
      invariant 0 <= j <= |matchedRules|
      invariant UpdateFold(start, RuleUpdates(matchedRules[..j])) == Updated(Values(mergedRecipes), true)
    {
      RuleUpdatesStep(matchedRules, j);
      var rule := matchedRules[j];
      if rule.updateRecipeList.Some? {
        ok := ApplyUpdate(mergedRecipes, rule.updateRecipeList.value);
        FoldOneMore(start, RuleUpdates(matchedRules[..j]), rule.updateRecipeList.value);
        if !ok {
          RuleFoldStops(start, matchedRules, j + 1);
          return false;
        }
      } else {
        assert RuleUpdates(matchedRules[..j + 1]) == RuleUpdates(matchedRules[..j]);
      }
      j := j + 1;
    }
    assert matchedRules[..j] == matchedRules;
    return true;
  }

  /** The run gets past the table checks exactly when rules matched. */
  lemma RunReachesPrepare(groupId: Option<string>, artifactId: Option<string>, project: Project,
                          rules: seq<Rule>, dir: string, fs: FileSystem)
    requires PlainTable(rules) && rules != [] && FirstViolation(rules).None?
    requires Matched(groupId, artifactId, project, rules) != []
    ensures Run(groupId, artifactId, project, RuleFile.Parsed(Some(rules)), dir, fs) ==
      Prepare(dir, Matched(groupId, artifactId, project, rules), fs)
  {
  }

  /** A null or empty table, or a table no rule of which matches, ends the run without output. */
  lemma NoWorkWritesNothing(groupId: Option<string>, artifactId: Option<string>, project: Project,
                            rules: Option<seq<Rule>>, dir: string, fs: FileSystem)
    requires PlainRuleFile(RuleFile.Parsed(rules))
    ensures rules.None? || rules == Some([]) ==>
      Run(groupId, artifactId, project, RuleFile.Parsed(rules), dir, fs) == NothingToDo
    ensures rules.Some? && FirstViolation(rules.value).None? && Matched(groupId, artifactId, project, rules.value) == [] ==>
      Run(groupId, artifactId, project, RuleFile.Parsed(rules), dir, fs) == NothingToDo
  {
  }

  /** An edit that throws while the merge definitions are applied fails the run. */
  lemma PrepareFailsOnMergeEdit(dir: string, matched: seq<Rule>, fs: FileSystem)
    requires MergeAll(dir, AllMergeFiles(matched), fs).ok
    requires var m := MergeAll(dir, AllMergeFiles(matched), fs);
      !UpdateFold(Updated(m.recipes, true), MergeDefUpdates(m.merges)).ok
    ensures Prepare(dir, matched, fs) == Failed
  {
    var m := MergeAll(dir, AllMergeFiles(matched), fs);
    UpdateFoldFailed(UpdateFold(Updated(m.recipes, true), MergeDefUpdates(m.merges)), RuleUpdates(matched));
  }

  /**
   * Steps 1 to 4 of `execute` once rules have matched: merge, apply the
   * merge definitions' edits, apply the rules' edits, write the recipes.
   */
  method PrepareRecipes(recipeDirectory: string, matchedRules: seq<Rule>, fs: FileSystem)
    returns (outcome: Outcome, output: seq<Yaml>)
    ensures outcome == Prepare(recipeDirectory, matchedRules, fs)
    ensures outcome.Wrote? ==> output == Written(outcome.recipes)
    ensures !outcome.Wrote? ==> output == []
  {
    var ok, mergeResult := MergeAllFilesWithMerge(recipeDirectory, matchedRules, fs);
    if !ok {
      return Failed, [];
    }
    var mergedRecipes := mergeResult.recipes;
    ok := ApplyMergeDefinitions(mergedRecipes, mergeResult.mergeDefinitions);
    if !ok {
      PrepareFailsOnMergeEdit(recipeDirectory, matchedRules, fs);
      return Failed, [];
    }
    ok := ApplyRuleUpdates(mergedRecipes, matchedRules);
    if !ok {
      return Failed, [];
    }
    outcome := Wrote(Values(mergedRecipes));
    assert outcome == Prepare(recipeDirectory, matchedRules, fs);
    assert forall i :: 0 <= i < |mergedRecipes| ==> Serializable(outcome.recipes[i]);
    output := WriteRecipes(mergedRecipes);
  }

  /** The goal's object: its parameters, which `execute` defaults in place. */
  class RewritePrepareMojo {
    var groupId: Option<string>
    var artifactId: Option<string>
    const project: Project
    const recipeDirectory: string

    constructor(groupId: Option<string>, artifactId: Option<string>, project: Project, recipeDirectory: string)
      ensures this.groupId == groupId && this.artifactId == artifactId
      ensures this.project == project && this.recipeDirectory == recipeDirectory
    {
      this.groupId := groupId;
      this.artifactId := artifactId;
      this.project := project;
      this.recipeDirectory := recipeDirectory;
    }

    /**
     * `execute`: default the ids, read the table, validate it, match,
     * merge, edit (merge definitions first, then the rules), write.
     * `output` is the content of the output file, empty when nothing is
     * written.
     */
    method Execute(ruleFile: RuleFile, fs: FileSystem) returns (outcome: Outcome, output: seq<Yaml>)
      requires PlainRuleFile(ruleFile)
      modifies this
      ensures groupId == EffectiveId(old(groupId), project.groupId)
      ensures artifactId == EffectiveId(old(artifactId), project.artifactId)
      ensures outcome == Run(old(groupId), old(artifactId), project, ruleFile, recipeDirectory, fs)
      ensures outcome.Wrote? ==> output == Written(outcome.recipes)
      ensures !outcome.Wrote? ==> output == []
    {
      output := [];
      if groupId.None? || groupId.value == "" {
        groupId := project.groupId;
      }
      if artifactId.None? || artifactId.value == "" {
        artifactId := project.artifactId;
      }
      if !ruleFile.Parsed? {
        return Failed, [];
      }
      if ruleFile.rules.None? || ruleFile.rules.value == [] {
        return NothingToDo, [];
      }
      var rules := ruleFile.rules.value;
      var bad := ValidateRules(rules);
      if bad.Some? {
        return Rejected(bad.value), [];
      }
      var matchedRules := MatchingRules(rules, groupId, artifactId);
      if matchedRules == [] {
        return NothingToDo, [];
      }
      RunReachesPrepare(old(groupId), old(artifactId), project, rules, recipeDirectory, fs);
      outcome, output := PrepareRecipes(recipeDirectory, matchedRules, fs);
    }
  }

  // ---------------------------------------------------------------------
  // Properties of a run

  /**
   * Validation reads the whole table: a blank value in any row, even one
   * that does not match this project, rejects the run, naming the first
   * failing row.
   */
  lemma AnyInvalidRowRejects(groupId: Option<string>, artifactId: Option<string>, project: Project,
                             rules: seq<Rule>, dir: string, fs: FileSystem, k: nat)
    requires PlainTable(rules) && k < |rules| && RuleProblem(rules[k]).Some?
    ensures var r := Run(groupId, artifactId, project, RuleFile.Parsed(Some(rules)), dir, fs);
      r.Rejected? && r.violation.ruleIndex <= k + 1 &&
      RuleProblem(rules[r.violation.ruleIndex - 1]) == Some(r.violation.problem)
  {
  }

  /**
   * Only recipe definitions are written: one per merged recipe definition,
   * in merge order, each with every property but its recipe list as read
   * and its recipe list only gaining entries.
   */
  lemma OutputIsMergedRecipes(groupId: Option<string>, artifactId: Option<string>, project: Project,
                              rules: seq<Rule>, dir: string, fs: FileSystem)
    requires PlainTable(rules)
    requires Run(groupId, artifactId, project, RuleFile.Parsed(Some(rules)), dir, fs).Wrote?
    ensures var out := Run(groupId, artifactId, project, RuleFile.Parsed(Some(rules)), dir, fs).recipes;
      var m := MergeAll(dir, AllMergeFiles(Matched(groupId, artifactId, project, rules)), fs);
      m.ok && |out| == |m.recipes| && forall i :: 0 <= i < |out| ==> Grown(m.recipes[i], out[i])
  {
    var matched := Matched(groupId, artifactId, project, rules);
    var m := MergeAll(dir, AllMergeFiles(matched), fs);
    var s := Updated(m.recipes, true);
    var afterMerges := UpdateFold(s, MergeDefUpdates(m.merges));
    UpdateFoldGrows(s, MergeDefUpdates(m.merges));
    UpdateFoldGrows(afterMerges, RuleUpdates(matched));
    var out := UpdateFold(afterMerges, RuleUpdates(matched)).defs;
    forall i | 0 <= i < |out| ensures Grown(m.recipes[i], out[i]) {
      ExtendsTrans(m.recipes[i].recipeList.GetOr([]), afterMerges.defs[i].recipeList.GetOr([]),
        out[i].recipeList.GetOr([]));
    }
  }

  /**
   * The edits run as one sequence: every merge definition's blocks, then
   * every matched rule's block, so a rule's edit sees what the merge
   * definitions added.
   */
  lemma MergeEditsPrecedeRuleEdits(groupId: Option<string>, artifactId: Option<string>, project: Project,
                                   rules: seq<Rule>, dir: string, fs: FileSystem)
    requires PlainTable(rules)
    requires Run(groupId, artifactId, project, RuleFile.Parsed(Some(rules)), dir, fs).Wrote?
    ensures var matched := Matched(groupId, artifactId, project, rules);
      var m := MergeAll(dir, AllMergeFiles(matched), fs);
      var all := UpdateFold(Updated(m.recipes, true), MergeDefUpdates(m.merges) + RuleUpdates(matched));
      all.ok && Run(groupId, artifactId, project, RuleFile.Parsed(Some(rules)), dir, fs).recipes == all.defs
  {
    var matched := Matched(groupId, artifactId, project, rules);
    var m := MergeAll(dir, AllMergeFiles(matched), fs);
    UpdateFoldAppend(Updated(m.recipes, true), MergeDefUpdates(m.merges), RuleUpdates(matched));
  }

  /** A listed key is among the paths the merge reads. */
  lemma {:induction false} ListedKeyIsRead(dir: string, names: seq<string>, fs: FileSystem, k: nat)
    requires k < |names| && PathKey(dir, names[k]) in fs
    ensures PathKey(dir, names[k]) in FirstOccurrences(dir, names, fs)
    decreases |names|
  {
    var init := names[..|names| - 1];
    if k < |init| {
      assert init[k] == names[k];
      ListedKeyIsRead(dir, init, fs, k);
    }
  }

  /**
   * A matched rule that lists an existing file whose parsing throws makes
   * the run fail, whatever the other rules list.
   */
  lemma UnreadableListedFileFails(groupId: Option<string>, artifactId: Option<string>, project: Project,
                                  rules: seq<Rule>, dir: string, fs: FileSystem, k: nat, name: string)
    requires PlainTable(rules) && FirstViolation(rules).None?
    requires k < |rules| && RuleMatches(rules[k], EffectiveId(groupId, project.groupId), EffectiveId(artifactId, project.artifactId))
    requires rules[k].mergeFiles.Some? && name in rules[k].mergeFiles.value
    requires PathKey(dir, name) in fs && fs[PathKey(dir, name)] == Unreadable
    ensures Run(groupId, artifactId, project, RuleFile.Parsed(Some(rules)), dir, fs) == Failed
  {
    var matched := Matched(groupId, artifactId, project, rules);
    assert rules[k] in matched;
    var p :| 0 <= p < |matched| && matched[p] == rules[k];
    AllMergeFilesListed(matched, name);
    var names := AllMergeFiles(matched);
    var q :| 0 <= q < |names| && names[q] == name;
    ListedKeyIsRead(dir, names, fs, q);
    MergeAllIsConcatenation(dir, names, fs);
  }
}
