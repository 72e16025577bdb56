/**
 * `RecipeMerger`: reads the listed recipe files of one directory and
 * concatenates what they define.  The file system is a parameter: a map
 * from a file's path to its content, where an absent path is a file that
 * does not exist and `Unreadable` is one whose parsing throws.
 */
module RecipeMerger {
  import opened Wrappers
  import opened YamlValues
  import opened RecipeDefinitions
  import opened MergeDefinitions
  import opened YamlParser

  datatype FileContent = Readable(docs: seq<Yaml>) | Unreadable

  type FileSystem = map<string, FileContent>

  /** `new File(dir, name).getAbsolutePath()`, for an absolute `dir` without a trailing separator. */
  function PathKey(dir: string, name: string): string {
    dir + "/" + name
  }

  /** The loop state: what has been merged so far and which paths are done. */
  datatype Merged = Merged(recipes: seq<Definition>, merges: seq<MergeDef>, processed: set<string>, ok: bool)

  const Start: Merged := Merged([], [], {}, true)

  /**
   * One iteration: a path already processed or missing is skipped; a file
   * whose parsing throws aborts; otherwise its results are appended and
   * its path is marked processed.
   */
  function MergeStep(m: Merged, dir: string, name: string, fs: FileSystem): Merged {
    var key := PathKey(dir, name);
    if !m.ok || key in m.processed || key !in fs then m
    else match fs[key]
      case Unreadable => m.(ok := false)
      case Readable(docs) =>
        Merged(m.recipes + RecipesIn(docs), m.merges + MergesIn(docs), m.processed + {key}, true)
  }

  function MergeFold(m: Merged, dir: string, names: seq<string>, fs: FileSystem): Merged
    decreases |names|
  {
    if names == [] then m
    else MergeStep(MergeFold(m, dir, names[..|names| - 1], fs), dir, names[|names| - 1], fs)
  }

  /** The whole of `mergeFilesWithMerge` (and of `mergeFiles`, for the recipes). */
  function MergeAll(dir: string, names: seq<string>, fs: FileSystem): Merged {
    MergeFold(Start, dir, names, fs)
  }

  lemma {:induction false} MergeFoldAppend(m: Merged, dir: string, a: seq<string>, b: seq<string>, fs: FileSystem)
    ensures MergeFold(m, dir, a + b, fs) == MergeFold(MergeFold(m, dir, a, fs), dir, b, fs)
    decreases |b|
  {
    if b == [] {
      assert a + b == a;
    } else {
      assert (a + b)[..|a + b| - 1] == a + b[..|b| - 1];
      MergeFoldAppend(m, dir, a, b[..|b| - 1], fs);
    }
  }

  /** A file that does not exist can be dropped from the list without any effect. */
  lemma MissingFileSkipped(dir: string, pre: seq<string>, name: string, post: seq<string>, fs: FileSystem)
    requires PathKey(dir, name) !in fs
    ensures MergeAll(dir, pre + [name] + post, fs) == MergeAll(dir, pre + post, fs)
  {
    MergeFoldAppend(Start, dir, pre + [name], post, fs);
    MergeFoldAppend(Start, dir, pre, [name], fs);
    MergeFoldAppend(Start, dir, pre, post, fs);
    assert [name][..0] == [];
  }

  /** Once a path has been merged, naming it again (under any spelling) adds nothing. */
  lemma {:induction false} RepeatedPathAddsNothing(dir: string, pre: seq<string>, name: string, fs: FileSystem)
    requires PathKey(dir, name) in MergeAll(dir, pre, fs).processed
    ensures MergeAll(dir, pre + [name], fs) == MergeAll(dir, pre, fs)
  {
    assert (pre + [name])[..|pre|] == pre;
  }

  /** Listing a file twice: `[base.yml, base.yml]` gives exactly what `[base.yml]` gives. */
  lemma SameFileTwice(dir: string, name: string, docs: seq<Yaml>, fs: FileSystem)
    requires PathKey(dir, name) in fs && fs[PathKey(dir, name)] == Readable(docs)
    ensures MergeAll(dir, [name, name], fs) == MergeAll(dir, [name], fs)
    ensures MergeAll(dir, [name], fs) == Merged(RecipesIn(docs), MergesIn(docs), {PathKey(dir, name)}, true)
  {
    assert [name][..0] == [];
    assert MergeFold(Start, dir, [name][..0], fs) == Start;
    assert MergeFold(Start, dir, [name], fs) == MergeStep(Start, dir, name, fs);
    assert [] + RecipesIn(docs) == RecipesIn(docs);
    assert [] + MergesIn(docs) == MergesIn(docs);
    assert {} + {PathKey(dir, name)} == {PathKey(dir, name)};
    assert [name, name] == [name] + [name];
    RepeatedPathAddsNothing(dir, [name], name, fs);
  }

  // ---------------------------------------------------------------------
  // An independent description: first occurrences, then concatenation

  /** The existing paths in order of first mention, each once. */
  function FirstOccurrences(dir: string, names: seq<string>, fs: FileSystem): (r: seq<string>)
    ensures forall i :: 0 <= i < |r| ==> r[i] in fs
    ensures forall i, j :: 0 <= i < j < |r| ==> r[i] != r[j]
    decreases |names|
  {
    if names == [] then []
    else
      var prev := FirstOccurrences(dir, names[..|names| - 1], fs);
      var key := PathKey(dir, names[|names| - 1]);
      if key in fs && key !in prev then prev + [key] else prev
  }

  predicate AllReadable(keys: seq<string>, fs: FileSystem) {
    forall i :: 0 <= i < |keys| ==> keys[i] in fs && fs[keys[i]].Readable?
  }

  /** The recipes of the given files, concatenated in order. */
  function RecipesOfFiles(keys: seq<string>, fs: FileSystem): seq<Definition>
    requires AllReadable(keys, fs)
    decreases |keys|
  {
    if keys == [] then []
    else RecipesOfFiles(keys[..|keys| - 1], fs) + RecipesIn(fs[keys[|keys| - 1]].docs)
  }

  /** The merge definitions of the given files, concatenated in order. */
  function MergesOfFiles(keys: seq<string>, fs: FileSystem): seq<MergeDef>
    requires AllReadable(keys, fs)
    decreases |keys|
  {
    if keys == [] then []
    else MergesOfFiles(keys[..|keys| - 1], fs) + MergesIn(fs[keys[|keys| - 1]].docs)
  }

  /** `m` is the merge of the files `keys`, in that order. */
  predicate Describes(m: Merged, keys: seq<string>, fs: FileSystem) {
    (m.ok <==> AllReadable(keys, fs)) &&
    (m.ok ==>
      m.recipes == RecipesOfFiles(keys, fs) &&
      m.merges == MergesOfFiles(keys, fs) &&
      m.processed == set k | k in keys)
  }

  lemma DescribesStep(prev: Merged, prevKeys: seq<string>, dir: string, name: string, fs: FileSystem)
    requires Describes(prev, prevKeys, fs)
    ensures var key := PathKey(dir, name);
      Describes(MergeStep(prev, dir, name, fs),
        if key in fs && key !in prevKeys then prevKeys + [key] else prevKeys, fs)
  {
    var key := PathKey(dir, name);
    if key in fs && key !in prevKeys {
      var keys := prevKeys + [key];
      assert keys[..|keys| - 1] == prevKeys;
      assert keys[|keys| - 1] == key;
      if prev.ok && fs[key].Readable? {
        assert (set k | k in keys) == (set k | k in prevKeys) + {key};
      }
      if AllReadable(keys, fs) {
        assert forall i :: 0 <= i < |prevKeys| ==> prevKeys[i] == keys[i];
      }
    }
  }

  /**
   * The merge succeeds exactly when every distinct existing file reads;
   * then the results are those files' results concatenated in order of
   * first mention, and the processed set is exactly those paths.
   */
  lemma {:induction false} MergeAllIsConcatenation(dir: string, names: seq<string>, fs: FileSystem)
    ensures Describes(MergeAll(dir, names, fs), FirstOccurrences(dir, names, fs), fs)
    decreases |names|
  {
    if names != [] {
      var init := names[..|names| - 1];
      MergeAllIsConcatenation(dir, init, fs);
      DescribesStep(MergeAll(dir, init, fs), FirstOccurrences(dir, init, fs), dir, names[|names| - 1], fs);
    }
  }

  // ---------------------------------------------------------------------
  // The methods

  /** `MergeResult`: copies of both lists, a null list becoming empty. */
  datatype MergeResult = MergeResult(recipes: seq<RecipeDefinition>, mergeDefinitions: seq<MergeRecipeDefinition>)

  function NewMergeResult(recipes: Option<seq<RecipeDefinition>>, merges: Option<seq<MergeRecipeDefinition>>): (r: MergeResult)
    ensures recipes.Some? ==> r.recipes == recipes.value
    ensures recipes.None? ==> r.recipes == []
    ensures merges.Some? ==> r.mergeDefinitions == merges.value
    ensures merges.None? ==> r.mergeDefinitions == []
  {
    MergeResult(recipes.GetOr([]), merges.GetOr([]))
  }

  lemma ValuesAppend(a: seq<RecipeDefinition>, b: seq<RecipeDefinition>)
    ensures Values(a + b) == Values(a) + Values(b)
  {
  }

  lemma MergeValuesAppend(a: seq<MergeRecipeDefinition>, b: seq<MergeRecipeDefinition>)
    ensures MergeValues(a + b) == MergeValues(a) + MergeValues(b)
  {
  }

  lemma MergeFoldNext(dir: string, names: seq<string>, fs: FileSystem, i: nat)
    requires i < |names|
    ensures MergeFold(Start, dir, names[..i + 1], fs) ==
      MergeStep(MergeFold(Start, dir, names[..i], fs), dir, names[i], fs)
  {
    assert names[..i + 1][..i] == names[..i];
  }

  lemma MergeStepReads(m: Merged, dir: string, name: string, fs: FileSystem, docs: seq<Yaml>)
    requires m.ok && PathKey(dir, name) !in m.processed
    requires PathKey(dir, name) in fs && fs[PathKey(dir, name)] == Readable(docs)
    ensures MergeStep(m, dir, name, fs) ==
      Merged(m.recipes + RecipesIn(docs), m.merges + MergesIn(docs), m.processed + {PathKey(dir, name)}, true)
  {
  }

  /** No definition object appears twice. */
  predicate Distinct(defs: seq<RecipeDefinition>) {
    forall i, j :: 0 <= i < j < |defs| ==> defs[i] != defs[j]
  }

  lemma DistinctAppend(a: seq<RecipeDefinition>, b: seq<RecipeDefinition>)
    requires Distinct(a) && Distinct(b)
    requires forall p, q :: 0 <= p < |a| && 0 <= q < |b| ==> a[p] != b[q]
    ensures Distinct(a + b)
  {
  }

  /** One file's share of the merge: its definitions are parsed into new objects and appended. */
  method AddParsed(recipes: seq<RecipeDefinition>, merges: seq<MergeRecipeDefinition>, docs: seq<Yaml>)
    returns (recipes': seq<RecipeDefinition>, merges': seq<MergeRecipeDefinition>)
    requires Distinct(recipes)
    ensures Values(recipes') == Values(recipes) + RecipesIn(docs)
    ensures MergeValues(merges') == MergeValues(merges) + MergesIn(docs)
    ensures forall d :: d in recipes' ==> d in recipes || fresh(d)
    ensures Distinct(recipes')
  {
    var rs, ms := ParseRecipeFileWithMerge(docs);
    forall p, q | 0 <= p < |recipes| && 0 <= q < |rs|
      ensures recipes[p] != rs[q]
    {
      assert rs[q] in rs;
    }
    DistinctAppend(recipes, rs);
    ValuesAppend(recipes, rs);
    MergeValuesAppend(merges, ms);
    recipes' := recipes + rs;
    merges' := merges + ms;
  }

  /**
   * `mergeFilesWithMerge`: `ok == false` is the exception rethrown for an
   * unreadable file, in which case nothing is returned.
   */
  method MergeFilesWithMerge(dir: string, names: seq<string>, fs: FileSystem)
    returns (ok: bool, result: MergeResult)
    ensures ok == MergeAll(dir, names, fs).ok
    ensures ok ==> Values(result.recipes) == MergeAll(dir, names, fs).recipes
    ensures ok ==> MergeValues(result.mergeDefinitions) == MergeAll(dir, names, fs).merges
    ensures forall d :: d in result.recipes ==> fresh(d)
    ensures Distinct(result.recipes)
  {
    var mergedRecipes: seq<RecipeDefinition> := [];
    var mergedMergeDefinitions: seq<MergeRecipeDefinition> := [];
    var processedFiles: map<string, bool> := map[];
    ghost var acc := Start;
    var i := 0;
    while i < |names|
      invariant 0 <= i <= |names|
      invariant acc == MergeFold(Start, dir, names[..i], fs)
      invariant acc.ok
      invariant processedFiles.Keys == acc.processed
      invariant Values(mergedRecipes) == acc.recipes
      invariant MergeValues(mergedMergeDefinitions) == acc.merges
      invariant forall d :: d in mergedRecipes ==> fresh(d)
      invariant Distinct(mergedRecipes)
    {
      MergeFoldNext(dir, names, fs, i);
      var key := PathKey(dir, names[i]);
      if key in processedFiles || key !in fs {
        acc := MergeStep(acc, dir, names[i], fs);
        i := i + 1;
        continue;
      }
      match fs[key] {
        case Unreadable =>
          MergeFoldStops(Start, dir, names, fs, i + 1);
          return false, NewMergeResult(None, None);
        case Readable(docs) =>
          MergeStepReads(acc, dir, names[i], fs, docs);
          mergedRecipes, mergedMergeDefinitions := AddParsed(mergedRecipes, mergedMergeDefinitions, docs);
          processedFiles := processedFiles[key := true];
          acc := MergeStep(acc, dir, names[i], fs);
      }
      i := i + 1;
    }
    assert names[..i] == names;
    return true, NewMergeResult(Some(mergedRecipes), Some(mergedMergeDefinitions));
  }

  lemma {:induction false} MergeFoldStops(m: Merged, dir: string, names: seq<string>, fs: FileSystem, i: nat)
    requires i <= |names| && !MergeFold(m, dir, names[..i], fs).ok
    ensures !MergeFold(m, dir, names, fs).ok
    decreases |names|
  {
    if i < |names| {
      var init := names[..|names| - 1];
      assert init[..i] == names[..i];
      MergeFoldStops(m, dir, init, fs, i);
    } else {
      assert names[..i] == names;
    }
  }

  /**
   * `mergeFiles`: the same loop over `parseRecipeFile`.  That parse loop is
   * the one `parseRecipeFileWithMerge` runs, so the recipe lists agree and
   * this reuses the loop that keeps both kinds.
   */
  method MergeFiles(dir: string, names: seq<string>, fs: FileSystem)
    returns (ok: bool, recipes: seq<RecipeDefinition>)
    ensures ok == MergeAll(dir, names, fs).ok
    ensures ok ==> Values(recipes) == MergeAll(dir, names, fs).recipes
    ensures forall d :: d in recipes ==> fresh(d)
  {
    var result;
    ok, result := MergeFilesWithMerge(dir, names, fs);
    recipes := result.recipes;
  }
}
