/**
 * `RecipeListUpdater`: edits the `recipeList` of one definition object in
 * place.  Each method is proved against the value-level definitions of
 * `ListEdits`; a `false` result stands for the exception that the source
 * lets escape, with the object left as it was at that moment.
 */
module RecipeListUpdater {
  import opened Wrappers
  import opened YamlValues
  import opened Recipes
  import opened UpdateOrders
  import opened RecipeDefinitions
  import opened ListEdits

  /** `findRecipeIndex`: a linear scan for the first entry named `n`. */
  method FindRecipeIndex(l: seq<Recipe>, n: string) returns (idx: int)
    ensures idx == IndexOf(l, n)
    ensures idx == -1 <==> !Has(l, n)
  {
    var i := 0;
    while i < |l|
      invariant 0 <= i <= |l|
      invariant forall j :: 0 <= j < i ==> l[j].name != Some(n)
    {
      if l[i].name == Some(n) {
        var r := IndexOf(l, n);
        assert r >= 0;
        assert !(r < i) && !(i < r);
        return i;
      }
      i := i + 1;
    }
    return -1;
  }

  /**
   * The cast to `String` and `isRecipeAlreadyInList` on one raw value: a
   * non-string throws; null throws as soon as there is an entry to compare.
   */
  method CheckRecipe(l: seq<Recipe>, v: Yaml) returns (c: Check)
    ensures c == CheckValue(l, v)
  {
    match v {
      case Str(n) =>
        var idx := FindRecipeIndex(l, n);
        if idx != -1 {
          c := Present;
        } else {
          c := Insert(Named(Some(n)));
        }
      case Null =>
        if |l| == 0 {
          c := Insert(Named(None));
        } else {
          c := Throws;
        }
      case _ =>
        c := Throws;
    }
  }

  /** `addRecipesToFirst`: collect against the current list, then prepend. */
  method AddRecipesToFirst(target: RecipeDefinition, vs: seq<Yaml>) returns (ok: bool)
    requires target.recipeList.Some?
    modifies target
    ensures var out := AddFirst(old(target.recipeList.value), vs);
      ok == out.ok && target.Value() == old(target.Value()).(recipeList := Some(out.list))
  {
    var list := target.recipeList.value;
    var newRecipes: seq<Recipe> := [];
    var i := 0;
    while i < |vs|
      invariant 0 <= i <= |vs|
      invariant FirstBatch(list, vs[..i]) == Some(newRecipes)
      invariant unchanged(target)
    {
      assert vs[..i + 1][..i] == vs[..i];
      var c := CheckRecipe(list, vs[i]);
      match c {
        case Throws =>
          FirstBatchStops(list, vs, i + 1);
          return false;
        case Present =>
        case Insert(r) =>
          newRecipes := newRecipes + [r];
      }
      i := i + 1;
    }
    assert vs[..i] == vs;
    target.SetRecipeList(Some(newRecipes + list));
    return true;
  }

  /** `addRecipesToLast`: append one by one to the live list. */
  method AddRecipesToLast(target: RecipeDefinition, vs: seq<Yaml>) returns (ok: bool)
    requires target.recipeList.Some?
    modifies target
    ensures var out := AddLast(old(target.recipeList.value), vs);
      ok == out.ok && target.Value() == old(target.Value()).(recipeList := Some(out.list))
  {
    var list := target.recipeList.value;
    var i := 0;
    while i < |vs|
      invariant 0 <= i <= |vs|
      invariant AddLast(list, vs[..i]).ok
      invariant target.Value() == old(target.Value()).(recipeList := Some(AddLast(list, vs[..i]).list))
    {
      assert vs[..i + 1][..i] == vs[..i];
      var cur := target.recipeList.value;
      var c := CheckRecipe(cur, vs[i]);
      match c {
        case Throws =>
          AddLastStops(list, vs, i + 1);
          return false;
        case Present =>
        case Insert(r) =>
          target.SetRecipeList(Some(cur + [r]));
      }
      i := i + 1;
    }
    assert vs[..i] == vs;
    return true;
  }

  /** `addRecipesBefore`: from the last value down, each inserted at the anchor's index. */
  method AddRecipesBefore(target: RecipeDefinition, anchor: string, vs: seq<Yaml>) returns (ok: bool)
    requires target.recipeList.Some?
    modifies target
    ensures var out := AddBefore(old(target.recipeList.value), anchor, vs);
      ok == out.ok && target.Value() == old(target.Value()).(recipeList := Some(out.list))
  {
    var list := target.recipeList.value;
    var idx := FindRecipeIndex(list, anchor);
    if idx == -1 {
      return true;
    }
    var i := |vs|;
    while i > 0
      invariant 0 <= i <= |vs|
      invariant BeforeFold(list, idx, vs[i..]).ok
      invariant target.Value() == old(target.Value()).(recipeList := Some(BeforeFold(list, idx, vs[i..]).list))
    {
      i := i - 1;
      assert vs[i..][1..] == vs[i + 1..];
      var cur := target.recipeList.value;
      var c := CheckRecipe(cur, vs[i]);
      match c {
        case Throws =>
          BeforeFoldStops(list, idx, vs, i);
          return false;
        case Present =>
        case Insert(r) =>
          target.SetRecipeList(Some(InsertAt(cur, idx, r)));
      }
    }
    assert vs[0..] == vs;
    return true;
  }

  /** `addRecipesAfter`: forward, each inserted value moving the insertion index on. */
  method AddRecipesAfter(target: RecipeDefinition, anchor: string, vs: seq<Yaml>) returns (ok: bool)
    requires target.recipeList.Some?
    modifies target
    ensures var out := AddAfter(old(target.recipeList.value), anchor, vs);
      ok == out.ok && target.Value() == old(target.Value()).(recipeList := Some(out.list))
  {
    var list := target.recipeList.value;
    var idx := FindRecipeIndex(list, anchor);
    if idx == -1 {
      return true;
    }
    var insertIndex := idx + 1;
    var i := 0;
    while i < |vs|
      invariant 0 <= i <= |vs|
      invariant AfterFold(list, idx + 1, vs[..i]).out.ok
      invariant insertIndex == AfterFold(list, idx + 1, vs[..i]).at
      invariant target.Value() ==
        old(target.Value()).(recipeList := Some(AfterFold(list, idx + 1, vs[..i]).out.list))
    {
      assert vs[..i + 1][..i] == vs[..i];
      var cur := target.recipeList.value;
      var c := CheckRecipe(cur, vs[i]);
      match c {
        case Throws =>
          AfterFoldStops(list, idx + 1, vs, i + 1);
          return false;
        case Present =>
        case Insert(r) =>
          target.SetRecipeList(Some(InsertAt(cur, insertIndex, r)));
          insertIndex := insertIndex + 1;
      }
      i := i + 1;
    }
    assert vs[..i] == vs;
    return true;
  }

  /** One `UpdateEntry` of a section, skipped when its values (or, for before/after, its key) are null. */
  method ApplyEntryTo(target: RecipeDefinition, mode: Mode, e: Entry) returns (ok: bool)
    requires target.recipeList.Some?
    modifies target
    ensures var out := ApplyEntry(old(target.recipeList.value), mode, e);
      ok == out.ok && target.Value() == old(target.Value()).(recipeList := Some(out.list))
  {
    ok := true;
    match mode {
      case First =>
        if e.values.Some? {
          ok := AddRecipesToFirst(target, e.values.value);
        }
      case Last =>
        if e.values.Some? {
          ok := AddRecipesToLast(target, e.values.value);
        }
      case Before =>
        if e.key.Some? && e.values.Some? {
          ok := AddRecipesBefore(target, e.key.value, e.values.value);
        }
      case After =>
        if e.key.Some? && e.values.Some? {
          ok := AddRecipesAfter(target, e.key.value, e.values.value);
        }
    }
  }

  /** The `for (UpdateEntry entry : section)` loop of one section. */
  method ApplySectionTo(target: RecipeDefinition, mode: Mode, es: Option<seq<Entry>>) returns (ok: bool)
    requires target.recipeList.Some?
    modifies target
    ensures var out := ApplyOptSection(old(target.recipeList.value), mode, es);
      ok == out.ok && target.Value() == old(target.Value()).(recipeList := Some(out.list))
  {
    if es.None? {
      return true;
    }
    var entries := es.value;
    var list := target.recipeList.value;
    var i := 0;
    while i < |entries|
      invariant 0 <= i <= |entries|
      invariant ApplySection(list, mode, entries[..i]).ok
      invariant target.Value() ==
        old(target.Value()).(recipeList := Some(ApplySection(list, mode, entries[..i]).list))
    {
      assert entries[..i + 1][..i] == entries[..i];
      ok := ApplyEntryTo(target, mode, entries[i]);
      if !ok {
        ApplySectionStops(list, mode, entries, i + 1);
        return false;
      }
      i := i + 1;
    }
    assert entries[..i] == entries;
    return true;
  }

  /** `findRecipeByName`: the first definition object carrying the name. */
  method FindRecipeByName(defs: seq<RecipeDefinition>, name: string) returns (t: int)
    ensures t == TargetIndex(Values(defs), name)
  {
    var i := 0;
    while i < |defs|
      invariant 0 <= i <= |defs|
      invariant forall j :: 0 <= j < i ==> defs[j].name != Some(name)
    {
      if defs[i].name == Some(name) {
        var r := TargetIndex(Values(defs), name);
        assert r >= 0;
        assert !(r < i) && !(i < r);
        return i;
      }
      i := i + 1;
    }
    return -1;
  }

  /**
   * `updateRecipeList`: find the target by name, give it an empty list if
   * it has none, then apply first, last, before and after in that order.
   * Every other object is left alone; the same object appearing twice in
   * `defs` shows the edit at both positions.
   */
  method UpdateRecipeList(defs: seq<RecipeDefinition>, u: UpdateSpec) returns (ok: bool)
    modifies set d | d in defs
    ensures var t := old(UpdateTarget(Values(defs), u));
      (t < 0 ==> ok && forall i :: 0 <= i < |defs| ==> defs[i].Value() == old(defs[i].Value())) &&
      (t >= 0 ==>
        var e := EditDefinition(old(defs[t].Value()), u.updateOrder);
        ok == e.ok &&
        forall i :: 0 <= i < |defs| ==>
          defs[i].Value() == if defs[i] == defs[t] then e.def else old(defs[i].Value()))
  {
    if u.name.None? {
      return true;
    }
    var t := FindRecipeByName(defs, u.name.value);
    if t == -1 {
      return true;
    }
    var target := defs[t];
    ghost var before := target.Value();
    if target.recipeList.None? {
      target.SetRecipeList(Some([]));
    }
    assert target.recipeList.value == before.recipeList.GetOr([]);
    if u.updateOrder.None? {
      return true;
    }
    var o := u.updateOrder.value;
    ok := ApplySectionTo(target, First, o.first);
    if ok {
      ok := ApplySectionTo(target, Last, o.last);
      if ok {
        ok := ApplySectionTo(target, Before, o.before);
        if ok {
          ok := ApplySectionTo(target, After, o.after);
        }
      }
    }
  }
}
