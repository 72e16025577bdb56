/**
 * `YamlParser`: splits a recipe file into its documents, sends each to the
 * definition class its `type` selects, and writes definitions back as a
 * multi-document file.  A file is given here as the sequence of its
 * documents' trees (an empty document is `Null`); reading and writing the
 * YAML text itself is not part of this model.
 */
module YamlParser {
  import opened Wrappers
  import opened YamlValues
  import opened Recipes
  import opened RecipeDefinitions
  import opened MergeDefinitions

  /** Where one document ends up. */
  datatype Routed = Skipped | AsRecipe(def: Definition) | AsMerge(merge: MergeDef)

  /**
   * `(String) rawDoc.get("type")`: an absent or null `type` is null; a
   * string is itself; anything else fails the cast (outer None).
   */
  function TypeOf(es: seq<(string, Yaml)>): (r: Option<Option<string>>)
    ensures !HasKey(es, "type") ==> r == Some(None)
  {
    var t := Get(es, "type");
    if t.None? || t.value.Null? then Some(None)
    else if t.value.Str? then Some(Some(t.value.s))
    else None
  }

  /**
   * The body of the document loop, for one node handed to `readValue(parser,
   * Map.class)`.  A node that is not a mapping, a `type` that is not a
   * string, and a failed conversion are all caught and skipped; a recipe
   * definition without a name is dropped.
   */
  function Route(doc: Yaml): (r: Routed)
    ensures r.AsRecipe? ==> r.def.name.Some? && Serializable(r.def)
    ensures r.AsMerge? ==> doc.Map? && TypeOf(doc.entries) == Some(Some(MergeType))
    ensures !doc.Map? ==> r == Skipped
  {
    if !doc.Map? then Skipped
    else
      var t := TypeOf(doc.entries);
      if t.None? then Skipped
      else if t.value == Some(MergeType) then
        var m := DecodeMerge(doc.entries);
        if m.None? then Skipped else AsMerge(m.value)
      else
        var d := Decode(doc.entries);
        BindKeepsSerializable(Blank, doc.entries);
        if d.None? || d.value.name.None? then Skipped else AsRecipe(d.value)
  }

  /**
   * The routing reads the raw `type` string and never calls `isMergeType`,
   * yet the two agree: with distinct keys, a document routed as a merge
   * definition binds to one whose type is the marker.
   */
  lemma RoutedMergeIsMergeType(doc: Yaml)
    requires doc.Map? && DistinctKeys(doc.entries)
    ensures Route(doc).AsMerge? ==> Route(doc).merge.docType == Some(MergeType)
  {
    BindMergeType(FreshMerge, doc.entries);
  }

  /** ... and a document routed as a recipe definition binds to one whose type is not the marker. */
  lemma RoutedRecipeIsNotMergeType(doc: Yaml)
    requires doc.Map? && DistinctKeys(doc.entries)
    ensures Route(doc).AsRecipe? ==> Route(doc).def.docType != Some(MergeType)
  {
    BindFieldsType(Blank, doc.entries);
  }

  /**
   * The nodes the token loop reads, in order.  A sequence is refused by the
   * map reader before any of it is consumed, so the next `nextToken` steps
   * inside it and its elements are read one by one (its closing token reads
   * as null and is skipped); any other node is read whole.
   */
  function ReadNodes(docs: seq<Yaml>): (r: seq<Yaml>)
    ensures forall i :: 0 <= i < |r| ==> !r[i].Seq?
    decreases docs
  {
    if docs == [] then []
    else
      var last := docs[|docs| - 1];
      ReadNodes(docs[..|docs| - 1]) + (if last.Seq? then ReadNodes(last.items) else [last])
  }

  /** The recipe definitions routed from a list of read nodes, in order. */
  function RoutedRecipes(nodes: seq<Yaml>): (r: seq<Definition>)
    ensures forall i :: 0 <= i < |r| ==> r[i].name.Some? && Serializable(r[i])
    decreases |nodes|
  {
    if nodes == [] then []
    else
      var x := Route(nodes[|nodes| - 1]);
      RoutedRecipes(nodes[..|nodes| - 1]) + (if x.AsRecipe? then [x.def] else [])
  }

  /** The merge definitions routed from a list of read nodes, in order. */
  function RoutedMerges(nodes: seq<Yaml>): seq<MergeDef>
    decreases |nodes|
  {
    if nodes == [] then []
    else
      var x := Route(nodes[|nodes| - 1]);
      RoutedMerges(nodes[..|nodes| - 1]) + (if x.AsMerge? then [x.merge] else [])
  }

  /** The recipe definitions a file yields, in the order their nodes are read. */
  function RecipesIn(docs: seq<Yaml>): (r: seq<Definition>)
    ensures forall i :: 0 <= i < |r| ==> r[i].name.Some? && Serializable(r[i])
  {
    RoutedRecipes(ReadNodes(docs))
  }

  /** The merge definitions a file yields, in the order their nodes are read. */
  function MergesIn(docs: seq<Yaml>): seq<MergeDef> {
    RoutedMerges(ReadNodes(docs))
  }

  lemma {:induction false} ReadNodesAppend(a: seq<Yaml>, b: seq<Yaml>)
    ensures ReadNodes(a + b) == ReadNodes(a) + ReadNodes(b)
    decreases |b|
  {
    if b == [] {
      assert a + b == a;
    } else {
      var init := b[..|b| - 1];
      assert (a + b)[..|a + b| - 1] == a + init;
      ReadNodesAppend(a, init);
    }
  }

  /** A list with no sequence in it is read as it stands. */
  lemma {:induction false} ReadNodesOfFlat(nodes: seq<Yaml>)
    requires forall i :: 0 <= i < |nodes| ==> !nodes[i].Seq?
    ensures ReadNodes(nodes) == nodes
    decreases |nodes|
  {
    if nodes != [] {
      ReadNodesOfFlat(nodes[..|nodes| - 1]);
      assert nodes[..|nodes| - 1] + [nodes[|nodes| - 1]] == nodes;
    }
  }

  lemma {:induction false} RoutedRecipesAppend(a: seq<Yaml>, b: seq<Yaml>)
    ensures RoutedRecipes(a + b) == RoutedRecipes(a) + RoutedRecipes(b)
    decreases |b|
  {
    if b == [] {
      assert a + b == a;
    } else {
      var init := b[..|b| - 1];
      assert (a + b)[..|a + b| - 1] == a + init;
      RoutedRecipesAppend(a, init);
    }
  }

  lemma {:induction false} RoutedMergesAppend(a: seq<Yaml>, b: seq<Yaml>)
    ensures RoutedMerges(a + b) == RoutedMerges(a) + RoutedMerges(b)
    decreases |b|
  {
    if b == [] {
      assert a + b == a;
    } else {
      var init := b[..|b| - 1];
      assert (a + b)[..|a + b| - 1] == a + init;
      RoutedMergesAppend(a, init);
    }
  }

  /** Reading works document by document, so both result lists keep document order. */
  lemma RecipesInAppend(a: seq<Yaml>, b: seq<Yaml>)
    ensures RecipesIn(a + b) == RecipesIn(a) + RecipesIn(b)
  {
    ReadNodesAppend(a, b);
    RoutedRecipesAppend(ReadNodes(a), ReadNodes(b));
  }

  lemma MergesInAppend(a: seq<Yaml>, b: seq<Yaml>)
    ensures MergesIn(a + b) == MergesIn(a) + MergesIn(b)
  {
    ReadNodesAppend(a, b);
    RoutedMergesAppend(ReadNodes(a), ReadNodes(b));
  }

  /** A file of one node that is not a sequence yields what that node is routed to. */
  lemma ParseOne(x: Yaml)
    requires !x.Seq?
    ensures RecipesIn([x]) == (if Route(x).AsRecipe? then [Route(x).def] else [])
    ensures MergesIn([x]) == (if Route(x).AsMerge? then [Route(x).merge] else [])
  {
    assert [x][..0] == [];
    assert ReadNodes([x]) == [x];
    var r := Route(x);
    assert RoutedRecipes([x]) == RoutedRecipes([]) + (if r.AsRecipe? then [r.def] else []);
    assert RoutedMerges([x]) == RoutedMerges([]) + (if r.AsMerge? then [r.merge] else []);
  }

  /** A file whose one document is a sequence is read as its elements. */
  lemma ReadSequenceDocument(items: seq<Yaml>)
    ensures ReadNodes([Seq(items)]) == ReadNodes(items)
  {
    assert [Seq(items)][..0] == [];
  }

  lemma RecipesInDrop(pre: seq<Yaml>, mid: seq<Yaml>, post: seq<Yaml>)
    requires RecipesIn(mid) == []
    ensures RecipesIn(pre + mid + post) == RecipesIn(pre + post)
  {
    RecipesInAppend(pre + mid, post);
    RecipesInAppend(pre, mid);
    RecipesInAppend(pre, post);
  }

  lemma MergesInDrop(pre: seq<Yaml>, mid: seq<Yaml>, post: seq<Yaml>)
    requires MergesIn(mid) == []
    ensures MergesIn(pre + mid + post) == MergesIn(pre + post)
  {
    MergesInAppend(pre + mid, post);
    MergesInAppend(pre, mid);
    MergesInAppend(pre, post);
  }

  /** A document that fails only drops itself: the others are read as if it were absent. */
  lemma SkippedDocumentIsInvisible(pre: seq<Yaml>, x: Yaml, post: seq<Yaml>)
    requires !x.Seq? && Route(x) == Skipped
    ensures RecipesIn(pre + [x] + post) == RecipesIn(pre + post)
    ensures MergesIn(pre + [x] + post) == MergesIn(pre + post)
  {
    ParseOne(x);
    RecipesInDrop(pre, [x], post);
    MergesInDrop(pre, [x], post);
  }

  /**
   * A document that is a sequence counts as its elements, read in its place
   * as documents of their own.
   */
  lemma SequenceDocumentIsSpliced(pre: seq<Yaml>, items: seq<Yaml>, post: seq<Yaml>)
    ensures RecipesIn(pre + [Seq(items)] + post) == RecipesIn(pre + items + post)
    ensures MergesIn(pre + [Seq(items)] + post) == MergesIn(pre + items + post)
  {
    var x := Seq(items);
    ReadSequenceDocument(items);
    ReadNodesAppend(pre + [x], post);
    ReadNodesAppend(pre, [x]);
    ReadNodesAppend(pre + items, post);
    ReadNodesAppend(pre, items);
  }

  /** The results are those of routing the nodes the loop reads, one at a time. */
  lemma ReadNodesRouted(docs: seq<Yaml>)
    ensures RecipesIn(ReadNodes(docs)) == RecipesIn(docs)
    ensures MergesIn(ReadNodes(docs)) == MergesIn(docs)
  {
    ReadNodesOfFlat(ReadNodes(docs));
  }

  lemma {:induction false} RoutedCountedOnce(nodes: seq<Yaml>)
    ensures |RoutedRecipes(nodes)| + |RoutedMerges(nodes)| <= |nodes|
    decreases |nodes|
  {
    if nodes != [] {
      RoutedCountedOnce(nodes[..|nodes| - 1]);
    }
  }

  /** Every node read goes to at most one of the two lists. */
  lemma EachDocumentCountedOnce(docs: seq<Yaml>)
    ensures |RecipesIn(docs)| + |MergesIn(docs)| <= |ReadNodes(docs)|
  {
    RoutedCountedOnce(ReadNodes(docs));
  }

  /** One pass of the loop body: at most one fresh object, as `Route` decides. */
  method ParseNode(doc: Yaml) returns (d: RecipeDefinition?, m: MergeRecipeDefinition?)
    ensures Route(doc).AsRecipe? <==> d != null
    ensures Route(doc).AsMerge? <==> m != null
    ensures d != null ==> fresh(d) && d.Value() == Route(doc).def
    ensures m != null ==> fresh(m) && m.Value() == Route(doc).merge
  {
    d, m := null, null;
    if doc.Map? {
      var t := TypeOf(doc.entries);
      if t.Some? {
        if t.value == Some(MergeType) {
          m := DecodeMergeObject(doc.entries);
        } else {
          var r := DecodeObject(doc.entries);
          if r != null && r.name.Some? {
            d := r;
          }
        }
      }
    }
  }

  /** `parseRecipeFileWithMerge`: fresh objects for every kept node, split by kind. */
  method ParseRecipeFileWithMerge(docs: seq<Yaml>)
    returns (recipes: seq<RecipeDefinition>, merges: seq<MergeRecipeDefinition>)
    ensures Values(recipes) == RecipesIn(docs)
    ensures MergeValues(merges) == MergesIn(docs)
    ensures forall d :: d in recipes ==> fresh(d)
    ensures forall m :: m in merges ==> fresh(m)
    ensures forall i, j :: 0 <= i < j < |recipes| ==> recipes[i] != recipes[j]
  {
    var nodes := ReadNodes(docs);
    recipes, merges := [], [];
    var i := 0;
    while i < |nodes|
      invariant 0 <= i <= |nodes|
      invariant Values(recipes) == RoutedRecipes(nodes[..i])
      invariant MergeValues(merges) == RoutedMerges(nodes[..i])
      invariant forall d :: d in recipes ==> fresh(d)
      invariant forall m :: m in merges ==> fresh(m)
      invariant forall p, q :: 0 <= p < q < |recipes| ==> recipes[p] != recipes[q]
    {
      assert nodes[..i + 1][..i] == nodes[..i];
      var d, m := ParseNode(nodes[i]);
      if d != null {
        recipes := recipes + [d];
      }
      if m != null {
        merges := merges + [m];
      }
      i := i + 1;
    }
    assert nodes[..i] == nodes;
  }

  /** `parseRecipeFile`: the same loop, returning only the recipe definitions. */
  method ParseRecipeFile(docs: seq<Yaml>) returns (recipes: seq<RecipeDefinition>)
    ensures Values(recipes) == RecipesIn(docs)
    ensures forall d :: d in recipes ==> fresh(d)
    ensures forall i, j :: 0 <= i < j < |recipes| ==> recipes[i] != recipes[j]
  {
    var merges;
    recipes, merges := ParseRecipeFileWithMerge(docs);
  }

  // ---------------------------------------------------------------------
  // writeRecipes

  /** The documents `writeRecipes` produces, one per definition. */
  function Written(ds: seq<Definition>): (r: seq<Yaml>)
    requires forall i :: 0 <= i < |ds| ==> Serializable(ds[i])
    ensures |r| == |ds|
    ensures forall i :: 0 <= i < |ds| ==> r[i] == Serialize(ds[i])
  {
    seq(|ds|, i requires 0 <= i < |ds| => Serialize(ds[i]))
  }

  /** `writeRecipes`: one document per definition, in order. */
  method WriteRecipes(defs: seq<RecipeDefinition>) returns (docs: seq<Yaml>)
    requires forall d :: d in defs ==> Serializable(d.Value())
    ensures docs == Written(Values(defs))
  {
    docs := [];
    var i := 0;
    while i < |defs|
      invariant 0 <= i <= |defs|
      invariant |docs| == i
      invariant forall j :: 0 <= j < i ==> docs[j] == Serialize(defs[j].Value())
    {
      docs := docs + [Serialize(defs[i].Value())];
      i := i + 1;
    }
  }

  predicate KeyFree(es: seq<(string, Yaml)>, k: string) {
    forall i :: 0 <= i < |es| ==> es[i].0 != k
  }

  lemma KeyFreeConcat(a: seq<(string, Yaml)>, b: seq<(string, Yaml)>, k: string)
    requires KeyFree(a, k) && KeyFree(b, k)
    ensures KeyFree(a + b, k)
  {
  }

  /** A written document's `type` is read back exactly (no later property is called `type`). */
  lemma TypeOfSerialized(d: Definition)
    requires Serializable(d)
    ensures TypeOf(Serialize(d).entries) == Some(d.docType)
  {
    var p1 := StringProperty("name", d.name);
    var p2 := StringProperty("displayName", d.displayName);
    var p3 := StringProperty("description", d.description);
    var p4 := ListProperty("tags", if d.tags.Some? then Some(TagValues(d.tags.value)) else None);
    var p5 := StringProperty("estimatedEffortPerOccurrence", d.estimatedEffortPerOccurrence);
    var p6 := if d.causesAnotherCycle.Some? then [("causesAnotherCycle", Bool(d.causesAnotherCycle.value))] else [];
    var p7 := ListProperty("preconditions", d.preconditions);
    var p8 := ListProperty("exclusions", d.exclusions);
    var p9 := ListProperty("recipeList", if d.recipeList.Some? then Some(RecipeValues(d.recipeList.value)) else None);
    KeyFreeConcat(p8, p9, "type");
    KeyFreeConcat(p7, p8 + p9, "type");
    KeyFreeConcat(p6, p7 + (p8 + p9), "type");
    KeyFreeConcat(p5, p6 + (p7 + (p8 + p9)), "type");
    KeyFreeConcat(p4, p5 + (p6 + (p7 + (p8 + p9))), "type");
    KeyFreeConcat(p3, p4 + (p5 + (p6 + (p7 + (p8 + p9)))), "type");
    KeyFreeConcat(p2, p3 + (p4 + (p5 + (p6 + (p7 + (p8 + p9))))), "type");
    var rest := p1 + (p2 + (p3 + (p4 + (p5 + (p6 + (p7 + (p8 + p9)))))));
    KeyFreeConcat(p1, p2 + (p3 + (p4 + (p5 + (p6 + (p7 + (p8 + p9)))))), "type");
    assert Serialize(d).entries == StringProperty("type", d.docType) + rest;
    TypeOfLeading(d.docType, rest);
  }

  lemma TypeOfLeading(t: Option<string>, rest: seq<(string, Yaml)>)
    requires KeyFree(rest, "type")
    ensures TypeOf(StringProperty("type", t) + rest) == Some(t)
  {
    if t.None? {
      assert StringProperty("type", t) + rest == rest;
    } else {
      assert (StringProperty("type", t) + rest)[0] == ("type", Str(t.value));
    }
  }

  /** Writing a named, non-merge definition and parsing it back gives its normal form. */
  lemma RouteSerialized(d: Definition)
    requires Serializable(d) && d.name.Some? && d.docType != Some(MergeType)
    ensures Route(Serialize(d)) == AsRecipe(Normalised(d))
  {
    TypeOfSerialized(d);
    WriteThenRead(d);
  }

  /** Writing one more definition adds its normal form to what is parsed back. */
  lemma WriteOneMore(init: seq<Definition>, last: Definition)
    requires forall i :: 0 <= i < |init| ==> Serializable(init[i])
    requires Serializable(last) && last.name.Some? && last.docType != Some(MergeType)
    ensures forall i :: 0 <= i < |init + [last]| ==> Serializable((init + [last])[i])
    ensures RecipesIn(Written(init + [last])) == RecipesIn(Written(init)) + [Normalised(last)]
    ensures MergesIn(Written(init + [last])) == MergesIn(Written(init))
  {
    var w, wi, x := Written(init + [last]), Written(init), Serialize(last);
    assert w == wi + [x];
    RouteSerialized(last);
    RecipesInAppend(wi, [x]);
    MergesInAppend(wi, [x]);
    ParseOne(x);
  }

  /**
   * `parseRecipeFile` after `writeRecipes` returns every definition, in
   * order, normalised (empty lists read back as absent, unnamed recipe
   * entries dropped).
   */
  lemma {:induction false} WriteThenParse(ds: seq<Definition>)
    requires forall i :: 0 <= i < |ds| ==>
      Serializable(ds[i]) && ds[i].name.Some? && ds[i].docType != Some(MergeType)
    ensures |RecipesIn(Written(ds))| == |ds|
    ensures forall i :: 0 <= i < |ds| ==> RecipesIn(Written(ds))[i] == Normalised(ds[i])
    ensures MergesIn(Written(ds)) == []
    decreases |ds|
  {
    if ds != [] {
      var init, last := ds[..|ds| - 1], ds[|ds| - 1];
      assert ds == init + [last];
      WriteThenParse(init);
      WriteOneMore(init, last);
      var r, ri := RecipesIn(Written(ds)), RecipesIn(Written(init));
      assert r == ri + [Normalised(last)];
      forall i | 0 <= i < |ds|
        ensures r[i] == Normalised(ds[i])
      {
        if i < |init| {
          assert r[i] == ri[i] && ds[i] == init[i];
        }
      }
    }
  }
}
