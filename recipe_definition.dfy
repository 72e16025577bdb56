/**
 * An OpenRewrite recipe definition document: its declared fields, how a
 * decoded YAML mapping binds to them, how the raw `recipeList` is
 * normalised, and which fields serialization emits (null fields and empty
 * lists are omitted).
 */
module RecipeDefinitions {
  import opened Wrappers
  import opened YamlValues
  import opened Recipes

  /** A snapshot of every field of a `RecipeDefinition`; `docType` is the `type` key. */
  datatype Definition = Definition(
    docType: Option<string>,
    name: Option<string>,
    displayName: Option<string>,
    description: Option<string>,
    tags: Option<seq<Option<string>>>,
    estimatedEffortPerOccurrence: Option<string>,
    causesAnotherCycle: Option<bool>,
    preconditions: Option<seq<Yaml>>,
    exclusions: Option<seq<Yaml>>,
    recipeList: Option<seq<Recipe>>)

  /** A freshly constructed definition: every field null. */
  const Blank: Definition := Definition(None, None, None, None, None, None, None, None, None, None)

  // ---------------------------------------------------------------------
  // setRecipeListRaw

  /** The entries `Recipe.fromValue` keeps: those that end up with a name. */
  function NamedOnly(items: seq<Yaml>): (r: seq<Recipe>)
    ensures |r| <= |items|
    ensures forall i :: 0 <= i < |r| ==> r[i].name.Some?
    decreases |items|
  {
    if items == [] then []
    else
      var x := FromValue(items[|items| - 1]);
      NamedOnly(items[..|items| - 1]) + (if x.name.Some? then [x] else [])
  }

  /** Normalisation works item by item: it distributes over concatenation. */
  lemma {:induction false} NamedOnlyAppend(a: seq<Yaml>, b: seq<Yaml>)
    ensures NamedOnly(a + b) == NamedOnly(a) + NamedOnly(b)
    decreases |b|
  {
    if b == [] {
      assert a + b == a;
    } else {
      var init := b[..|b| - 1];
      NamedOnlyAppend(a, init);
      assert (a + b)[..|a + b| - 1] == a + init;
      assert (a + b)[|a + b| - 1] == b[|b| - 1];
    }
  }

  /** A single item is kept, normalised, iff it has a name. */
  lemma NamedOnlySingle(x: Yaml)
    ensures NamedOnly([x]) == if FromValue(x).name.Some? then [FromValue(x)] else []
  {
    assert [x][..0] == [];
  }

  /** Every kept entry is the normalisation of some item, and items keep their order. */
  lemma {:induction false} NamedOnlyFromItems(items: seq<Yaml>)
    ensures forall i :: 0 <= i < |NamedOnly(items)| ==>
      exists j :: 0 <= j < |items| && NamedOnly(items)[i] == FromValue(items[j])
    decreases |items|
  {
    if items != [] {
      var init := items[..|items| - 1];
      NamedOnlyFromItems(init);
      var r := NamedOnly(items);
      var x := FromValue(items[|items| - 1]);
      assert r == NamedOnly(init) + (if x.name.Some? then [x] else []);
      forall i | 0 <= i < |r|
        ensures exists j :: 0 <= j < |items| && r[i] == FromValue(items[j])
      {
        if i < |NamedOnly(init)| {
          assert r[i] == NamedOnly(init)[i];
          var j :| 0 <= j < |init| && NamedOnly(init)[i] == FromValue(init[j]);
          assert items[j] == init[j];
          assert r[i] == FromValue(items[j]);
        } else {
          var j := |items| - 1;
          assert r[i] == FromValue(items[j]);
        }
      }
      assert forall i :: 0 <= i < |r| ==> exists j :: 0 <= j < |items| && r[i] == FromValue(items[j]);
    } else {
      assert NamedOnly(items) == [];
    }
  }

  // ---------------------------------------------------------------------
  // Binding a decoded mapping to the fields

  /** The field names a definition document may carry. */
  const FieldKeys: seq<string> := ["type", "name", "displayName", "description", "tags",
    "estimatedEffortPerOccurrence", "causesAnotherCycle", "preconditions", "exclusions", "recipeList"]

  /** Binding each element of `tags` as a string. */
  function StringItems(items: seq<Yaml>): (r: Option<seq<Option<string>>>)
    ensures r.Some? ==> |r.value| == |items|
    ensures r.Some? <==> forall i :: 0 <= i < |items| ==> StringValue(items[i]).Some?
    ensures r.Some? ==> forall i :: 0 <= i < |items| ==> r.value[i] == StringValue(items[i]).value
    decreases |items|
  {
    if items == [] then Some([])
    else
      var head := StringValue(items[0]);
      var tail := StringItems(items[1..]);
      if head.None? || tail.None? then
        assert tail.None? ==> exists i :: 0 <= i < |items[1..]| && StringValue(items[1..][i]).None?;
        None
      else Some([head.value] + tail.value)
  }

  /** One property set during binding; None when the value cannot be bound or the key is unknown. */
  function SetField(d: Definition, k: string, v: Yaml): (r: Option<Definition>)
    ensures k !in FieldKeys ==> r.None?
  {
    if k == "type" then
      (var s := StringValue(v); if s.None? then None else Some(d.(docType := s.value)))
    else if k == "name" then
      (var s := StringValue(v); if s.None? then None else Some(d.(name := s.value)))
    else if k == "displayName" then
      (var s := StringValue(v); if s.None? then None else Some(d.(displayName := s.value)))
    else if k == "description" then
      (var s := StringValue(v); if s.None? then None else Some(d.(description := s.value)))
    else if k == "tags" then
      (if v.Null? then Some(d.(tags := None))
       else if v.Seq? && StringItems(v.items).Some? then Some(d.(tags := StringItems(v.items)))
       else None)
    else if k == "estimatedEffortPerOccurrence" then
      (var s := StringValue(v); if s.None? then None else Some(d.(estimatedEffortPerOccurrence := s.value)))
    else if k == "causesAnotherCycle" then
      (var b := BoolValue(v); if b.None? then None else Some(d.(causesAnotherCycle := b.value)))
    else if k == "preconditions" then
      (var l := ListValue(v); if l.None? then None else Some(d.(preconditions := l.value)))
    else if k == "exclusions" then
      (var l := ListValue(v); if l.None? then None else Some(d.(exclusions := l.value)))
    else if k == "recipeList" then
      (var l := ListValue(v);
       if l.None? then None
       else Some(d.(recipeList := if l.value.None? then None else Some(NamedOnly(l.value.value)))))
    else None
  }

  /** Binding every property of the mapping in document order; any failure fails the whole. */
  function BindFields(d: Definition, es: seq<(string, Yaml)>): Option<Definition>
    decreases |es|
  {
    if es == [] then Some(d)
    else
      var next := SetField(d, es[0].0, es[0].1);
      if next.None? then None else BindFields(next.value, es[1..])
  }

  /**
   * With distinct keys, a successful binding takes its `type` from the
   * document's own `type` value, and keeps the starting one when there is none.
   */
  lemma {:induction false} BindFieldsType(d: Definition, es: seq<(string, Yaml)>)
    requires DistinctKeys(es)
    ensures BindFields(d, es).Some? && HasKey(es, "type") ==>
      StringValue(Get(es, "type").value) == Some(BindFields(d, es).value.docType)
    ensures BindFields(d, es).Some? && !HasKey(es, "type") ==> BindFields(d, es).value.docType == d.docType
    decreases |es|
  {
    if es != [] {
      var next := SetField(d, es[0].0, es[0].1);
      DistinctTail(es, "type");
      if next.Some? {
        BindFieldsType(next.value, es[1..]);
      }
    }
  }

  /** The whole conversion of a decoded mapping into a definition. */
  function Decode(es: seq<(string, Yaml)>): Option<Definition> {
    BindFields(Blank, es)
  }

  lemma {:induction false} BindFieldsAppend(d: Definition, a: seq<(string, Yaml)>, b: seq<(string, Yaml)>)
    ensures BindFields(d, a + b) ==
      (if BindFields(d, a).None? then None else BindFields(BindFields(d, a).value, b))
    decreases |a|
  {
    if a != [] {
      assert (a + b)[0] == a[0];
      assert (a + b)[1..] == a[1..] + b;
      var next := SetField(d, a[0].0, a[0].1);
      if next.Some? {
        BindFieldsAppend(next.value, a[1..], b);
      }
    } else {
      assert a + b == b;
    }
  }

  /** Binding keeps every recipe entry writable: decoded entries always carry a name. */
  lemma {:induction false} BindKeepsSerializable(d: Definition, es: seq<(string, Yaml)>)
    requires Serializable(d)
    ensures BindFields(d, es).Some? ==> Serializable(BindFields(d, es).value)
    decreases |es|
  {
    if es != [] {
      var next := SetField(d, es[0].0, es[0].1);
      if next.Some? {
        BindKeepsSerializable(next.value, es[1..]);
      }
    }
  }

  /** A key that is not one of the declared properties makes the whole binding fail. */
  lemma {:induction false} UnknownKeyFails(d: Definition, es: seq<(string, Yaml)>, i: nat)
    requires i < |es| && es[i].0 !in FieldKeys
    ensures BindFields(d, es).None?
  {
    BindFieldsAppend(d, es[..i], es[i..]);
    assert es[..i] + es[i..] == es;
    if BindFields(d, es[..i]).Some? {
      assert es[i..][0] == es[i];
    }
  }

  // ---------------------------------------------------------------------
  // Serialization (NON_EMPTY)

  /** A string property is written when it is not null (an empty string is still written). */
  function StringProperty(k: string, s: Option<string>): seq<(string, Yaml)> {
    if s.Some? then [(k, Str(s.value))] else []
  }

  /** A list property is written when it is neither null nor empty. */
  function ListProperty(k: string, l: Option<seq<Yaml>>): seq<(string, Yaml)> {
    if l.Some? && l.value != [] then [(k, Seq(l.value))] else []
  }

  function TagValues(tags: seq<Option<string>>): (r: seq<Yaml>)
    ensures |r| == |tags|
  {
    seq(|tags|, i requires 0 <= i < |tags| => if tags[i].Some? then Str(tags[i].value) else Null)
  }

  predicate AllWritable(l: seq<Recipe>) {
    forall i :: 0 <= i < |l| ==> Writable(l[i])
  }

  function RecipeValues(l: seq<Recipe>): (r: seq<Yaml>)
    requires AllWritable(l)
    ensures |r| == |l|
  {
    seq(|l|, i requires 0 <= i < |l| => ToValue(l[i]))
  }

  predicate Serializable(d: Definition) {
    d.recipeList.Some? ==> AllWritable(d.recipeList.value)
  }

  /**
   * The document written for a definition: its non-null, non-empty
   * properties in declaration order.
   */
  function Serialize(d: Definition): (r: Yaml)
    requires Serializable(d)
    ensures r.Map?
  {
    Map(
      StringProperty("type", d.docType) +
      (StringProperty("name", d.name) +
      (StringProperty("displayName", d.displayName) +
      (StringProperty("description", d.description) +
      (ListProperty("tags", if d.tags.Some? then Some(TagValues(d.tags.value)) else None) +
      (StringProperty("estimatedEffortPerOccurrence", d.estimatedEffortPerOccurrence) +
      ((if d.causesAnotherCycle.Some? then [("causesAnotherCycle", Bool(d.causesAnotherCycle.value))] else []) +
      (ListProperty("preconditions", d.preconditions) +
      (ListProperty("exclusions", d.exclusions) +
      ListProperty("recipeList", if d.recipeList.Some? then Some(RecipeValues(d.recipeList.value)) else None))))))))))
  }

  /** The entries of `l` that have a name, in order. */
  function NamedEntries(l: seq<Recipe>): (r: seq<Recipe>)
    ensures |r| <= |l|
    decreases |l|
  {
    if l == [] then []
    else NamedEntries(l[..|l| - 1]) + (if l[|l| - 1].name.Some? then [l[|l| - 1]] else [])
  }

  /** Re-reading written entries keeps exactly the named ones. */
  lemma {:induction false} NamedOnlyOfWritten(l: seq<Recipe>)
    requires AllWritable(l)
    ensures NamedOnly(RecipeValues(l)) == NamedEntries(l)
    decreases |l|
  {
    if l != [] {
      var init := l[..|l| - 1];
      NamedOnlyOfWritten(init);
      assert RecipeValues(l)[..|l| - 1] == RecipeValues(init);
      FromValueToValue(l[|l| - 1]);
    }
  }

  /** What a definition looks like after being written and read back. */
  function Normalised(d: Definition): Definition
    requires Serializable(d)
  {
    d.(tags := if d.tags.Some? && d.tags.value != [] then d.tags else None,
       preconditions := if d.preconditions.Some? && d.preconditions.value != [] then d.preconditions else None,
       exclusions := if d.exclusions.Some? && d.exclusions.value != [] then d.exclusions else None,
       recipeList := if d.recipeList.Some? && d.recipeList.value != [] then Some(NamedEntries(d.recipeList.value)) else None)
  }

  lemma StringItemsOfTags(tags: seq<Option<string>>)
    ensures StringItems(TagValues(tags)) == Some(tags)
  {
    var r := StringItems(TagValues(tags));
    assert r.value == tags;
  }

  /** Binding one written property after the ones before it. */
  lemma BindOne(d: Definition, kv: (string, Yaml), rest: seq<(string, Yaml)>)
    requires SetField(d, kv.0, kv.1).Some?
    ensures BindFields(d, [kv] + rest) == BindFields(SetField(d, kv.0, kv.1).value, rest)
  {
    assert ([kv] + rest)[0] == kv;
    assert ([kv] + rest)[1..] == rest;
  }

  /**
   * One written property (zero or one binding) moves the binding from `a`
   * to `b`, where an omitted property leaves `a` as it is.
   */
  lemma StepProperty(a: Definition, b: Definition, p: seq<(string, Yaml)>, rest: seq<(string, Yaml)>)
    requires |p| <= 1
    requires p == [] ==> a == b
    requires p != [] ==> SetField(a, p[0].0, p[0].1) == Some(b)
    ensures BindFields(a, p + rest) == BindFields(b, rest)
  {
    if p == [] {
      assert p + rest == rest;
    } else {
      assert p == [p[0]];
      BindOne(a, p[0], rest);
    }
  }

  // Each written property binds back to the value it was written from.

  lemma ReadType(a: Definition, s: Option<string>)
    ensures var p := StringProperty("type", s);
      |p| <= 1 && (p == [] ==> s.None?) && (p != [] ==> SetField(a, p[0].0, p[0].1) == Some(a.(docType := s)))
  {
  }

  lemma ReadName(a: Definition, s: Option<string>)
    ensures var p := StringProperty("name", s);
      |p| <= 1 && (p == [] ==> s.None?) && (p != [] ==> SetField(a, p[0].0, p[0].1) == Some(a.(name := s)))
  {
  }

  lemma ReadDisplayName(a: Definition, s: Option<string>)
    ensures var p := StringProperty("displayName", s);
      |p| <= 1 && (p == [] ==> s.None?) && (p != [] ==> SetField(a, p[0].0, p[0].1) == Some(a.(displayName := s)))
  {
  }

  lemma ReadDescription(a: Definition, s: Option<string>)
    ensures var p := StringProperty("description", s);
      |p| <= 1 && (p == [] ==> s.None?) && (p != [] ==> SetField(a, p[0].0, p[0].1) == Some(a.(description := s)))
  {
  }

  lemma ReadEffort(a: Definition, s: Option<string>)
    ensures var p := StringProperty("estimatedEffortPerOccurrence", s);
      |p| <= 1 && (p == [] ==> s.None?) &&
      (p != [] ==> SetField(a, p[0].0, p[0].1) == Some(a.(estimatedEffortPerOccurrence := s)))
  {
  }

  lemma ReadTags(a: Definition, t: Option<seq<Option<string>>>)
    ensures var p := ListProperty("tags", if t.Some? then Some(TagValues(t.value)) else None);
      var n := if t.Some? && t.value != [] then t else None;
      |p| <= 1 && (p == [] ==> n.None?) && (p != [] ==> SetField(a, p[0].0, p[0].1) == Some(a.(tags := n)))
  {
    if t.Some? {
      StringItemsOfTags(t.value);
    }
  }

  lemma ReadCycle(a: Definition, c: Option<bool>)
    ensures var p := if c.Some? then [("causesAnotherCycle", Bool(c.value))] else [];
      |p| <= 1 && (p == [] ==> c.None?) && (p != [] ==> SetField(a, p[0].0, p[0].1) == Some(a.(causesAnotherCycle := c)))
  {
  }

  lemma ReadPreconditions(a: Definition, l: Option<seq<Yaml>>)
    ensures var p := ListProperty("preconditions", l);
      var n := if l.Some? && l.value != [] then l else None;
      |p| <= 1 && (p == [] ==> n.None?) && (p != [] ==> SetField(a, p[0].0, p[0].1) == Some(a.(preconditions := n)))
  {
  }

  lemma ReadExclusions(a: Definition, l: Option<seq<Yaml>>)
    ensures var p := ListProperty("exclusions", l);
      var n := if l.Some? && l.value != [] then l else None;
      |p| <= 1 && (p == [] ==> n.None?) && (p != [] ==> SetField(a, p[0].0, p[0].1) == Some(a.(exclusions := n)))
  {
  }

  lemma ReadRecipeList(a: Definition, l: Option<seq<Recipe>>)
    requires l.Some? ==> AllWritable(l.value)
    ensures var p := ListProperty("recipeList", if l.Some? then Some(RecipeValues(l.value)) else None);
      var n := if l.Some? && l.value != [] then Some(NamedEntries(l.value)) else None;
      |p| <= 1 && (p == [] ==> n.None?) && (p != [] ==> SetField(a, p[0].0, p[0].1) == Some(a.(recipeList := n)))
  {
    if l.Some? {
      NamedOnlyOfWritten(l.value);
    }
  }

  /**
   * Writing a definition and binding the written document again gives the
   * definition back, up to the omitted empty lists and the unnamed entries
   * that the `recipeList` normalisation drops.
   */
  lemma WriteThenRead(d: Definition)
    requires Serializable(d)
    ensures Decode(Serialize(d).entries) == Some(Normalised(d))
  {
    var p0 := StringProperty("type", d.docType);
    var p1 := StringProperty("name", d.name);
    var p2 := StringProperty("displayName", d.displayName);
    var p3 := StringProperty("description", d.description);
    var p4 := ListProperty("tags", if d.tags.Some? then Some(TagValues(d.tags.value)) else None);
    var p5 := StringProperty("estimatedEffortPerOccurrence", d.estimatedEffortPerOccurrence);
    var p6 := if d.causesAnotherCycle.Some? then [("causesAnotherCycle", Bool(d.causesAnotherCycle.value))] else [];
    var p7 := ListProperty("preconditions", d.preconditions);
    var p8 := ListProperty("exclusions", d.exclusions);
    var p9 := ListProperty("recipeList", if d.recipeList.Some? then Some(RecipeValues(d.recipeList.value)) else None);
    var nd := Normalised(d);
    var d0 := Blank.(docType := d.docType);
    var d1 := d0.(name := d.name);
    var d2 := d1.(displayName := d.displayName);
    var d3 := d2.(description := d.description);
    var d4 := d3.(tags := nd.tags);
    var d5 := d4.(estimatedEffortPerOccurrence := d.estimatedEffortPerOccurrence);
    var d6 := d5.(causesAnotherCycle := d.causesAnotherCycle);
    var d7 := d6.(preconditions := nd.preconditions);
    var d8 := d7.(exclusions := nd.exclusions);
    var d9 := d8.(recipeList := nd.recipeList);
    assert d9 == nd;
    var e9 := p9;
    var e8 := p8 + e9;
    var e7 := p7 + e8;
    var e6 := p6 + e7;
    var e5 := p5 + e6;
    var e4 := p4 + e5;
    var e3 := p3 + e4;
    var e2 := p2 + e3;
    var e1 := p1 + e2;
    var e0 := p0 + e1;
    assert Serialize(d).entries == e0;
    assert BindFields(Blank, e0) == BindFields(d0, e1) by {
      ReadType(Blank, d.docType);
      StepProperty(Blank, d0, p0, e1);
    }
    assert BindFields(d0, e1) == BindFields(d1, e2) by {
      ReadName(d0, d.name);
      StepProperty(d0, d1, p1, e2);
    }
    assert BindFields(d1, e2) == BindFields(d2, e3) by {
      ReadDisplayName(d1, d.displayName);
      StepProperty(d1, d2, p2, e3);
    }
    assert BindFields(d2, e3) == BindFields(d3, e4) by {
      ReadDescription(d2, d.description);
      StepProperty(d2, d3, p3, e4);
    }
    assert BindFields(d3, e4) == BindFields(d4, e5) by {
      ReadTags(d3, d.tags);
      StepProperty(d3, d4, p4, e5);
    }
    assert BindFields(d4, e5) == BindFields(d5, e6) by {
      ReadEffort(d4, d.estimatedEffortPerOccurrence);
      StepProperty(d4, d5, p5, e6);
    }
    assert BindFields(d5, e6) == BindFields(d6, e7) by {
      ReadCycle(d5, d.causesAnotherCycle);
      StepProperty(d5, d6, p6, e7);
    }
    assert BindFields(d6, e7) == BindFields(d7, e8) by {
      ReadPreconditions(d6, d.preconditions);
      StepProperty(d6, d7, p7, e8);
    }
    assert BindFields(d7, e8) == BindFields(d8, e9) by {
      ReadExclusions(d7, d.exclusions);
      StepProperty(d7, d8, p8, e9);
    }
    assert BindFields(d8, e9) == Some(d9) by {
      ReadRecipeList(d8, d.recipeList);
      StepProperty(d8, d9, p9, []);
      assert p9 + [] == p9;
      assert BindFields(d9, []) == Some(d9);
    }
  }

  // ---------------------------------------------------------------------
  // The mutable object

  class RecipeDefinition {
    var docType: Option<string>
    var name: Option<string>
    var displayName: Option<string>
    var description: Option<string>
    var tags: Option<seq<Option<string>>>
    var estimatedEffortPerOccurrence: Option<string>
    var causesAnotherCycle: Option<bool>
    var preconditions: Option<seq<Yaml>>
    var exclusions: Option<seq<Yaml>>
    var recipeList: Option<seq<Recipe>>

    constructor()
      ensures Value() == Blank
    {
      docType, name, displayName, description := None, None, None, None;
      tags, estimatedEffortPerOccurrence, causesAnotherCycle := None, None, None;
      preconditions, exclusions, recipeList := None, None, None;
    }

    function Value(): Definition
      reads this
    {
      Definition(docType, name, displayName, description, tags, estimatedEffortPerOccurrence,
        causesAnotherCycle, preconditions, exclusions, recipeList)
    }

    /** `setRecipeList`: replaces the list, every other field untouched. */
    method SetRecipeList(l: Option<seq<Recipe>>)
      modifies this
      ensures Value() == old(Value()).(recipeList := l)
    {
      recipeList := l;
    }

    /**
     * `setRecipeListRaw`: null stays null; otherwise each item goes through
     * `Recipe.fromValue` in order and the unnamed results are dropped.
     */
    method SetRecipeListRaw(raw: Option<seq<Yaml>>)
      modifies this
      ensures Value() == old(Value()).(recipeList := if raw.None? then None else Some(NamedOnly(raw.value)))
    {
      if raw.None? {
        recipeList := None;
        return;
      }
      var items := raw.value;
      var normalized: seq<Recipe> := [];
      var i := 0;
      while i < |items|
        invariant 0 <= i <= |items|
        invariant normalized == NamedOnly(items[..i])
      {
        var recipe := FromValue(items[i]);
        assert items[..i + 1][..i] == items[..i];
        if recipe.name.Some? {
          normalized := normalized + [recipe];
        }
        i := i + 1;
      }
      assert items[..i] == items;
      recipeList := Some(normalized);
    }

    /**
     * One property of the document during binding: the matching setter is
     * called, or the binding fails (`ok` false) and nothing is set.
     */
    method BindProperty(k: string, v: Yaml) returns (ok: bool)
      modifies this
      ensures ok <==> SetField(old(Value()), k, v).Some?
      ensures ok ==> Value() == SetField(old(Value()), k, v).value
      ensures !ok ==> Value() == old(Value())
    {
      ok := true;
      if k == "type" {
        var s := StringValue(v);
        if s.None? { ok := false; } else { docType := s.value; }
      } else if k == "name" {
        var s := StringValue(v);
        if s.None? { ok := false; } else { name := s.value; }
      } else if k == "displayName" {
        var s := StringValue(v);
        if s.None? { ok := false; } else { displayName := s.value; }
      } else if k == "description" {
        var s := StringValue(v);
        if s.None? { ok := false; } else { description := s.value; }
      } else if k == "tags" {
        if v.Null? {
          tags := None;
        } else if v.Seq? && StringItems(v.items).Some? {
          tags := StringItems(v.items);
        } else {
          ok := false;
        }
      } else if k == "estimatedEffortPerOccurrence" {
        var s := StringValue(v);
        if s.None? { ok := false; } else { estimatedEffortPerOccurrence := s.value; }
      } else if k == "causesAnotherCycle" {
        var b := BoolValue(v);
        if b.None? { ok := false; } else { causesAnotherCycle := b.value; }
      } else if k == "preconditions" {
        var l := ListValue(v);
        if l.None? { ok := false; } else { preconditions := l.value; }
      } else if k == "exclusions" {
        var l := ListValue(v);
        if l.None? { ok := false; } else { exclusions := l.value; }
      } else if k == "recipeList" {
        var l := ListValue(v);
        if l.None? { ok := false; } else { SetRecipeListRaw(l.value); }
      } else {
        ok := false;
      }
    }
  }

  /**
   * Converting a decoded mapping into a fresh definition object, property
   * by property in document order; null when a property cannot be bound.
   */
  method DecodeObject(es: seq<(string, Yaml)>) returns (d: RecipeDefinition?)
    ensures d == null <==> Decode(es).None?
    ensures d != null ==> fresh(d) && d.Value() == Decode(es).value
  {
    var obj := new RecipeDefinition();
    var i := 0;
    while i < |es|
      invariant 0 <= i <= |es|
      invariant BindFields(Blank, es[..i]) == Some(obj.Value())
      invariant fresh(obj)
    {
      var before := obj.Value();
      var ok := obj.BindProperty(es[i].0, es[i].1);
      BindFieldsAppend(Blank, es[..i], [es[i]]);
      assert es[..i] + [es[i]] == es[..i + 1];
      assert [es[i]][1..] == [];
      if !ok {
        BindFieldsAppend(Blank, es[..i + 1], es[i + 1..]);
        assert es[..i + 1] + es[i + 1..] == es;
        return null;
      }
      i := i + 1;
    }
    assert es[..i] == es;
    d := obj;
  }

  /** All the fields of a sequence of definition objects, in order. */
  function Values(defs: seq<RecipeDefinition>): (r: seq<Definition>)
    reads set d | d in defs
    ensures |r| == |defs|
    ensures forall i :: 0 <= i < |defs| ==> r[i] == defs[i].Value()
  {
    seq(|defs|, i reads set d | d in defs requires 0 <= i < |defs| => defs[i].Value())
  }
}
