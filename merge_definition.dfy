/**
 * A merge definition document (`type: org.yourcompany.openrewrite/v1/merge`):
 * a list of `updateRecipeList` edits that a recipe file carries alongside
 * its recipe definitions.
 */
module MergeDefinitions {
  import opened Wrappers
  import opened YamlValues
  import opened UpdateOrders
  import opened RecipeDefinitions

  /** The `type` value that marks a merge definition. */
  const MergeType: string := "org.yourcompany.openrewrite/v1/merge"

  /** A snapshot of a `MergeRecipeDefinition`; `docType` is the `type` key. */
  datatype MergeDef = MergeDef(docType: Option<string>, name: Option<string>, rules: seq<UpdateSpec>)

  /** The constructor's defaults: the merge type and no rules. */
  const FreshMerge: MergeDef := MergeDef(Some(MergeType), None, [])

  // ---------------------------------------------------------------------
  // setRulesRaw

  /** What one raw rule item contributes: nothing, one edit, or a failed `(String)` cast. */
  datatype RuleItem = Dropped | Parsed(spec: UpdateSpec) | CastFails

  function RuleItemOf(item: Yaml): RuleItem {
    if item.Map? && HasKey(item.entries, "updateRecipeList") then
      var u := Get(item.entries, "updateRecipeList").value;
      if u.Map? then
        var m := u.entries;
        var nameValue := if HasKey(m, "name") then Get(m, "name").value else Null;
        if !(nameValue.Str? || nameValue.Null?) then CastFails
        else
          var name := if nameValue.Str? then Some(nameValue.s) else None;
          var order :=
            if HasKey(m, "updateOrder") && Get(m, "updateOrder").value.Seq?
            then OrderOf(Some(Get(m, "updateOrder").value.items))
            else None;
          Parsed(UpdateSpec(name, order))
      else Dropped
    else Dropped
  }

  /** The rules list built from the raw items, or None when an item's cast fails. */
  function RulesOf(items: seq<Yaml>): Option<seq<UpdateSpec>>
    decreases |items|
  {
    if items == [] then Some([])
    else
      var prev := RulesOf(items[..|items| - 1]);
      var r := RuleItemOf(items[|items| - 1]);
      if prev.None? || r.CastFails? then None
      else if r.Parsed? then Some(prev.value + [r.spec])
      else prev
  }

  /**
   * Only map items whose `updateRecipeList` is itself a map produce a rule;
   * a non-string `name` is the one failure; `name` is taken when present
   * and `updateOrder` only when it is a list.
   */
  lemma RuleItemShapes(item: Yaml)
    ensures !(item.Map? && HasKey(item.entries, "updateRecipeList")) ==> RuleItemOf(item) == Dropped
    ensures (item.Map? && HasKey(item.entries, "updateRecipeList") &&
      !Get(item.entries, "updateRecipeList").value.Map?) ==> RuleItemOf(item) == Dropped
    ensures RuleItemOf(item).Parsed? ==>
      var m := Get(item.entries, "updateRecipeList").value.entries;
      (RuleItemOf(item).spec.name.Some? <==> HasKey(m, "name") && Get(m, "name").value.Str?) &&
      (RuleItemOf(item).spec.updateOrder.Some? <==> HasKey(m, "updateOrder") && Get(m, "updateOrder").value.Seq?)
  {
  }

  /** Rules are produced item by item, in input order. */
  lemma {:induction false} RulesOfAppend(a: seq<Yaml>, b: seq<Yaml>)
    ensures RulesOf(a + b) ==
      if RulesOf(a).None? || RulesOf(b).None? then None else Some(RulesOf(a).value + RulesOf(b).value)
    decreases |b|
  {
    if b == [] {
      assert a + b == a;
      if RulesOf(a).Some? {
        assert RulesOf(a).value + [] == RulesOf(a).value;
      }
    } else {
      var init := b[..|b| - 1];
      RulesOfAppend(a, init);
      assert (a + b)[..|a + b| - 1] == a + init;
      assert (a + b)[|a + b| - 1] == b[|b| - 1];
      if RulesOf(a).Some? && RulesOf(init).Some? && RuleItemOf(b[|b| - 1]).Parsed? {
        assert RulesOf(a).value + RulesOf(init).value + [RuleItemOf(b[|b| - 1]).spec]
          == RulesOf(a).value + (RulesOf(init).value + [RuleItemOf(b[|b| - 1]).spec]);
      }
    }
  }

  /** An item that is not a map at all is dropped without trace. */
  lemma NonMapRuleDropped(a: seq<Yaml>, x: Yaml, b: seq<Yaml>)
    requires !x.Map?
    ensures RulesOf(a + [x] + b) == RulesOf(a + b)
  {
    RulesOfAppend(a + [x], b);
    RulesOfAppend(a, [x]);
    RulesOfAppend(a, b);
    assert [x][..0] == [];
    assert RulesOf([x]) == Some([]);
    if RulesOf(a).Some? {
      assert RulesOf(a).value + [] == RulesOf(a).value;
    }
  }

  class MergeRecipeDefinition {
    var docType: Option<string>
    var name: Option<string>
    var rules: seq<UpdateSpec>

    /** A fresh instance already has the merge type and an empty (not null) rules list. */
    constructor()
      ensures Value() == FreshMerge
    {
      docType := Some(MergeType);
      name := None;
      rules := [];
    }

    function Value(): MergeDef
      reads this
    {
      MergeDef(docType, name, rules)
    }

    /** `isMergeType`: the type equals the sentinel exactly; a null type is not a merge. */
    predicate IsMergeType(): (b: bool)
      reads this
      ensures b <==> Value().docType.Some? && Value().docType.value == MergeType
    {
      docType == Some(MergeType)
    }

    /** `setRules`: null becomes an empty list, anything else is copied. */
    method SetRules(rs: Option<seq<UpdateSpec>>)
      modifies this
      ensures Value() == old(Value()).(rules := rs.GetOr([]))
      ensures rs.Some? ==> rules == rs.value
    {
      if rs.None? {
        rules := [];
      } else {
        rules := rs.value;
      }
    }

    /**
     * `setRulesRaw`: null gives an empty list; otherwise each qualifying
     * item becomes an `UpdateRecipeList`.  A non-string `name` throws
     * (`ok` false) before the field is assigned.
     */
    method SetRulesRaw(raw: Option<seq<Yaml>>) returns (ok: bool)
      modifies this
      ensures raw.None? ==> ok && Value() == old(Value()).(rules := [])
      ensures raw.Some? ==> (ok <==> RulesOf(raw.value).Some?)
      ensures raw.Some? && ok ==> Value() == old(Value()).(rules := RulesOf(raw.value).value)
      ensures !ok ==> Value() == old(Value())
    {
      if raw.None? {
        rules := [];
        return true;
      }
      var items := raw.value;
      var parsed: seq<UpdateSpec> := [];
      var i := 0;
      while i < |items|
        invariant 0 <= i <= |items|
        invariant RulesOf(items[..i]) == Some(parsed)
        invariant Value() == old(Value())
      {
        var item := items[i];
        assert items[..i + 1][..i] == items[..i];
        if item.Map? && HasKey(item.entries, "updateRecipeList") {
          var u := Get(item.entries, "updateRecipeList").value;
          if u.Map? {
            var m := u.entries;
            var update := new UpdateRecipeList();
            if HasKey(m, "name") {
              var n := Get(m, "name").value;
              if n.Str? {
                update.SetName(Some(n.s));
              } else if n.Null? {
                update.SetName(None);
              } else {
                assert RuleItemOf(item) == CastFails;
                RulesOfAppend(items[..i], [item]);
                assert items[..i] + [item] == items[..i + 1];
                RulesOfPrefixFails(items, i + 1);
                return false;
              }
            }
            if HasKey(m, "updateOrder") {
              var o := Get(m, "updateOrder").value;
              if o.Seq? {
                update.SetUpdateOrderRaw(Some(o.items));
              }
            }
            parsed := parsed + [update.Value()];
          }
        }
        i := i + 1;
      }
      assert items[..i] == items;
      rules := parsed;
      ok := true;
    }
  }

  /** Once a prefix fails, the whole list fails. */
  lemma {:induction false} RulesOfPrefixFails(items: seq<Yaml>, k: nat)
    requires k <= |items| && RulesOf(items[..k]).None?
    ensures RulesOf(items).None?
  {
    RulesOfAppend(items[..k], items[k..]);
    assert items[..k] + items[k..] == items;
  }

  /** The static `isMergeType(RecipeDefinition)`: false for null, else the type is the sentinel exactly. */
  predicate IsMergeTypeDefinition(d: RecipeDefinition?): (b: bool)
    reads d
    ensures d == null ==> !b
    ensures d != null ==> (b <==> d.Value().docType.Some? && d.Value().docType.value == MergeType)
  {
    d != null && d.docType == Some(MergeType)
  }

  // ---------------------------------------------------------------------
  // Binding a decoded mapping (unknown properties are ignored)

  function MergeSetField(d: MergeDef, k: string, v: Yaml): (r: Option<MergeDef>)
    ensures k != "type" && k != "name" && k != "rules" ==> r == Some(d)
  {
    if k == "type" then
      (var s := StringValue(v); if s.None? then None else Some(d.(docType := s.value)))
    else if k == "name" then
      (var s := StringValue(v); if s.None? then None else Some(d.(name := s.value)))
    else if k == "rules" then
      (var l := ListValue(v);
       if l.None? then None
       else if l.value.None? then Some(d.(rules := []))
       else
         var rs := RulesOf(l.value.value);
         if rs.None? then None else Some(d.(rules := rs.value)))
    else Some(d)
  }

  function BindMerge(d: MergeDef, es: seq<(string, Yaml)>): Option<MergeDef>
    decreases |es|
  {
    if es == [] then Some(d)
    else
      var next := MergeSetField(d, es[0].0, es[0].1);
      if next.None? then None else BindMerge(next.value, es[1..])
  }

  /**
   * With distinct keys, a successful binding takes its `type` from the
   * document's own `type` value, and keeps the starting one when there is none.
   */
  lemma {:induction false} BindMergeType(d: MergeDef, es: seq<(string, Yaml)>)
    requires DistinctKeys(es)
    ensures BindMerge(d, es).Some? && HasKey(es, "type") ==>
      StringValue(Get(es, "type").value) == Some(BindMerge(d, es).value.docType)
    ensures BindMerge(d, es).Some? && !HasKey(es, "type") ==> BindMerge(d, es).value.docType == d.docType
    decreases |es|
  {
    if es != [] {
      var next := MergeSetField(d, es[0].0, es[0].1);
      DistinctTail(es, "type");
      if next.Some? {
        BindMergeType(next.value, es[1..]);
      }
    }
  }

  /** The whole conversion of a decoded mapping into a merge definition. */
  function DecodeMerge(es: seq<(string, Yaml)>): Option<MergeDef> {
    BindMerge(FreshMerge, es)
  }

  lemma {:induction false} BindMergeAppend(d: MergeDef, a: seq<(string, Yaml)>, b: seq<(string, Yaml)>)
    ensures BindMerge(d, a + b) ==
      (if BindMerge(d, a).None? then None else BindMerge(BindMerge(d, a).value, b))
    decreases |a|
  {
    if a != [] {
      assert (a + b)[0] == a[0];
      assert (a + b)[1..] == a[1..] + b;
      var next := MergeSetField(d, a[0].0, a[0].1);
      if next.Some? {
        BindMergeAppend(next.value, a[1..], b);
      }
    } else {
      assert a + b == b;
    }
  }

  /** A document without `rules` keeps the constructor's empty list. */
  lemma {:induction false} NoRulesKeyKeepsEmpty(d: MergeDef, es: seq<(string, Yaml)>)
    requires forall i :: 0 <= i < |es| ==> es[i].0 != "rules"
    ensures BindMerge(d, es).Some? ==> BindMerge(d, es).value.rules == d.rules
    decreases |es|
  {
    if es != [] {
      var next := MergeSetField(d, es[0].0, es[0].1);
      if next.Some? {
        NoRulesKeyKeepsEmpty(next.value, es[1..]);
      }
    }
  }

  /** One property of the document during binding, through the matching setter. */
  method BindMergeProperty(d: MergeRecipeDefinition, k: string, v: Yaml) returns (ok: bool)
    modifies d
    ensures ok <==> MergeSetField(old(d.Value()), k, v).Some?
    ensures ok ==> d.Value() == MergeSetField(old(d.Value()), k, v).value
    ensures !ok ==> d.Value() == old(d.Value())
  {
    ok := true;
    if k == "type" {
      var s := StringValue(v);
      if s.None? { ok := false; } else { d.docType := s.value; }
    } else if k == "name" {
      var s := StringValue(v);
      if s.None? { ok := false; } else { d.name := s.value; }
    } else if k == "rules" {
      var l := ListValue(v);
      if l.None? {
        ok := false;
      } else {
        ok := d.SetRulesRaw(l.value);
      }
    }
  }

  /** Converting a decoded mapping into a fresh merge definition object; null on failure. */
  method DecodeMergeObject(es: seq<(string, Yaml)>) returns (d: MergeRecipeDefinition?)
    ensures d == null <==> DecodeMerge(es).None?
    ensures d != null ==> fresh(d) && d.Value() == DecodeMerge(es).value
  {
    var obj := new MergeRecipeDefinition();
    var i := 0;
    while i < |es|
      invariant 0 <= i <= |es|
      invariant BindMerge(FreshMerge, es[..i]) == Some(obj.Value())
      invariant fresh(obj)
    {
      var ok := BindMergeProperty(obj, es[i].0, es[i].1);
      BindMergeAppend(FreshMerge, es[..i], [es[i]]);
      assert es[..i] + [es[i]] == es[..i + 1];
      assert [es[i]][1..] == [];
      if !ok {
        BindMergeAppend(FreshMerge, es[..i + 1], es[i + 1..]);
        assert es[..i + 1] + es[i + 1..] == es;
        return null;
      }
      i := i + 1;
    }
    assert es[..i] == es;
    d := obj;
  }

  /** The fields of a sequence of merge definition objects, in order. */
  function MergeValues(ms: seq<MergeRecipeDefinition>): (r: seq<MergeDef>)
    reads set m | m in ms
    ensures |r| == |ms|
    ensures forall i :: 0 <= i < |ms| ==> r[i] == ms[i].Value()
  {
    seq(|ms|, i reads set m | m in ms requires 0 <= i < |ms| => ms[i].Value())
  }
}
