/**
 * The generic tree a YAML document decodes to before it is bound to a model
 * class: what Jackson produces for `Object`, `List<Object>` and
 * `Map<String, Object>`.  Mappings keep insertion order (Jackson builds a
 * LinkedHashMap) and their keys are distinct.
 */
module YamlValues {
  import opened Wrappers

  datatype Yaml =
    | Null
    | Str(s: string)
    | Num(lexeme: string)
    | Bool(b: bool)
    | Seq(items: seq<Yaml>)
    | Map(entries: seq<(string, Yaml)>)

  /** True iff some binding of `entries` has key `k` (`Map.containsKey`). */
  predicate HasKey(entries: seq<(string, Yaml)>, k: string) {
    exists i :: 0 <= i < |entries| && entries[i].0 == k
  }

  /** No key occurs twice, as in the `LinkedHashMap` Jackson builds. */
  predicate DistinctKeys(entries: seq<(string, Yaml)>) {
    forall i, j :: 0 <= i < j < |entries| ==> entries[i].0 != entries[j].0
  }

  /** Past a distinct first key, the rest holds the same keys as the whole, with the same values. */
  lemma DistinctTail(entries: seq<(string, Yaml)>, k: string)
    requires DistinctKeys(entries) && entries != []
    ensures DistinctKeys(entries[1..])
    ensures entries[0].0 == k ==> !HasKey(entries[1..], k)
    ensures entries[0].0 != k ==> (HasKey(entries[1..], k) <==> HasKey(entries, k))
    ensures entries[0].0 != k ==> Get(entries[1..], k) == Get(entries, k)
  {
    forall i, j | 0 <= i < j < |entries[1..]|
      ensures entries[1..][i].0 != entries[1..][j].0
    {
      assert entries[1..][i] == entries[i + 1] && entries[1..][j] == entries[j + 1];
    }
    if entries[0].0 == k {
      forall i | 0 <= i < |entries[1..]|
        ensures entries[1..][i].0 != k
      {
        assert entries[1..][i] == entries[i + 1];
      }
    }
    if entries[0].0 != k && HasKey(entries, k) {
      var i :| 0 <= i < |entries| && entries[i].0 == k;
      assert entries[1..][i - 1].0 == k;
    }
  }

  /** The value bound to `k` (`Map.get`), None when the key is absent. */
  function Get(entries: seq<(string, Yaml)>, k: string): (r: Option<Yaml>)
    ensures r.Some? <==> HasKey(entries, k)
    ensures r.Some? ==> exists i :: 0 <= i < |entries| && entries[i] == (k, r.value)
  {
    if entries == [] then None
    else if entries[0].0 == k then Some(entries[0].1)
    else
      var r := Get(entries[1..], k);
      assert r.Some? ==> exists i :: 0 <= i < |entries[1..]| && entries[1..][i] == (k, r.value);
      assert HasKey(entries[1..], k) ==> HasKey(entries, k) by {
        if HasKey(entries[1..], k) {
          var i :| 0 <= i < |entries[1..]| && entries[1..][i].0 == k;
          assert entries[i + 1].0 == k;
        }
      }
      r
  }

  /** The text Jackson's String deserializer takes from a scalar node. */
  function ScalarText(v: Yaml): (r: Option<string>)
    ensures r.Some? <==> (v.Str? || v.Num? || v.Bool?)
    ensures v.Str? ==> r == Some(v.s)
  {
    match v
    case Str(s) => Some(s)
    case Num(l) => Some(l)
    case Bool(b) => Some(if b then "true" else "false")
    case _ => None
  }

  /**
   * Binding a value to a `String` property: null stays null, a scalar gives
   * its text, a list or mapping makes the binding fail (outer None).
   */
  function StringValue(v: Yaml): (r: Option<Option<string>>)
    ensures r.None? <==> v.Seq? || v.Map?
    ensures v.Null? ==> r == Some(None)
    ensures v.Str? ==> r == Some(Some(v.s))
  {
    if v.Null? then Some(None)
    else if v.Seq? || v.Map? then None
    else Some(ScalarText(v))
  }

  /** Binding a value to a `List<Object>` property: null, a list, or failure. */
  function ListValue(v: Yaml): (r: Option<Option<seq<Yaml>>>)
    ensures r.None? <==> !(v.Null? || v.Seq?)
    ensures v.Seq? ==> r == Some(Some(v.items))
  {
    match v
    case Null => Some(None)
    case Seq(items) => Some(Some(items))
    case _ => None
  }

  /** Binding a value to a `Boolean` property: null, a boolean or its spelling. */
  function BoolValue(v: Yaml): (r: Option<Option<bool>>)
    ensures v.Bool? ==> r == Some(Some(v.b))
    ensures v.Null? ==> r == Some(None)
  {
    match v
    case Null => Some(None)
    case Bool(b) => Some(Some(b))
    case Str(s) =>
      if s == "true" then Some(Some(true))
      else if s == "false" then Some(Some(false))
      else None
    case _ => None
  }
}
