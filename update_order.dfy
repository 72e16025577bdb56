/**
 * The `updateOrder` part of an `updateRecipeList` block: which recipe names
 * go first, last, before an anchor or after an anchor.  The source builds
 * these objects field by field while walking the raw YAML; each class here
 * keeps those fields, and `Value()` reads them back as a plain value.
 */
module UpdateOrders {
  import opened Wrappers
  import opened YamlValues

  /** A snapshot of an `UpdateEntry`: optional anchor key and optional raw values. */
  datatype Entry = Entry(key: Option<string>, values: Option<seq<Yaml>>)

  /** A snapshot of an `UpdateOrder`: one optional entry list per section. */
  datatype Order = Order(
    first: Option<seq<Entry>>,
    last: Option<seq<Entry>>,
    before: Option<seq<Entry>>,
    after: Option<seq<Entry>>)

  /** A snapshot of an `UpdateRecipeList`: target name and optional order. */
  datatype UpdateSpec = UpdateSpec(name: Option<string>, updateOrder: Option<Order>)

  const NoEntry: Entry := Entry(None, None)
  const NoOrder: Order := Order(None, None, None, None)

  // ---------------------------------------------------------------------
  // UpdateEntry.setValue

  /** The fields after `setValue(raw)` on an entry whose fields were `e`. */
  function SetEntry(e: Entry, raw: Yaml): Entry {
    match raw
    case Str(s) => Entry(None, Some([Str(s)]))
    case Map(es) =>
      if |es| == 1 then
        Entry(Some(es[0].0), Some(if es[0].1.Seq? then es[0].1.items else []))
      else e
    case Seq(items) => Entry(None, Some(items))
    case _ => e
  }

  /** A fresh `UpdateEntry` after `setValue(raw)`. */
  function EntryOf(raw: Yaml): Entry {
    SetEntry(NoEntry, raw)
  }

  /** How each shape of raw item is normalised. */
  lemma EntryOfShapes(raw: Yaml)
    ensures raw.Str? ==> EntryOf(raw) == Entry(None, Some([raw]))
    ensures raw.Seq? ==> EntryOf(raw) == Entry(None, Some(raw.items))
    ensures raw.Map? && |raw.entries| == 1 && raw.entries[0].1.Seq? ==>
      EntryOf(raw) == Entry(Some(raw.entries[0].0), Some(raw.entries[0].1.items))
    ensures raw.Map? && |raw.entries| == 1 && !raw.entries[0].1.Seq? ==>
      EntryOf(raw) == Entry(Some(raw.entries[0].0), Some([]))
    ensures (raw.Map? && |raw.entries| != 1) || raw.Null? || raw.Num? || raw.Bool? ==>
      EntryOf(raw) == NoEntry
    ensures EntryOf(raw).key.Some? <==> raw.Map? && |raw.entries| == 1
  {
  }

  class UpdateEntry {
    var key: Option<string>
    var values: Option<seq<Yaml>>

    constructor()
      ensures key == None && values == None
    {
      key := None;
      values := None;
    }

    function Value(): Entry
      reads this
    {
      Entry(key, values)
    }

    /** `UpdateEntry.setValue`: a string, a one-key map or a list sets both fields. */
    method SetValue(raw: Yaml)
      modifies this
      ensures Value() == SetEntry(old(Value()), raw)
    {
      match raw {
        case Str(s) =>
          key := None;
          values := Some([Str(s)]);
        case Map(es) =>
          if |es| == 1 {
            key := Some(es[0].0);
            if es[0].1.Seq? {
              values := Some(es[0].1.items);
            } else {
              values := Some([]);
            }
          }
        case Seq(items) =>
          key := None;
          values := Some(items);
        case _ =>
      }
    }
  }

  // ---------------------------------------------------------------------
  // UpdateOrder.setUpdateOrderRaw and parseUpdateEntryList

  /** `parseUpdateEntryList`: one entry per element of a list, nothing otherwise. */
  function EntryListOf(raw: Yaml): (r: seq<Entry>)
    ensures !raw.Seq? ==> r == []
    ensures raw.Seq? ==> |r| == |raw.items|
    ensures raw.Seq? ==> forall i :: 0 <= i < |r| ==> r[i] == EntryOf(raw.items[i])
  {
    if raw.Seq? then seq(|raw.items|, i requires 0 <= i < |raw.items| => EntryOf(raw.items[i]))
    else []
  }

  /** The names of the four sections, in the order the source checks them. */
  const SectionKeys: seq<string> := ["first", "last", "before", "after"]

  /** The section of `o` named `k` (None for a name that is not a section). */
  function Section(o: Order, k: string): Option<seq<Entry>> {
    if k == "first" then o.first
    else if k == "last" then o.last
    else if k == "before" then o.before
    else if k == "after" then o.after
    else None
  }

  /** The entry list a map item gives section `k`, if it carries that key. */
  function SectionIn(es: seq<(string, Yaml)>, k: string): Option<seq<Entry>> {
    if HasKey(es, k) then Some(EntryListOf(Get(es, k).value)) else None
  }

  /** Overwrite a section when the item supplies it, else keep the old one. */
  function Override(old_: Option<seq<Entry>>, supplied: Option<seq<Entry>>): Option<seq<Entry>> {
    if supplied.Some? then supplied else old_
  }

  /** One iteration of the loop: a map item overwrites the sections it names. */
  function OrderStep(o: Order, item: Yaml): Order {
    if item.Map? then
      Order(
        Override(o.first, SectionIn(item.entries, "first")),
        Override(o.last, SectionIn(item.entries, "last")),
        Override(o.before, SectionIn(item.entries, "before")),
        Override(o.after, SectionIn(item.entries, "after")))
    else o
  }

  /** The whole loop over the raw list, starting from the fields `o`. */
  function FoldOrder(o: Order, items: seq<Yaml>): Order
    decreases |items|
  {
    if items == [] then o
    else OrderStep(FoldOrder(o, items[..|items| - 1]), items[|items| - 1])
  }

  /** The value of section `k` in the last map item of `items` that carries it. */
  function LastSupplied(items: seq<Yaml>, k: string): Option<seq<Entry>>
    decreases |items|
  {
    if items == [] then None
    else
      var x := items[|items| - 1];
      if x.Map? && HasKey(x.entries, k) then SectionIn(x.entries, k)
      else LastSupplied(items[..|items| - 1], k)
  }

  lemma SectionOfStep(o: Order, item: Yaml, k: string)
    requires k in SectionKeys
    ensures Section(OrderStep(o, item), k) ==
      if item.Map? && HasKey(item.entries, k) then SectionIn(item.entries, k) else Section(o, k)
  {
  }

  /**
   * Each section ends up as the one supplied by the LAST map item carrying
   * its key (a later item replaces an earlier one rather than extending
   * it); a section no item supplies keeps its initial value.
   */
  lemma {:induction false} LastItemWins(o: Order, items: seq<Yaml>, k: string)
    requires k in SectionKeys
    ensures Section(FoldOrder(o, items), k) == Override(Section(o, k), LastSupplied(items, k))
    decreases |items|
  {
    if items != [] {
      var init := items[..|items| - 1];
      LastItemWins(o, init, k);
      SectionOfStep(FoldOrder(o, init), items[|items| - 1], k);
    }
  }

  /** An item that is not a map can be removed without changing the outcome. */
  lemma {:induction false} NonMapItemIgnored(o: Order, pre: seq<Yaml>, x: Yaml, post: seq<Yaml>)
    requires !x.Map?
    ensures FoldOrder(o, pre + [x] + post) == FoldOrder(o, pre + post)
    decreases |post|
  {
    if post == [] {
      assert pre + [x] + post == pre + [x];
      assert (pre + [x])[..|pre + [x]| - 1] == pre;
      assert pre + post == pre;
    } else {
      var init := post[..|post| - 1];
      var y := post[|post| - 1];
      NonMapItemIgnored(o, pre, x, init);
      assert (pre + [x] + post)[..|pre + [x] + post| - 1] == pre + [x] + init;
      assert (pre + post)[..|pre + post| - 1] == pre + init;
    }
  }

  class UpdateOrder {
    var first: Option<seq<Entry>>
    var last: Option<seq<Entry>>
    var before: Option<seq<Entry>>
    var after: Option<seq<Entry>>

    constructor()
      ensures Value() == NoOrder
    {
      first, last, before, after := None, None, None, None;
    }

    function Value(): Order
      reads this
    {
      Order(first, last, before, after)
    }

    /** `parseUpdateEntryList`: a fresh entry per raw element, `setValue` applied. */
    method ParseUpdateEntryList(raw: Yaml) returns (result: seq<Entry>)
      ensures result == EntryListOf(raw)
    {
      result := [];
      if raw.Seq? {
        var i := 0;
        while i < |raw.items|
          invariant 0 <= i <= |raw.items|
          invariant |result| == i
          invariant forall j :: 0 <= j < i ==> result[j] == EntryOf(raw.items[j])
        {
          var entry := new UpdateEntry();
          entry.SetValue(raw.items[i]);
          result := result + [entry.Value()];
          i := i + 1;
        }
      }
    }

    /** `UpdateOrder.setUpdateOrderRaw`: null leaves the fields alone. */
    method SetUpdateOrderRaw(raw: Option<seq<Yaml>>)
      modifies this
      ensures raw.None? ==> Value() == old(Value())
      ensures raw.Some? ==> Value() == FoldOrder(old(Value()), raw.value)
    {
      if raw.None? {
        return;
      }
      var items := raw.value;
      var i := 0;
      while i < |items|
        invariant 0 <= i <= |items|
        invariant Value() == FoldOrder(old(Value()), items[..i])
      {
        var item := items[i];
        assert items[..i + 1][..i] == items[..i];
        if item.Map? {
          var m := item.entries;
          if HasKey(m, "first") {
            var section := ParseUpdateEntryList(Get(m, "first").value);
            first := Some(section);
          }
          if HasKey(m, "last") {
            var section := ParseUpdateEntryList(Get(m, "last").value);
            last := Some(section);
          }
          if HasKey(m, "before") {
            var section := ParseUpdateEntryList(Get(m, "before").value);
            before := Some(section);
          }
          if HasKey(m, "after") {
            var section := ParseUpdateEntryList(Get(m, "after").value);
            after := Some(section);
          }
        }
        i := i + 1;
      }
      assert items[..i] == items;
    }
  }

  // ---------------------------------------------------------------------
  // UpdateRecipeList

  /** The `updateOrder` a raw list decodes to; null stays absent. */
  function OrderOf(raw: Option<seq<Yaml>>): Option<Order> {
    if raw.None? then None else Some(FoldOrder(NoOrder, raw.value))
  }

  class UpdateRecipeList {
    var name: Option<string>
    var updateOrder: Option<Order>

    constructor()
      ensures Value() == UpdateSpec(None, None)
    {
      name := None;
      updateOrder := None;
    }

    function Value(): UpdateSpec
      reads this
    {
      UpdateSpec(name, updateOrder)
    }

    method SetName(n: Option<string>)
      modifies this
      ensures Value() == UpdateSpec(n, old(updateOrder))
    {
      name := n;
    }

    /** `UpdateRecipeList.setUpdateOrderRaw`: a fresh order object, or absent for null. */
    method SetUpdateOrderRaw(raw: Option<seq<Yaml>>)
      modifies this
      ensures Value() == UpdateSpec(old(name), OrderOf(raw))
    {
      if raw.None? {
        updateOrder := None;
        return;
      }
      var order := new UpdateOrder();
      order.SetUpdateOrderRaw(raw);
      updateOrder := Some(order.Value());
    }
  }

  /** The YAML `first: [A, B]` gives two single-name entries, in order. */
  lemma TwoNamesGiveTwoEntries(a: string, b: string)
    ensures EntryListOf(Seq([Str(a), Str(b)])) ==
      [Entry(None, Some([Str(a)])), Entry(None, Some([Str(b)]))]
  {
  }
}
