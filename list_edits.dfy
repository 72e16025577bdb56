/**
 * What the recipe-list editor does to one `recipeList`, stated as values:
 * the four insertion modes (`first`, `last`, `before`, `after`), the
 * duplicate checks they make, and the point at which a bad value throws.
 *
 * A value in an edit is a raw YAML element that the source reads as a
 * `String`.  A non-string element fails that cast; a null element makes the
 * duplicate check call `equals` on null as soon as the list it scans is
 * non-empty.  Either way the exception ends the whole run, and an `Outcome`
 * with `ok == false` records the list as it was at that moment.
 */
module ListEdits {
  import opened Wrappers
  import opened YamlValues
  import opened Recipes
  import opened UpdateOrders
  import opened RecipeDefinitions

  datatype Outcome = Outcome(list: seq<Recipe>, ok: bool)

  /** Some entry of `l` is named `n`. */
  predicate Has(l: seq<Recipe>, n: string) {
    exists i :: 0 <= i < |l| && l[i].name == Some(n)
  }

  /** `findRecipeIndex`: the first position named `n`, or -1. */
  function IndexOf(l: seq<Recipe>, n: string): (r: int)
    ensures -1 <= r < |l|
    ensures r == -1 <==> !Has(l, n)
    ensures r >= 0 ==> l[r].name == Some(n) && forall j :: 0 <= j < r ==> l[j].name != Some(n)
    decreases |l|
  {
    if l == [] then -1
    else if l[0].name == Some(n) then 0
    else
      var k := IndexOf(l[1..], n);
      if k < 0 then -1
      else
        assert forall j :: 1 <= j < k + 1 ==> l[j] == l[1..][j - 1];
        k + 1
  }

  /** The verdict of the duplicate check on one raw value against list `cur`. */
  datatype Check = Throws | Present | Insert(entry: Recipe)

  function CheckValue(cur: seq<Recipe>, v: Yaml): (c: Check)
    ensures c.Insert? ==> c.entry.attributes == []
    ensures c.Insert? ==> forall i :: 0 <= i < |cur| ==> cur[i].name != c.entry.name
  {
    match v
    case Str(n) => if Has(cur, n) then Present else Insert(Named(Some(n)))
    case Null => if cur == [] then Insert(Named(None)) else Throws
    case _ => Throws
  }

  // ---------------------------------------------------------------------
  // The four modes

  /**
   * The new entries `addRecipesToFirst` collects: every value is checked
   * against the list as it was BEFORE the call, never against the batch.
   */
  function FirstBatch(base: seq<Recipe>, vs: seq<Yaml>): (r: Option<seq<Recipe>>)
    ensures r.Some? ==> forall i :: 0 <= i < |r.value| ==> r.value[i].attributes == []
    decreases |vs|
  {
    if vs == [] then Some([])
    else
      var prev := FirstBatch(base, vs[..|vs| - 1]);
      var c := CheckValue(base, vs[|vs| - 1]);
      if prev.None? || c.Throws? then None
      else if c.Insert? then Some(prev.value + [c.entry])
      else prev
  }

  /** `addRecipesToFirst`: the batch goes in front, or nothing changes if a value throws. */
  function AddFirst(l: seq<Recipe>, vs: seq<Yaml>): Outcome {
    var b := FirstBatch(l, vs);
    if b.None? then Outcome(l, false) else Outcome(b.value + l, true)
  }

  /** One value of `addRecipesToLast`, checked against the live list. */
  function AppendStep(cur: seq<Recipe>, v: Yaml): Outcome {
    match CheckValue(cur, v)
    case Throws => Outcome(cur, false)
    case Present => Outcome(cur, true)
    case Insert(r) => Outcome(cur + [r], true)
  }

  /** `addRecipesToLast`: values appended one by one; a throw keeps what was appended. */
  function AddLast(l: seq<Recipe>, vs: seq<Yaml>): (r: Outcome)
    ensures |r.list| >= |l|
    decreases |vs|
  {
    if vs == [] then Outcome(l, true)
    else
      var prev := AddLast(l, vs[..|vs| - 1]);
      if !prev.ok then prev else AppendStep(prev.list, vs[|vs| - 1])
  }

  function InsertAt(cur: seq<Recipe>, at: nat, r: Recipe): (m: seq<Recipe>)
    requires at <= |cur|
    ensures |m| == |cur| + 1
  {
    cur[..at] + [r] + cur[at..]
  }

  /** One value inserted at a fixed index, checked against the live list. */
  function InsertStep(cur: seq<Recipe>, at: nat, v: Yaml): (r: Outcome)
    requires at <= |cur|
    ensures |r.list| >= |cur|
  {
    match CheckValue(cur, v)
    case Throws => Outcome(cur, false)
    case Present => Outcome(cur, true)
    case Insert(e) => Outcome(InsertAt(cur, at, e), true)
  }

  /**
   * The reverse loop of `addRecipesBefore`: the LAST value is inserted at
   * `at` first, then each earlier value at the same index, in front of it.
   */
  function BeforeFold(l: seq<Recipe>, at: nat, vs: seq<Yaml>): (r: Outcome)
    requires at <= |l|
    ensures |r.list| >= |l|
    decreases |vs|
  {
    if vs == [] then Outcome(l, true)
    else
      var prev := BeforeFold(l, at, vs[1..]);
      if !prev.ok then prev else InsertStep(prev.list, at, vs[0])
  }

  /** `addRecipesBefore`: a missing anchor changes nothing. */
  function AddBefore(l: seq<Recipe>, anchor: string, vs: seq<Yaml>): Outcome {
    var idx := IndexOf(l, anchor);
    if idx < 0 then Outcome(l, true) else BeforeFold(l, idx, vs)
  }

  /** The state of the `addRecipesAfter` loop: the list so far and the insertion cursor. */
  datatype Cursor = Cursor(out: Outcome, at: nat)

  /** The forward loop of `addRecipesAfter`: each inserted value advances the cursor. */
  function AfterFold(l: seq<Recipe>, at: nat, vs: seq<Yaml>): (r: Cursor)
    requires at <= |l|
    ensures r.at <= |r.out.list| && |r.out.list| >= |l|
    decreases |vs|
  {
    if vs == [] then Cursor(Outcome(l, true), at)
    else
      var prev := AfterFold(l, at, vs[..|vs| - 1]);
      if !prev.out.ok then prev
      else match CheckValue(prev.out.list, vs[|vs| - 1])
        case Throws => Cursor(Outcome(prev.out.list, false), prev.at)
        case Present => prev
        case Insert(e) => Cursor(Outcome(InsertAt(prev.out.list, prev.at, e), true), prev.at + 1)
  }

  /** `addRecipesAfter`: a missing anchor changes nothing. */
  function AddAfter(l: seq<Recipe>, anchor: string, vs: seq<Yaml>): Outcome {
    var idx := IndexOf(l, anchor);
    if idx < 0 then Outcome(l, true) else AfterFold(l, idx + 1, vs).out
  }

  // ---------------------------------------------------------------------
  // Sections and the whole order

  datatype Mode = First | Last | Before | After

  /** One `UpdateEntry` of a section; before/after skip entries without a key. */
  function ApplyEntry(l: seq<Recipe>, mode: Mode, e: Entry): Outcome {
    match mode
    case First => if e.values.Some? then AddFirst(l, e.values.value) else Outcome(l, true)
    case Last => if e.values.Some? then AddLast(l, e.values.value) else Outcome(l, true)
    case Before =>
      if e.key.Some? && e.values.Some? then AddBefore(l, e.key.value, e.values.value) else Outcome(l, true)
    case After =>
      if e.key.Some? && e.values.Some? then AddAfter(l, e.key.value, e.values.value) else Outcome(l, true)
  }

  /** A section's entries in order, stopping at the first throw. */
  function ApplySection(l: seq<Recipe>, mode: Mode, es: seq<Entry>): Outcome
    decreases |es|
  {
    if es == [] then Outcome(l, true)
    else
      var prev := ApplySection(l, mode, es[..|es| - 1]);
      if !prev.ok then prev else ApplyEntry(prev.list, mode, es[|es| - 1])
  }

  /** An absent section does nothing. */
  function ApplyOptSection(l: seq<Recipe>, mode: Mode, es: Option<seq<Entry>>): Outcome {
    if es.None? then Outcome(l, true) else ApplySection(l, mode, es.value)
  }

  /** The fixed order of `updateRecipeList`: first, then last, then before, then after. */
  function ApplyOrder(l: seq<Recipe>, o: Order): Outcome {
    var o1 := ApplyOptSection(l, First, o.first);
    if !o1.ok then o1
    else
      var o2 := ApplyOptSection(o1.list, Last, o.last);
      if !o2.ok then o2
      else
        var o3 := ApplyOptSection(o2.list, Before, o.before);
        if !o3.ok then o3
        else ApplyOptSection(o3.list, After, o.after)
  }

  // ---------------------------------------------------------------------
  // Edits only insert

  /**
   * `m` is `l` with entries inserted, each without attributes: nothing of
   * `l` is removed, changed or reordered.
   */
  predicate Extends(l: seq<Recipe>, m: seq<Recipe>)
    decreases |m|
  {
    if m == [] then l == []
    else
      (l != [] && l[0] == m[0] && Extends(l[1..], m[1..])) ||
      (m[0].attributes == [] && Extends(l, m[1..]))
  }

  lemma {:induction false} ExtendsRefl(l: seq<Recipe>)
    ensures Extends(l, l)
    decreases |l|
  {
    if l != [] {
      ExtendsRefl(l[1..]);
    }
  }

  lemma {:induction false} ExtendsInsert(l: seq<Recipe>, m: seq<Recipe>, at: nat, r: Recipe)
    requires Extends(l, m) && at <= |m| && r.attributes == []
    ensures Extends(l, InsertAt(m, at, r))
    decreases |m|
  {
    var m' := InsertAt(m, at, r);
    if at == 0 {
      assert m'[1..] == m;
    } else {
      assert m'[0] == m[0];
      assert m'[1..] == InsertAt(m[1..], at - 1, r);
      if l != [] && l[0] == m[0] && Extends(l[1..], m[1..]) {
        ExtendsInsert(l[1..], m[1..], at - 1, r);
      } else {
        ExtendsInsert(l, m[1..], at - 1, r);
      }
    }
  }

  lemma {:induction false} ExtendsPrepend(l: seq<Recipe>, m: seq<Recipe>, b: seq<Recipe>)
    requires Extends(l, m)
    requires forall i :: 0 <= i < |b| ==> b[i].attributes == []
    ensures Extends(l, b + m)
    decreases |b|
  {
    if b != [] {
      ExtendsPrepend(l, m, b[1..]);
      ExtendsInsert(l, b[1..] + m, 0, b[0]);
      assert InsertAt(b[1..] + m, 0, b[0]) == [b[0]] + (b[1..] + m) == b + m;
    } else {
      assert b + m == m;
    }
  }

  lemma {:induction false} AddLastExtends(l0: seq<Recipe>, l: seq<Recipe>, vs: seq<Yaml>)
    requires Extends(l0, l)
    ensures Extends(l0, AddLast(l, vs).list)
    decreases |vs|
  {
    if vs != [] {
      var prev := AddLast(l, vs[..|vs| - 1]);
      AddLastExtends(l0, l, vs[..|vs| - 1]);
      if prev.ok {
        var c := CheckValue(prev.list, vs[|vs| - 1]);
        if c.Insert? {
          ExtendsInsert(l0, prev.list, |prev.list|, c.entry);
          assert InsertAt(prev.list, |prev.list|, c.entry) == prev.list + [c.entry];
        }
      }
    }
  }

  lemma {:induction false} BeforeFoldExtends(l0: seq<Recipe>, l: seq<Recipe>, at: nat, vs: seq<Yaml>)
    requires Extends(l0, l) && at <= |l|
    ensures Extends(l0, BeforeFold(l, at, vs).list)
    decreases |vs|
  {
    if vs != [] {
      var prev := BeforeFold(l, at, vs[1..]);
      BeforeFoldExtends(l0, l, at, vs[1..]);
      if prev.ok {
        var c := CheckValue(prev.list, vs[0]);
        if c.Insert? {
          ExtendsInsert(l0, prev.list, at, c.entry);
        }
      }
    }
  }

  lemma {:induction false} AfterFoldExtends(l0: seq<Recipe>, l: seq<Recipe>, at: nat, vs: seq<Yaml>)
    requires Extends(l0, l) && at <= |l|
    ensures Extends(l0, AfterFold(l, at, vs).out.list)
    decreases |vs|
  {
    if vs != [] {
      var prev := AfterFold(l, at, vs[..|vs| - 1]);
      AfterFoldExtends(l0, l, at, vs[..|vs| - 1]);
      if prev.out.ok {
        var c := CheckValue(prev.out.list, vs[|vs| - 1]);
        if c.Insert? {
          ExtendsInsert(l0, prev.out.list, prev.at, c.entry);
        }
      }
    }
  }

  lemma ApplyEntryExtends(l0: seq<Recipe>, l: seq<Recipe>, mode: Mode, e: Entry)
    requires Extends(l0, l)
    ensures Extends(l0, ApplyEntry(l, mode, e).list)
  {
    match mode
    case First =>
      if e.values.Some? && FirstBatch(l, e.values.value).Some? {
        ExtendsPrepend(l0, l, FirstBatch(l, e.values.value).value);
      }
    case Last =>
      if e.values.Some? {
        AddLastExtends(l0, l, e.values.value);
      }
    case Before =>
      if e.key.Some? && e.values.Some? && IndexOf(l, e.key.value) >= 0 {
        BeforeFoldExtends(l0, l, IndexOf(l, e.key.value), e.values.value);
      }
    case After =>
      if e.key.Some? && e.values.Some? && IndexOf(l, e.key.value) >= 0 {
        AfterFoldExtends(l0, l, IndexOf(l, e.key.value) + 1, e.values.value);
      }
  }

  lemma {:induction false} ApplySectionExtends(l0: seq<Recipe>, l: seq<Recipe>, mode: Mode, es: seq<Entry>)
    requires Extends(l0, l)
    ensures Extends(l0, ApplySection(l, mode, es).list)
    decreases |es|
  {
    if es != [] {
      var prev := ApplySection(l, mode, es[..|es| - 1]);
      ApplySectionExtends(l0, l, mode, es[..|es| - 1]);
      if prev.ok {
        ApplyEntryExtends(l0, prev.list, mode, es[|es| - 1]);
      }
    }
  }

  lemma ApplyOptSectionExtends(l0: seq<Recipe>, l: seq<Recipe>, mode: Mode, es: Option<seq<Entry>>)
    requires Extends(l0, l)
    ensures Extends(l0, ApplyOptSection(l, mode, es).list)
  {
    if es.Some? {
      ApplySectionExtends(l0, l, mode, es.value);
    }
  }

  /**
   * A whole `updateOrder`, even one cut short by a throw, only inserts
   * entries without attributes: every existing entry stays, in order.
   */
  lemma ApplyOrderOnlyInserts(l: seq<Recipe>, o: Order)
    ensures Extends(l, ApplyOrder(l, o).list)
  {
    ExtendsRefl(l);
    var o1 := ApplyOptSection(l, First, o.first);
    ApplyOptSectionExtends(l, l, First, o.first);
    if o1.ok {
      var o2 := ApplyOptSection(o1.list, Last, o.last);
      ApplyOptSectionExtends(l, o1.list, Last, o.last);
      if o2.ok {
        var o3 := ApplyOptSection(o2.list, Before, o.before);
        ApplyOptSectionExtends(l, o2.list, Before, o.before);
        if o3.ok {
          ApplyOptSectionExtends(l, o3.list, After, o.after);
        }
      }
    }
  }

  /** `f` maps each position of `l` to a position of `m` holding the same entry, increasingly. */
  predicate Embeds(l: seq<Recipe>, m: seq<Recipe>, f: seq<nat>) {
    |f| == |l| &&
    (forall i :: 0 <= i < |l| ==> f[i] < |m| && m[f[i]] == l[i]) &&
    (forall i, j :: 0 <= i < j < |l| ==> f[i] < f[j])
  }

  function Shift(g: seq<nat>): (f: seq<nat>)
    ensures |f| == |g| && forall k :: 0 <= k < |g| ==> f[k] == g[k] + 1
  {
    seq(|g|, k requires 0 <= k < |g| => g[k] + 1)
  }

  lemma EmbedsSkip(l: seq<Recipe>, m: seq<Recipe>, g: seq<nat>)
    requires m != [] && Embeds(l, m[1..], g)
    ensures Embeds(l, m, Shift(g))
  {
    assert forall i :: 0 <= i < |l| ==> m[Shift(g)[i]] == m[1..][g[i]];
  }

  lemma EmbedsKeep(l: seq<Recipe>, m: seq<Recipe>, g: seq<nat>)
    requires l != [] && m != [] && l[0] == m[0] && Embeds(l[1..], m[1..], g)
    ensures Embeds(l, m, [0] + Shift(g))
  {
    var f := [0] + Shift(g);
    forall i | 0 <= i < |l|
      ensures f[i] < |m| && m[f[i]] == l[i]
    {
      if i > 0 {
        assert f[i] == g[i - 1] + 1;
        assert m[f[i]] == m[1..][g[i - 1]];
        assert l[i] == l[1..][i - 1];
      }
    }
    forall i, j | 0 <= i < j < |l|
      ensures f[i] < f[j]
    {
      assert f[j] == g[j - 1] + 1;
      if i > 0 {
        assert f[i] == g[i - 1] + 1;
      }
    }
  }

  /** An extension keeps every original entry, in the original order. */
  lemma {:induction false} ExtendsKeepsOrder(l: seq<Recipe>, m: seq<Recipe>) returns (f: seq<nat>)
    requires Extends(l, m)
    ensures Embeds(l, m, f)
    decreases |m|
  {
    if m == [] {
      f := [];
    } else if l != [] && l[0] == m[0] && Extends(l[1..], m[1..]) {
      var g := ExtendsKeepsOrder(l[1..], m[1..]);
      EmbedsKeep(l, m, g);
      f := [0] + Shift(g);
    } else {
      var g := ExtendsKeepsOrder(l, m[1..]);
      EmbedsSkip(l, m, g);
      f := Shift(g);
    }
  }

  // ---------------------------------------------------------------------
  // Distinct names

  /** No two entries share a name (two null names count as equal). */
  predicate UniqueNames(l: seq<Recipe>) {
    forall i, j :: 0 <= i < j < |l| ==> l[i].name != l[j].name
  }

  lemma UniqueInsert(cur: seq<Recipe>, at: nat, r: Recipe)
    requires UniqueNames(cur) && at <= |cur|
    requires forall i :: 0 <= i < |cur| ==> cur[i].name != r.name
    ensures UniqueNames(InsertAt(cur, at, r))
  {
    var m := InsertAt(cur, at, r);
    assert forall i :: 0 <= i < at ==> m[i] == cur[i];
    assert m[at] == r;
    assert forall i :: at < i < |m| ==> m[i] == cur[i - 1];
  }

  lemma {:induction false} AddLastUnique(l: seq<Recipe>, vs: seq<Yaml>)
    requires UniqueNames(l)
    ensures UniqueNames(AddLast(l, vs).list)
    decreases |vs|
  {
    if vs != [] {
      var prev := AddLast(l, vs[..|vs| - 1]);
      AddLastUnique(l, vs[..|vs| - 1]);
      if prev.ok {
        var c := CheckValue(prev.list, vs[|vs| - 1]);
        if c.Insert? {
          UniqueInsert(prev.list, |prev.list|, c.entry);
          assert InsertAt(prev.list, |prev.list|, c.entry) == prev.list + [c.entry];
        }
      }
    }
  }

  lemma {:induction false} BeforeFoldUnique(l: seq<Recipe>, at: nat, vs: seq<Yaml>)
    requires UniqueNames(l) && at <= |l|
    ensures UniqueNames(BeforeFold(l, at, vs).list)
    decreases |vs|
  {
    if vs != [] {
      var prev := BeforeFold(l, at, vs[1..]);
      BeforeFoldUnique(l, at, vs[1..]);
      if prev.ok {
        var c := CheckValue(prev.list, vs[0]);
        if c.Insert? {
          UniqueInsert(prev.list, at, c.entry);
        }
      }
    }
  }

  lemma {:induction false} AfterFoldUnique(l: seq<Recipe>, at: nat, vs: seq<Yaml>)
    requires UniqueNames(l) && at <= |l|
    ensures UniqueNames(AfterFold(l, at, vs).out.list)
    decreases |vs|
  {
    if vs != [] {
      var prev := AfterFold(l, at, vs[..|vs| - 1]);
      AfterFoldUnique(l, at, vs[..|vs| - 1]);
      if prev.out.ok {
        var c := CheckValue(prev.out.list, vs[|vs| - 1]);
        if c.Insert? {
          UniqueInsert(prev.out.list, prev.at, c.entry);
        }
      }
    }
  }

  /** `last`, `before` and `after` never introduce a repeated name. */
  lemma LiveCheckedModesKeepNamesUnique(l: seq<Recipe>, anchor: string, vs: seq<Yaml>)
    requires UniqueNames(l)
    ensures UniqueNames(AddLast(l, vs).list)
    ensures UniqueNames(AddBefore(l, anchor, vs).list)
    ensures UniqueNames(AddAfter(l, anchor, vs).list)
  {
    AddLastUnique(l, vs);
    if IndexOf(l, anchor) >= 0 {
      BeforeFoldUnique(l, IndexOf(l, anchor), vs);
      AfterFoldUnique(l, IndexOf(l, anchor) + 1, vs);
    }
  }

  /**
   * `first` checks only the list as it was before the call, so a name
   * repeated inside one entry is inserted twice.
   */
  lemma FirstRepeatsDuplicate(l: seq<Recipe>, n: string)
    requires !Has(l, n)
    ensures AddFirst(l, [Str(n), Str(n)]) == Outcome([Named(Some(n)), Named(Some(n))] + l, true)
    ensures !UniqueNames(AddFirst(l, [Str(n), Str(n)]).list)
  {
    var vs := [Str(n), Str(n)];
    assert vs[..1] == [Str(n)];
    assert vs[..1][..0] == [];
    AddFirstSplices(l, vs);
    assert vs[1..] == [Str(n)];
    AcceptedSingle(l, Str(n));
    assert Accepted(l, vs) == [Named(Some(n))] + Accepted(l, [Str(n)]);
    var out := AddFirst(l, vs).list;
    assert out[0].name == out[1].name;
  }

  // ---------------------------------------------------------------------
  // Exact results for a batch of distinct names

  predicate AllStrings(vs: seq<Yaml>) {
    forall i :: 0 <= i < |vs| ==> vs[i].Str?
  }

  predicate DistinctStrings(vs: seq<Yaml>) {
    AllStrings(vs) && forall i, j :: 0 <= i < j < |vs| ==> vs[i] != vs[j]
  }

  /** The entry one value contributes when its name is not in `l`. */
  function Fresh(l: seq<Recipe>, v: Yaml): (r: seq<Recipe>)
    ensures forall i :: 0 <= i < |r| ==> r[i].attributes == [] && r[i].name.Some?
  {
    if v.Str? && !Has(l, v.s) then [Named(Some(v.s))] else []
  }

  /** The entries for the values whose names are not in `l`, in order. */
  function Accepted(l: seq<Recipe>, vs: seq<Yaml>): (r: seq<Recipe>)
    ensures forall i :: 0 <= i < |r| ==> r[i].attributes == [] && r[i].name.Some?
    decreases |vs|
  {
    if vs == [] then [] else Fresh(l, vs[0]) + Accepted(l, vs[1..])
  }

  lemma AcceptedSingle(l: seq<Recipe>, v: Yaml)
    ensures Accepted(l, [v]) == Fresh(l, v)
  {
    assert [v][1..] == [];
  }

  lemma {:induction false} AcceptedAppend(l: seq<Recipe>, a: seq<Yaml>, b: seq<Yaml>)
    ensures Accepted(l, a + b) == Accepted(l, a) + Accepted(l, b)
    decreases |a|
  {
    if a == [] {
      assert a + b == b;
    } else {
      assert (a + b)[0] == a[0];
      assert (a + b)[1..] == a[1..] + b;
      AcceptedAppend(l, a[1..], b);
    }
  }

  /** Only names taken from the batch are accepted. */
  lemma {:induction false} AcceptedFromBatch(l: seq<Recipe>, vs: seq<Yaml>, n: string)
    requires Has(Accepted(l, vs), n)
    ensures Str(n) in vs
    decreases |vs|
  {
    var r := Accepted(l, vs);
    var head := Fresh(l, vs[0]);
    assert r == head + Accepted(l, vs[1..]);
    var i :| 0 <= i < |r| && r[i].name == Some(n);
    if i < |head| {
      assert vs[0] == Str(n);
    } else {
      assert Accepted(l, vs[1..])[i - |head|].name == Some(n);
      AcceptedFromBatch(l, vs[1..], n);
    }
  }

  lemma HasConcat(a: seq<Recipe>, b: seq<Recipe>, n: string)
    ensures Has(a + b, n) <==> Has(a, n) || Has(b, n)
  {
    if Has(a + b, n) {
      var i :| 0 <= i < |a + b| && (a + b)[i].name == Some(n);
      if i >= |a| {
        assert b[i - |a|].name == Some(n);
      }
    }
    if Has(a, n) {
      var i :| 0 <= i < |a| && a[i].name == Some(n);
      assert (a + b)[i].name == Some(n);
    }
    if Has(b, n) {
      var i :| 0 <= i < |b| && b[i].name == Some(n);
      assert (a + b)[|a| + i].name == Some(n);
    }
  }

  /** Splitting `l` at `at` and putting `acc` in between adds exactly the names of `acc`. */
  lemma HasSplice(l: seq<Recipe>, at: nat, acc: seq<Recipe>, n: string)
    requires at <= |l|
    ensures Has(l[..at] + acc + l[at..], n) <==> Has(l, n) || Has(acc, n)
  {
    HasConcat(l[..at] + acc, l[at..], n);
    HasConcat(l[..at], acc, n);
    HasConcat(l[..at], l[at..], n);
    assert l[..at] + l[at..] == l;
  }

  /** In a distinct batch, the head's name is not accepted from the tail. */
  lemma HeadNotInTail(l: seq<Recipe>, vs: seq<Yaml>)
    requires DistinctStrings(vs) && vs != []
    ensures DistinctStrings(vs[1..])
    ensures !Has(Accepted(l, vs[1..]), vs[0].s)
  {
    assert forall i :: 0 <= i < |vs[1..]| ==> vs[1..][i] == vs[i + 1];
    if Has(Accepted(l, vs[1..]), vs[0].s) {
      AcceptedFromBatch(l, vs[1..], vs[0].s);
    }
  }

  /** In a distinct batch, the last name is not accepted from the rest. */
  lemma LastNotInInit(l: seq<Recipe>, vs: seq<Yaml>)
    requires DistinctStrings(vs) && vs != []
    ensures DistinctStrings(vs[..|vs| - 1])
    ensures !Has(Accepted(l, vs[..|vs| - 1]), vs[|vs| - 1].s)
  {
    if Has(Accepted(l, vs[..|vs| - 1]), vs[|vs| - 1].s) {
      AcceptedFromBatch(l, vs[..|vs| - 1], vs[|vs| - 1].s);
    }
  }

  /** Whatever the batch, `first` puts exactly the accepted entries in front. */
  lemma {:induction false} FirstBatchIsAccepted(l: seq<Recipe>, vs: seq<Yaml>)
    requires AllStrings(vs)
    ensures FirstBatch(l, vs) == Some(Accepted(l, vs))
    decreases |vs|
  {
    if vs != [] {
      var init := vs[..|vs| - 1];
      var v := vs[|vs| - 1];
      FirstBatchIsAccepted(l, init);
      AcceptedAppend(l, init, [v]);
      AcceptedSingle(l, v);
      assert init + [v] == vs;
      if Has(l, v.s) {
        assert CheckValue(l, v) == Present;
        assert Fresh(l, v) == [];
        assert Accepted(l, vs) == Accepted(l, init) + [];
        assert FirstBatch(l, vs) == FirstBatch(l, init);
        assert Accepted(l, init) + [] == Accepted(l, init);
      }
    }
  }

  /** `first` with string values: `Accepted(l, vs) + l`. */
  lemma AddFirstSplices(l: seq<Recipe>, vs: seq<Yaml>)
    requires AllStrings(vs)
    ensures AddFirst(l, vs) == Outcome(Accepted(l, vs) + l, true)
  {
    FirstBatchIsAccepted(l, vs);
  }

  /** `last` with distinct string values: `l + Accepted(l, vs)`. */
  lemma {:induction false} AddLastSplices(l: seq<Recipe>, vs: seq<Yaml>)
    requires DistinctStrings(vs)
    ensures AddLast(l, vs) == Outcome(l + Accepted(l, vs), true)
    decreases |vs|
  {
    if vs != [] {
      var init := vs[..|vs| - 1];
      var v := vs[|vs| - 1];
      LastNotInInit(l, vs);
      AddLastSplices(l, init);
      AcceptedAppend(l, init, [v]);
      AcceptedSingle(l, v);
      assert init + [v] == vs;
      HasConcat(l, Accepted(l, init), v.s);
    }
  }

  /** One step of the reverse loop: a fresh name lands at `at`, in front of what came before. */
  lemma InsertStepSplices(l: seq<Recipe>, at: nat, acc: seq<Recipe>, n: string)
    requires at <= |l| && !Has(acc, n)
    ensures InsertStep(l[..at] + acc + l[at..], at, Str(n)) ==
      Outcome(l[..at] + (Fresh(l, Str(n)) + acc) + l[at..], true)
  {
    var cur := l[..at] + acc + l[at..];
    HasSplice(l, at, acc, n);
    if !Has(l, n) {
      assert cur[..at] == l[..at];
      assert cur[at..] == acc + l[at..];
    }
  }

  /** `before` with distinct string values: the accepted entries sit right before index `at`. */
  lemma {:induction false} BeforeFoldSplices(l: seq<Recipe>, at: nat, vs: seq<Yaml>)
    requires DistinctStrings(vs) && at <= |l|
    ensures BeforeFold(l, at, vs) == Outcome(l[..at] + Accepted(l, vs) + l[at..], true)
    decreases |vs|
  {
    if vs == [] {
      assert l[..at] + [] + l[at..] == l;
    } else {
      HeadNotInTail(l, vs);
      BeforeFoldSplices(l, at, vs[1..]);
      InsertStepSplices(l, at, Accepted(l, vs[1..]), vs[0].s);
    }
  }

  /** One step of the forward loop: a fresh name lands at the cursor, behind what came before. */
  lemma CursorStepSplices(l: seq<Recipe>, at: nat, acc: seq<Recipe>, n: string)
    requires at <= |l| && !Has(acc, n)
    ensures var cur := l[..at] + acc + l[at..];
      match CheckValue(cur, Str(n))
      case Insert(e) =>
        !Has(l, n) && InsertAt(cur, at + |acc|, e) == l[..at] + (acc + Fresh(l, Str(n))) + l[at..]
      case Present => Has(l, n)
      case Throws => false
  {
    var cur := l[..at] + acc + l[at..];
    HasSplice(l, at, acc, n);
    if !Has(l, n) {
      var p := at + |acc|;
      assert cur[..p] == l[..at] + acc;
      assert cur[p..] == l[at..];
    }
  }

  /** `after` with distinct string values: the accepted entries sit right from index `at` on. */
  lemma {:induction false} AfterFoldSplices(l: seq<Recipe>, at: nat, vs: seq<Yaml>)
    requires DistinctStrings(vs) && at <= |l|
    ensures AfterFold(l, at, vs) ==
      Cursor(Outcome(l[..at] + Accepted(l, vs) + l[at..], true), at + |Accepted(l, vs)|)
    decreases |vs|
  {
    if vs == [] {
      assert l[..at] + [] + l[at..] == l;
    } else {
      var init := vs[..|vs| - 1];
      var v := vs[|vs| - 1];
      LastNotInInit(l, vs);
      AfterFoldSplices(l, at, init);
      AcceptedAppend(l, init, [v]);
      AcceptedSingle(l, v);
      assert init + [v] == vs;
      CursorStepSplices(l, at, Accepted(l, init), v.s);
    }
  }

  /** With the anchor at `idx`, `before` places the accepted entries immediately in front of it. */
  lemma AddBeforeSplices(l: seq<Recipe>, anchor: string, vs: seq<Yaml>)
    requires DistinctStrings(vs)
    ensures IndexOf(l, anchor) < 0 ==> AddBefore(l, anchor, vs) == Outcome(l, true)
    ensures IndexOf(l, anchor) >= 0 ==>
      var idx := IndexOf(l, anchor);
      AddBefore(l, anchor, vs) == Outcome(l[..idx] + Accepted(l, vs) + l[idx..], true)
  {
    if IndexOf(l, anchor) >= 0 {
      BeforeFoldSplices(l, IndexOf(l, anchor), vs);
    }
  }

  /** With the anchor at `idx`, `after` places the accepted entries immediately behind it. */
  lemma AddAfterSplices(l: seq<Recipe>, anchor: string, vs: seq<Yaml>)
    requires DistinctStrings(vs)
    ensures IndexOf(l, anchor) < 0 ==> AddAfter(l, anchor, vs) == Outcome(l, true)
    ensures IndexOf(l, anchor) >= 0 ==>
      var idx := IndexOf(l, anchor);
      AddAfter(l, anchor, vs) == Outcome(l[..idx + 1] + Accepted(l, vs) + l[idx + 1..], true)
  {
    if IndexOf(l, anchor) >= 0 {
      AfterFoldSplices(l, IndexOf(l, anchor) + 1, vs);
    }
  }

  // ---------------------------------------------------------------------
  // The worked examples

  /**
   * YAML `first: [A, B]` is two single-value entries, each prepended in
   * turn, so B ends up in front of A.
   */
  lemma FirstSectionReversesEntries(l: seq<Recipe>, a: string, b: string)
    requires a != b && !Has(l, a) && !Has(l, b)
    ensures ApplySection(l, First, EntryListOf(Seq([Str(a), Str(b)]))) ==
      Outcome([Named(Some(b)), Named(Some(a))] + l, true)
  {
    var es := EntryListOf(Seq([Str(a), Str(b)]));
    assert es == [Entry(None, Some([Str(a)])), Entry(None, Some([Str(b)]))];
    assert es[..1] == [es[0]];
    assert es[..1][..0] == [];
    AddFirstSplices(l, [Str(a)]);
    var l1 := [Named(Some(a))] + l;
    assert ApplySection(l, First, es[..1]) == Outcome(l1, true);
    AddFirstSplices(l1, [Str(b)]);
    HasConcat([Named(Some(a))], l, b);
    assert !Has([Named(Some(a))], b);
    assert [Named(Some(b))] + l1 == [Named(Some(b)), Named(Some(a))] + l;
  }

  /** `first: [R1]` on `[R1, R2]` changes nothing: R1 is already there. */
  lemma FirstSkipsPresent(r1: string, r2: string)
    ensures AddFirst([Named(Some(r1)), Named(Some(r2))], [Str(r1)]) ==
      Outcome([Named(Some(r1)), Named(Some(r2))], true)
  {
    var l := [Named(Some(r1)), Named(Some(r2))];
    assert Has(l, r1) by { assert l[0].name == Some(r1); }
    assert [Str(r1)][..0] == [];
    assert FirstBatch(l, [Str(r1)]) == Some([]);
    assert [] + l == l;
  }

  /** `before R2: [R1.5]` on `[R1, R2]` gives `[R1, R1.5, R2]`. */
  lemma BeforeExample(r1: string, r15: string, r2: string)
    requires r1 != r2 && r15 != r1 && r15 != r2
    ensures AddBefore([Named(Some(r1)), Named(Some(r2))], r2, [Str(r15)]) ==
      Outcome([Named(Some(r1)), Named(Some(r15)), Named(Some(r2))], true)
  {
    var l := [Named(Some(r1)), Named(Some(r2))];
    assert IndexOf(l[1..], r2) == 0;
    assert IndexOf(l, r2) == 1;
    AddBeforeSplices(l, r2, [Str(r15)]);
    assert !Has(l, r15);
    assert [Str(r15)][1..] == [];
    assert Accepted(l, [Str(r15)]) == [Named(Some(r15))];
  }

  /** `after R1: [R1.5]` on `[R1, R2]` gives `[R1, R1.5, R2]` too. */
  lemma AfterExample(r1: string, r15: string, r2: string)
    requires r1 != r2 && r15 != r1 && r15 != r2
    ensures AddAfter([Named(Some(r1)), Named(Some(r2))], r1, [Str(r15)]) ==
      Outcome([Named(Some(r1)), Named(Some(r15)), Named(Some(r2))], true)
  {
    var l := [Named(Some(r1)), Named(Some(r2))];
    assert IndexOf(l, r1) == 0;
    AddAfterSplices(l, r1, [Str(r15)]);
    assert !Has(l, r15);
    assert [Str(r15)][1..] == [];
    assert Accepted(l, [Str(r15)]) == [Named(Some(r15))];
  }

  /** An anchor that is not in the list leaves it unchanged, for both modes. */
  lemma MissingAnchorNoChange(l: seq<Recipe>, anchor: string, vs: seq<Yaml>)
    requires !Has(l, anchor)
    ensures AddBefore(l, anchor, vs) == Outcome(l, true)
    ensures AddAfter(l, anchor, vs) == Outcome(l, true)
  {
  }

  /** A non-string value throws; the values before it in `last` stay appended. */
  lemma LastKeepsPrefixOnThrow(l: seq<Recipe>, n: string, bad: Yaml)
    requires !Has(l, n) && !bad.Str? && !bad.Null?
    ensures AddLast(l, [Str(n), bad]) == Outcome(l + [Named(Some(n))], false)
  {
    var vs := [Str(n), bad];
    assert vs[..1] == [Str(n)];
    assert vs[..1][..0] == [];
    var cur := l + [Named(Some(n))];
    assert AddLast(l, vs[..1]) == Outcome(cur, true);
    assert CheckValue(cur, bad) == Throws;
  }

  // ---------------------------------------------------------------------
  // A throw ends the loop: later values are never looked at

  lemma {:induction false} FirstBatchStops(l: seq<Recipe>, vs: seq<Yaml>, i: nat)
    requires i <= |vs| && FirstBatch(l, vs[..i]).None?
    ensures FirstBatch(l, vs).None?
    decreases |vs|
  {
    if i < |vs| {
      var init := vs[..|vs| - 1];
      assert init[..i] == vs[..i];
      FirstBatchStops(l, init, i);
    } else {
      assert vs[..i] == vs;
    }
  }

  lemma {:induction false} AddLastStops(l: seq<Recipe>, vs: seq<Yaml>, i: nat)
    requires i <= |vs| && !AddLast(l, vs[..i]).ok
    ensures AddLast(l, vs) == AddLast(l, vs[..i])
    decreases |vs|
  {
    if i < |vs| {
      var init := vs[..|vs| - 1];
      assert init[..i] == vs[..i];
      AddLastStops(l, init, i);
    } else {
      assert vs[..i] == vs;
    }
  }

  lemma {:induction false} BeforeFoldStops(l: seq<Recipe>, at: nat, vs: seq<Yaml>, i: nat)
    requires at <= |l| && i <= |vs| && !BeforeFold(l, at, vs[i..]).ok
    ensures BeforeFold(l, at, vs) == BeforeFold(l, at, vs[i..])
    decreases i
  {
    if i > 0 {
      assert vs[1..][i - 1..] == vs[i..];
      BeforeFoldStops(l, at, vs[1..], i - 1);
    } else {
      assert vs[0..] == vs;
    }
  }

  lemma {:induction false} AfterFoldStops(l: seq<Recipe>, at: nat, vs: seq<Yaml>, i: nat)
    requires at <= |l| && i <= |vs| && !AfterFold(l, at, vs[..i]).out.ok
    ensures AfterFold(l, at, vs) == AfterFold(l, at, vs[..i])
    decreases |vs|
  {
    if i < |vs| {
      var init := vs[..|vs| - 1];
      assert init[..i] == vs[..i];
      AfterFoldStops(l, at, init, i);
    } else {
      assert vs[..i] == vs;
    }
  }

  lemma {:induction false} ApplySectionStops(l: seq<Recipe>, mode: Mode, es: seq<Entry>, i: nat)
    requires i <= |es| && !ApplySection(l, mode, es[..i]).ok
    ensures ApplySection(l, mode, es) == ApplySection(l, mode, es[..i])
    decreases |es|
  {
    if i < |es| {
      var init := es[..|es| - 1];
      assert init[..i] == es[..i];
      ApplySectionStops(l, mode, init, i);
    } else {
      assert es[..i] == es;
    }
  }

  // ---------------------------------------------------------------------
  // The target definition

  /** `findRecipeByName`: the first definition named `name`, or -1. */
  function TargetIndex(ds: seq<Definition>, name: string): (r: int)
    ensures -1 <= r < |ds|
    ensures r == -1 <==> forall i :: 0 <= i < |ds| ==> ds[i].name != Some(name)
    ensures r >= 0 ==> ds[r].name == Some(name) && forall j :: 0 <= j < r ==> ds[j].name != Some(name)
    decreases |ds|
  {
    if ds == [] then -1
    else if ds[0].name == Some(name) then 0
    else
      var k := TargetIndex(ds[1..], name);
      assert forall j :: 1 <= j < |ds| ==> ds[j] == ds[1..][j - 1];
      if k < 0 then -1 else k + 1
  }

  datatype Edited = Edited(def: Definition, ok: bool)

  /**
   * What `updateRecipeList` does to the definition it found: a null
   * `recipeList` becomes empty, then the order (if any) is applied.
   * Only the recipe list changes, and it only gains entries.
   */
  function EditDefinition(d: Definition, o: Option<Order>): (r: Edited)
    ensures r.def == d.(recipeList := r.def.recipeList)
    ensures r.def.recipeList.Some? && Extends(d.recipeList.GetOr([]), r.def.recipeList.value)
    ensures o.None? ==> r == Edited(d.(recipeList := Some(d.recipeList.GetOr([]))), true)
  {
    var base := d.recipeList.GetOr([]);
    if o.None? then
      ExtendsRefl(base);
      Edited(d.(recipeList := Some(base)), true)
    else
      ApplyOrderOnlyInserts(base, o.value);
      var out := ApplyOrder(base, o.value);
      Edited(d.(recipeList := Some(out.list)), out.ok)
  }

  datatype Updated = Updated(defs: seq<Definition>, ok: bool)

  /** The index `updateRecipeList` edits: -1 when the name is null or matches nothing. */
  function UpdateTarget(ds: seq<Definition>, u: UpdateSpec): int {
    if u.name.None? then -1 else TargetIndex(ds, u.name.value)
  }

  /** `updateRecipeList` over definition values (each definition a distinct object). */
  function UpdateValues(ds: seq<Definition>, u: UpdateSpec): (r: Updated)
    ensures |r.defs| == |ds|
  {
    var t := UpdateTarget(ds, u);
    if t < 0 then Updated(ds, true)
    else
      var e := EditDefinition(ds[t], u.updateOrder);
      Updated(ds[t := e.def], e.ok)
  }

  /**
   * An update changes at most one definition — the first one carrying the
   * requested name — and in it only the recipe list, which only gains
   * entries.  A null name or a name nobody has changes nothing.
   */
  lemma UpdateTouchesOnlyTarget(ds: seq<Definition>, u: UpdateSpec)
    ensures var r := UpdateValues(ds, u);
      forall i :: 0 <= i < |ds| && r.defs[i] != ds[i] ==>
        u.name.Some? && ds[i].name == u.name &&
        (forall j :: 0 <= j < i ==> ds[j].name != u.name) &&
        r.defs[i] == ds[i].(recipeList := r.defs[i].recipeList) &&
        r.defs[i].recipeList.Some? &&
        Extends(ds[i].recipeList.GetOr([]), r.defs[i].recipeList.value)
    ensures u.name.None? ==> UpdateValues(ds, u) == Updated(ds, true)
    ensures u.name.Some? && (forall i :: 0 <= i < |ds| ==> ds[i].name != u.name) ==>
      UpdateValues(ds, u) == Updated(ds, true)
  {
  }

  /** Names never change, so updates cannot make a definition unreachable by name. */
  lemma UpdateKeepsNames(ds: seq<Definition>, u: UpdateSpec)
    ensures forall i :: 0 <= i < |ds| ==> UpdateValues(ds, u).defs[i].name == ds[i].name
  {
    UpdateTouchesOnlyTarget(ds, u);
  }
}
