/**
 * One entry of a recipe definition's `recipeList`: a recipe name plus its
 * configuration attributes.  In YAML an entry is either the bare name or a
 * one-key mapping from the name to the attribute mapping.
 */
module Recipes {
  import opened Wrappers
  import opened YamlValues

  /** `name` is None when the source leaves the field null. */
  datatype Recipe = Recipe(name: Option<string>, attributes: seq<(string, Yaml)>)

  /** `new Recipe(name)`: a named entry without configuration. */
  function Named(name: Option<string>): (r: Recipe)
    ensures r.name == name && r.attributes == []
  {
    Recipe(name, [])
  }

  /**
   * `Recipe.fromValue`: a fresh recipe (null name, no attributes) to which
   * `setValue` is applied.
   */
  function FromValue(v: Yaml): (r: Recipe)
    ensures v.Str? ==> r == Recipe(Some(v.s), [])
    ensures v.Map? && |v.entries| == 1 && v.entries[0].1.Map? ==>
      r == Recipe(Some(v.entries[0].0), v.entries[0].1.entries)
    ensures v.Map? && |v.entries| == 1 && !v.entries[0].1.Map? ==>
      r == Recipe(Some(v.entries[0].0), [])
    ensures r.name.Some? <==> v.Str? || (v.Map? && |v.entries| == 1)
    ensures r.name.None? ==> r.attributes == []
  {
    match v
    case Str(s) => Recipe(Some(s), [])
    case Map(es) =>
      if |es| == 1 then
        Recipe(Some(es[0].0), if es[0].1.Map? then es[0].1.entries else [])
      else Recipe(None, [])
    case _ => Recipe(None, [])
  }

  /**
   * Entries the serializer can write: a null name can only be written as a
   * bare (null) scalar, because a mapping with a null key is refused.
   */
  predicate Writable(r: Recipe) {
    r.name.Some? || r.attributes == []
  }

  /** `Recipe.toValue`: the bare name without attributes, else `{name: attributes}`. */
  function ToValue(r: Recipe): (v: Yaml)
    requires Writable(r)
    ensures r.attributes == [] <==> !v.Map?
    ensures r.attributes == [] && r.name.Some? ==> v == Str(r.name.value)
    ensures r.attributes == [] && r.name.None? ==> v == Null
    ensures r.attributes != [] ==> v == Map([(r.name.value, Map(r.attributes))])
  {
    if r.attributes == [] then
      (if r.name.Some? then Str(r.name.value) else Null)
    else Map([(r.name.value, Map(r.attributes))])
  }

  /** Decoding what `toValue` wrote gives back the same entry. */
  lemma FromValueToValue(r: Recipe)
    requires Writable(r)
    ensures FromValue(ToValue(r)) == r
  {
  }

  /**
   * The converse direction: the YAML shapes `toValue` can produce come back
   * unchanged from a decode followed by an encode.
   */
  lemma ToValueFromValue(v: Yaml)
    requires v.Str? || (v.Map? && |v.entries| == 1 && v.entries[0].1.Map? && v.entries[0].1.entries != [])
    ensures Writable(FromValue(v)) && ToValue(FromValue(v)) == v
  {
  }

  /** A bare string is an entry without attributes, and vice versa. */
  lemma BareIffNoAttributes(r: Recipe)
    requires r.name.Some?
    ensures ToValue(r).Str? <==> r.attributes == []
  {
  }

  /** Every decoded entry can be written again. */
  lemma DecodedIsWritable(v: Yaml)
    ensures Writable(FromValue(v))
  {
  }

  /** `Recipe.equals`: two entries are equal iff their names are (both null included). */
  predicate Equals(a: Recipe, b: Recipe): (r: bool)
    ensures a.name.None? ==> (r <==> b.name.None?)
    ensures a.name.Some? ==> (r <==> b.name.Some? && a.name.value == b.name.value)
  {
    a.name == b.name
  }

  const Two32: int := 0x1_0000_0000
  const Two31: int := 0x8000_0000

  /**
   * The UTF-16 code units of one character, as a Java `String` stores it: a
   * character above U+FFFF becomes its surrogate pair.
   */
  function Utf16(c: char): (u: seq<int>)
    ensures 1 <= |u| <= 2
    ensures forall i :: 0 <= i < |u| ==> 0 <= u[i] < 0x1_0000
    ensures |u| == 1 <==> (c as int) < 0x1_0000
    ensures |u| == 1 ==> u[0] == c as int
    ensures |u| == 2 ==> 0xD800 <= u[0] < 0xDC00 <= u[1] < 0xE000
    ensures |u| == 2 ==> (u[0] - 0xD800) * 0x400 + (u[1] - 0xDC00) + 0x1_0000 == c as int
  {
    var v := c as int;
    if v < 0x1_0000 then [v]
    else [0xD800 + (v - 0x1_0000) / 0x400, 0xDC00 + (v - 0x1_0000) % 0x400]
  }

  /** The code units `String.hashCode` reads, in order. */
  function Utf16Units(s: string): (u: seq<int>)
    ensures |s| <= |u| <= 2 * |s|
    ensures forall i :: 0 <= i < |u| ==> 0 <= u[i] < 0x1_0000
  {
    if s == [] then [] else Utf16Units(s[..|s| - 1]) + Utf16(s[|s| - 1])
  }

  /** The hash loop `h = 31 * h + unit` over code units, in 32-bit arithmetic. */
  function UnitsHash(u: seq<int>): (h: int)
    ensures 0 <= h < Two32
  {
    if u == [] then 0
    else (31 * UnitsHash(u[..|u| - 1]) + u[|u| - 1]) % Two32
  }

  /** Java `String.hashCode` before the final reinterpretation as a signed int. */
  function UnsignedHash(s: string): (h: int)
    ensures 0 <= h < Two32
  {
    UnitsHash(Utf16Units(s))
  }

  /** `String.hashCode`: `u[0]*31^(n-1) + ... + u[n-1]` over the UTF-16 units, in 32-bit two's complement. */
  function StringHash(s: string): (h: int)
    ensures -Two31 <= h < Two31
    ensures (h - UnsignedHash(s)) % Two32 == 0
  {
    var u := UnsignedHash(s);
    if u >= Two31 then u - Two32 else u
  }

  /** `Recipe.hashCode`: the name's hash, 0 for a null name. */
  function HashCode(r: Recipe): (h: int)
    ensures -Two31 <= h < Two31
    ensures r.name.None? ==> h == 0
  {
    if r.name.Some? then StringHash(r.name.value) else 0
  }

  /** Equal entries hash alike, whatever their attributes. */
  lemma EqualsConsistentWithHash(a: Recipe, b: Recipe)
    requires Equals(a, b)
    ensures HashCode(a) == HashCode(b)
  {
  }

  /** Attributes play no part in equality. */
  lemma EqualsIgnoresAttributes(n: Option<string>, a1: seq<(string, Yaml)>, a2: seq<(string, Yaml)>)
    ensures Equals(Recipe(n, a1), Recipe(n, a2))
    ensures HashCode(Recipe(n, a1)) == HashCode(Recipe(n, a2))
  {
  }

  lemma UnitsOfOneChar(c: char)
    ensures Utf16Units([c]) == Utf16(c)
  {
    assert [c][..0] == [];
  }

  lemma HashOfOneUnit(a: int)
    requires 0 <= a < 0x1_0000
    ensures UnitsHash([a]) == a
  {
    assert [a][..0] == [];
  }

  lemma HashOfTwoUnits(a: int, b: int)
    requires 0 <= a < 0x1_0000 && 0 <= b < 0x1_0000
    ensures UnitsHash([a, b]) == 31 * a + b
  {
    assert [a, b][..1] == [a];
    HashOfOneUnit(a);
  }

  /** The hash of a one-character string is that character's code, for a character up to U+FFFF. */
  lemma HashOfSingleChar(c: char)
    requires (c as int) < 0x1_0000
    ensures StringHash([c]) == c as int
  {
    UnitsOfOneChar(c);
    HashOfOneUnit(c as int);
  }

  /** A character above U+FFFF hashes as its surrogate pair: `31 * high + low`. */
  lemma HashOfSupplementaryChar(c: char)
    requires (c as int) >= 0x1_0000
    ensures StringHash([c]) == 31 * Utf16(c)[0] + Utf16(c)[1]
  {
    var u := Utf16(c);
    UnitsOfOneChar(c);
    assert u == [u[0], u[1]];
    HashOfTwoUnits(u[0], u[1]);
  }

  /** U+1F600 is stored as the pair D83D DE00, so its name hashes to 31 * 0xD83D + 0xDE00. */
  lemma EmojiNameHash()
    ensures StringHash("\U{1F600}") == 1772899
  {
    HashOfSupplementaryChar('\U{1F600}');
  }
}
