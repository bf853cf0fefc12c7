/** The item collections `render` walks (dist/mythix-ui-for-each.js lines
    213-251) and the per-item context it builds. */
module Items {

  /** The JavaScript values the renderer distinguishes. Values it only hands
      on (to the template, the `do` transform and the id hash) are opaque. */
  datatype Value =
    /** null, undefined, false, 0, NaN: every falsy value except "" */
    | Falsy
    /** any other value that is not a collection: a number, a function, ... */
    | Opaque(token: nat)
    | ArrayOf(elements: seq<Value>)
    | MapOf(pairs: seq<(Value, Value)>)
    | SetOf(members: seq<Value>)
    /** a string, as JavaScript holds it: a sequence of UTF-16 code units */
    | Str(units: seq<CodeUnit>)
    /** a plain object, with its own enumerable string-keyed properties */
    | ObjectOf(properties: seq<(string, Value)>)

  /** One UTF-16 code unit; a character outside the Basic Multilingual Plane
      is two of them (a surrogate pair). */
  newtype CodeUnit = x: int | 0 <= x < 0x1_0000

  datatype Key =
    | Index(i: nat)
    | PropertyName(name: string)
    | EntryKey(key: Value)

  /** The context of one item (line 236): the template, document and pool
      handles are not values and are left out. */
  datatype Context = Context(key: Key, item: Value, items: Value)

  /** `!items` is false. */
  predicate Truthy(v: Value)
  {
    !v.Falsy? && v != Str([])
  }

  /** Line 230: strings and Sets get 0-based keys. */
  predicate ForceNumberIndex(v: Value)
  {
    v.Str? || v.SetOf?
  }

  /* `Digit` and `Decimal` spell the keys `Object.entries` gives a string's
     positions; the render loop replaces them with 0, 1, 2, ... (lines
     233-234), so they are never seen by the template. */
  function Digit(d: nat): char
    requires d < 10
  {
    "0123456789"[d]
  }

  /** The decimal spelling of `n`, as `Object.entries` names string positions. */
  function Decimal(n: nat): string
  {
    if n < 10 then [Digit(n)] else Decimal(n / 10) + [Digit(n % 10)]
  }

  /** Lines 222-226: `items.entries()` where the value has one (arrays, Maps,
      Sets), `Object.entries(items)` otherwise (strings, plain objects; no
      entries for other values). */
  function NativeEntries(v: Value): (r: seq<(Key, Value)>)
    ensures v.ArrayOf? ==> |r| == |v.elements|
    ensures v.MapOf? ==> |r| == |v.pairs|
    ensures v.SetOf? ==> |r| == |v.members|
    ensures v.Str? ==> |r| == |v.units|
    ensures v.ObjectOf? ==> |r| == |v.properties|
    ensures v.Falsy? || v.Opaque? ==> r == []
  {
    match v
    case ArrayOf(xs) => seq(|xs|, i requires 0 <= i < |xs| => (Index(i), xs[i]))
    case MapOf(ps) => seq(|ps|, i requires 0 <= i < |ps| => (EntryKey(ps[i].0), ps[i].1))
    case SetOf(xs) => seq(|xs|, i requires 0 <= i < |xs| => (EntryKey(xs[i]), xs[i]))
    case Str(s) => seq(|s|, i requires 0 <= i < |s| => (PropertyName(Decimal(i)), Str([s[i]])))
    case ObjectOf(ps) => seq(|ps|, i requires 0 <= i < |ps| => (PropertyName(ps[i].0), ps[i].1))
    case _ => []
  }

  /** Lines 229-234: the entries `native` with the keys the loop gives them:
      0, 1, 2, ... when `force` is set, their own keys otherwise. */
  function Keyed(native: seq<(Key, Value)>, force: bool): (r: seq<(Key, Value)>)
    ensures |r| == |native|
  {
    seq(|native|, i requires 0 <= i < |native| => (if force then Index(i) else native[i].0, native[i].1))
  }

  /** The (key, item) pairs the render loop visits, in order. */
  function Entries(v: Value): (r: seq<(Key, Value)>)
    ensures |r| == |NativeEntries(v)|
  {
    Keyed(NativeEntries(v), ForceNumberIndex(v))
  }

  /** Strings and Sets are walked with the keys 0, 1, 2, ... (a Set's own
      entries would have the member as key), as arrays are; a Map is walked
      pair by pair and a plain object property by property, with their own
      keys; every entry carries the item the collection's own iteration
      gives. */
  lemma EntryKeys(v: Value)
    ensures forall i :: 0 <= i < |Entries(v)| ==> Entries(v)[i].1 == NativeEntries(v)[i].1
    ensures v.Str? ==> forall i :: 0 <= i < |Entries(v)| ==> Entries(v)[i] == (Index(i), Str([v.units[i]]))
    ensures v.SetOf? ==> forall i :: 0 <= i < |Entries(v)| ==> Entries(v)[i] == (Index(i), v.members[i])
    ensures v.ArrayOf? ==> forall i :: 0 <= i < |Entries(v)| ==> Entries(v)[i] == (Index(i), v.elements[i])
    ensures v.MapOf? ==> forall i :: 0 <= i < |Entries(v)| ==> Entries(v)[i] == (EntryKey(v.pairs[i].0), v.pairs[i].1)
    ensures v.ObjectOf? ==>
              forall i :: 0 <= i < |Entries(v)| ==> Entries(v)[i] == (PropertyName(v.properties[i].0), v.properties[i].1)
  {
  }

  /** A character outside the Basic Multilingual Plane (U+1F600, say, is
      D83D DE00) is a surrogate pair, two code units, so the render loop
      visits it as two items, each a lone surrogate, keyed 0 and 1. */
  lemma SurrogatePairEntries(high: CodeUnit, low: CodeUnit)
    requires 0xD800 <= high < 0xDC00 && 0xDC00 <= low < 0xE000
    ensures Entries(Str([high, low])) == [(Index(0), Str([high])), (Index(1), Str([low]))]
  {
    EntryKeys(Str([high, low]));
  }
}
