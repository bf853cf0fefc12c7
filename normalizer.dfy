/** The result normaliser `insertRenderedResult` (dist/mythix-ui-for-each.js
    lines 158-211): what the template produced for one item, turned into the
    series of nodes that are handed, one at a time, to `insertRenderedItem`. */
module Normalizer {
  import opened Dom

  /** What rendering one item can produce. Nodes are described by value: every
      one is a new node the template engine has just built. */
  datatype Output =
    | Null
    | Undefined
    | Bool(b: bool)
    | NaN
    /** any other non-node value, with its string conversion (line 207) */
    | Prim(text: string)
    /** a DynamicProperty, with the string of its current value (line 174) */
    | Dyn(text: string)
    /** an element node */
    | Elem(localName: string, attrs: Attrs)
    /** a text node */
    | Text(data: string)
    /** a document fragment and its child nodes */
    | Frag(children: seq<Output>)
    /** a node of another type: a comment, a processing instruction, ... */
    | OtherNode
    /** an array, with the string conversion JavaScript gives it */
    | Arr(elements: seq<Output>, text: string)

  /** One call of `insertRenderedItem`: with a new element, or with a new text node. */
  datatype Atom = NewElement(localName: string, attrs: Attrs) | NewText(data: string)

  /** `isItemEmpty` (lines 159-164). */
  predicate IsItemEmpty(o: Output)
  {
    o.Null? || o.Undefined? || o.Bool? || o.NaN?
  }

  function Size(o: Output): (n: nat)
    ensures n >= 1
  {
    match o
    case Frag(cs) => 1 + SizeOf(cs)
    case Arr(xs, _) => 1 + SizeOf(xs)
    case _ => 1
  }

  function SizeOf(xs: seq<Output>): nat
  {
    if xs == [] then 0 else SizeOf(xs[..|xs| - 1]) + Size(xs[|xs| - 1])
  }

  /** The whole of `insertRenderedResult(context, o)`: nothing for an empty
      result (166-167), the elements of an array, or the result alone (169-171). */
  function Atoms(o: Output): (r: seq<Atom>)
    ensures IsItemEmpty(o) ==> r == []
    decreases Size(o), 3
  {
    if IsItemEmpty(o) then []
    else if o.Arr? then ItemsAtoms(o.elements)
    else ElemAtoms(o)
  }

  /** Lines 169-171: a result that is not an array is wrapped in one. */
  function Elements(o: Output): (list: seq<Output>)
    ensures !IsItemEmpty(o) ==> Atoms(o) == ItemsAtoms(list)
    ensures forall i :: 0 <= i < |list| ==> Size(list[i]) <= Size(o)
    ensures SizeOf(list) <= Size(o)
  {
    if o.Arr? then
      assert forall i :: 0 <= i < |o.elements| ==> Size(o.elements[i]) <= Size(o) by {
        forall i | 0 <= i < |o.elements| ensures Size(o.elements[i]) <= Size(o) {
          SizeOfElement(o.elements, i);
        }
      }
      o.elements
    else
      assert [o][..0] == [];
      [o]
  }

  /** The loop of lines 186-210 over the elements `xs`, in order. */
  function ItemsAtoms(xs: seq<Output>): seq<Atom>
    decreases SizeOf(xs), 2
  {
    if xs == [] then [] else ItemsAtoms(xs[..|xs| - 1]) + ElemAtoms(xs[|xs| - 1])
  }

  /** One element of the loop (lines 187-209). */
  function ElemAtoms(x: Output): seq<Atom>
    decreases Size(x), 1
  {
    match x
    case Null => []
    case Undefined => []
    case Bool(_) => []
    case NaN => []
    case Elem(ln, attrs) => [NewElement(ln, attrs)]
    case Text(d) => [NewText(d)]
    case Frag(cs) => FragAtoms(cs)
    case OtherNode => []
    case Dyn(t) => [NewText(t)]
    case Prim(t) => [NewText(t)]
    case Arr(_, t) => [NewText(t)]
  }

  /** Lines 195-199: each child of a fragment is normalised in turn. */
  function FragAtoms(cs: seq<Output>): seq<Atom>
    decreases SizeOf(cs), 4
  {
    if cs == [] then [] else FragAtoms(cs[..|cs| - 1]) + Atoms(cs[|cs| - 1])
  }

  lemma {:induction false} SizeOfElement(xs: seq<Output>, i: nat)
    requires i < |xs|
    ensures Size(xs[i]) <= SizeOf(xs)
    decreases |xs|
  {
    if i < |xs| - 1 {
      SizeOfElement(xs[..|xs| - 1], i);
      assert xs[..|xs| - 1][i] == xs[i];
    }
  }

  /** The elements of an array are inserted in array order. */
  lemma {:induction false} ItemsAtomsAppend(xs: seq<Output>, ys: seq<Output>)
    ensures ItemsAtoms(xs + ys) == ItemsAtoms(xs) + ItemsAtoms(ys)
    decreases |ys|
  {
    if ys == [] {
      assert xs + ys == xs;
    } else {
      var last := ys[|ys| - 1];
      assert (xs + ys)[..|xs + ys| - 1] == xs + ys[..|ys| - 1];
      ItemsAtomsAppend(xs, ys[..|ys| - 1]);
      assert (xs + ys)[|xs + ys| - 1] == last;
    }
  }

  /** A fragment's children are inserted depth-first, left to right: a
      fragment that holds `cs` and then `ds` inserts what `cs` gives, then what
      `ds` gives. */
  lemma {:induction false} FragAtomsAppend(cs: seq<Output>, ds: seq<Output>)
    ensures FragAtoms(cs + ds) == FragAtoms(cs) + FragAtoms(ds)
    decreases |ds|
  {
    if ds == [] {
      assert cs + ds == cs;
    } else {
      assert (cs + ds)[..|cs + ds| - 1] == cs + ds[..|ds| - 1];
      FragAtomsAppend(cs, ds[..|ds| - 1]);
      assert (cs + ds)[|cs + ds| - 1] == ds[|ds| - 1];
    }
  }

  /** The number of insertions of an array result: one per element, text, or
      non-node value, none per empty value or other node, and a fragment's worth
      per fragment. */
  function Count(x: Output): nat
    decreases Size(x), 1
  {
    match x
    case Null => 0
    case Undefined => 0
    case Bool(_) => 0
    case NaN => 0
    case OtherNode => 0
    case Frag(cs) => CountFrag(cs)
    case Elem(_, _) => 1
    case Text(_) => 1
    case Dyn(_) => 1
    case Prim(_) => 1
    case Arr(_, _) => 1
  }

  function CountFrag(cs: seq<Output>): nat
    decreases SizeOf(cs), 2
  {
    if cs == [] then 0
    else
      var last := cs[|cs| - 1];
      assert last.Arr? ==> SizeOf(last.elements) < Size(last) <= SizeOf(cs);
      CountFrag(cs[..|cs| - 1]) + (if IsItemEmpty(last) then 0
                                   else if last.Arr? then CountArr(last.elements)
                                   else Count(last))
  }

  function CountArr(xs: seq<Output>): nat
    decreases SizeOf(xs), 2
  {
    if xs == [] then 0 else CountArr(xs[..|xs| - 1]) + Count(xs[|xs| - 1])
  }

  /** Arrays are flattened one level only, fragments fully: the number of
      insertions agrees with `Count`, and every value that is neither empty
      nor a node yields exactly one text node carrying its string. */
  lemma {:induction false} ElemAtomsCount(x: Output)
    ensures |ElemAtoms(x)| == Count(x)
    ensures !IsItemEmpty(x) && (x.Prim? || x.Dyn? || x.Arr?) ==>
              ElemAtoms(x) == [NewText(x.text)]
    decreases Size(x), 1
  {
    if x.Frag? {
      FragAtomsCount(x.children);
    }
  }

  lemma {:induction false} FragAtomsCount(cs: seq<Output>)
    ensures |FragAtoms(cs)| == CountFrag(cs)
    decreases SizeOf(cs), 2
  {
    if cs != [] {
      var last := cs[|cs| - 1];
      FragAtomsCount(cs[..|cs| - 1]);
      if !IsItemEmpty(last) {
        if last.Arr? {
          assert SizeOf(last.elements) < Size(last) <= SizeOf(cs);
          ItemsAtomsCount(last.elements);
        } else {
          ElemAtomsCount(last);
        }
      }
    }
  }

  lemma {:induction false} ItemsAtomsCount(xs: seq<Output>)
    ensures |ItemsAtoms(xs)| == CountArr(xs)
    decreases SizeOf(xs), 2
  {
    if xs != [] {
      ItemsAtomsCount(xs[..|xs| - 1]);
      ElemAtomsCount(xs[|xs| - 1]);
    }
  }

  /** The first element of an array result is inserted before the others. */
  lemma ItemsAtomsCons(xs: seq<Output>)
    requires xs != []
    ensures ItemsAtoms(xs) == ElemAtoms(xs[0]) + ItemsAtoms(xs[1..])
  {
    assert [xs[0]] + xs[1..] == xs;
    assert [xs[0]][..0] == [];
    ItemsAtomsAppend([xs[0]], xs[1..]);
  }

  /** The first child of a fragment is inserted before the others. */
  lemma FragAtomsCons(cs: seq<Output>)
    requires cs != []
    ensures FragAtoms(cs) == Atoms(cs[0]) + FragAtoms(cs[1..])
  {
    assert [cs[0]] + cs[1..] == cs;
    assert [cs[0]][..0] == [];
    FragAtomsAppend([cs[0]], cs[1..]);
  }
}
