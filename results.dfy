/** `insertRenderedResult` (dist/mythix-ui-for-each.js lines 158-211) as a
    function of a render pass that follows the code's own recursion: an array
    result element by element, a fragment child by child, each child being a
    result of its own. `ResultAtoms` shows it performs exactly the insertions
    `Normalizer.Atoms` lists, in that order, up to the first throw. */
module Results {
  import opened Dom
  import opened Items
  import opened Normalizer
  import opened Insertion

  /** `insertRenderedResult(context, o)`: nothing for an empty result
      (lines 166-167), otherwise the elements of the result as an array
      (lines 169-171), one after the other. */
  function InsertResult(p: Pass, o: Output, ctx: Context, caching: bool, f: Foreign): (r: Step)
    requires Sound(p)
    ensures Sound(r.pass)
    decreases Size(o), 3
  {
    if IsItemEmpty(o) then Step(p, Completed)
    else InsertItems(p, Elements(o), 0, ctx, caching, f)
  }

  /** The loop of lines 186-210 over the elements `xs` from index `i` on, up
      to the first throw. */
  function InsertItems(p: Pass, xs: seq<Output>, i: nat, ctx: Context, caching: bool, f: Foreign): (r: Step)
    requires Sound(p) && i <= |xs|
    ensures Sound(r.pass)
    decreases SizeOf(xs), 2, |xs| - i
  {
    if i == |xs| then Step(p, Completed)
    else
      SizeOfElement(xs, i);
      var s := InsertElem(p, xs[i], ctx, caching, f);
      if s.outcome.TypeError? then s else InsertItems(s.pass, xs, i + 1, ctx, caching, f)
  }

  /** One pass of that loop (lines 187-209): empty values are skipped; an
      element or a text node is inserted; a fragment's children are inserted
      as results of their own; other nodes are skipped; any other value
      (a DynamicProperty, an array element that is itself an array, a
      primitive) becomes a text node holding its string. */
  function InsertElem(p: Pass, x: Output, ctx: Context, caching: bool, f: Foreign): (r: Step)
    requires Sound(p)
    ensures Sound(r.pass)
    decreases Size(x), 1
  {
    if IsItemEmpty(x) then Step(p, Completed)
    else if x.Elem? then InsertAtom(p, NewElement(x.localName, x.attrs), ctx, caching, f)
    else if x.Frag? then InsertFrag(p, x.children, 0, ctx, caching, f)
    else if x.Text? then InsertAtom(p, NewText(x.data), ctx, caching, f)
    else if x.OtherNode? then Step(p, Completed)
    else InsertAtom(p, NewText(x.text), ctx, caching, f)
  }

  /** Lines 195-199: the children of a fragment from index `j` on, up to
      the first throw. */
  function InsertFrag(p: Pass, cs: seq<Output>, j: nat, ctx: Context, caching: bool, f: Foreign): (r: Step)
    requires Sound(p) && j <= |cs|
    ensures Sound(r.pass)
    decreases SizeOf(cs), 4, |cs| - j
  {
    if j == |cs| then Step(p, Completed)
    else
      SizeOfElement(cs, j);
      var s := InsertResult(p, cs[j], ctx, caching, f);
      if s.outcome.TypeError? then s else InsertFrag(s.pass, cs, j + 1, ctx, caching, f)
  }

  /** Empty values (`isItemEmpty`, lines 159-164) insert nothing and change
      nothing, whether they are the whole result or one of its elements, and
      neither do nodes that are not elements, texts or fragments. */
  lemma EmptyInsertsNothing(p: Pass, o: Output, ctx: Context, caching: bool, f: Foreign)
    requires Sound(p)
    ensures IsItemEmpty(o) ==> InsertResult(p, o, ctx, caching, f) == Step(p, Completed)
    ensures IsItemEmpty(o) || o.OtherNode? ==> InsertElem(p, o, ctx, caching, f) == Step(p, Completed)
  {
  }

  /** A DynamicProperty, a nested array or a primitive value among the
      elements becomes exactly one new text node holding its string, appended
      after the children; nothing else changes (lines 203-209). */
  lemma ValueBecomesText(p: Pass, x: Output, ctx: Context, caching: bool, f: Foreign)
    requires Sound(p) && !IsItemEmpty(x) && (x.Prim? || x.Dyn? || x.Arr?)
    ensures InsertElem(p, x, ctx, caching, f) ==
            Step(Pass(p.nodes[p.next := TextNode(x.text)], p.next + 1, p.children + [p.next], p.pool), Completed)
  {
  }

  /** Inserting a result is inserting, in order, the nodes `Atoms` lists:
      arrays are walked one level, fragments depth-first, left to right. */
  lemma {:induction false} ResultAtoms(p: Pass, o: Output, ctx: Context, caching: bool, f: Foreign)
    requires Sound(p)
    ensures InsertResult(p, o, ctx, caching, f) == InsertAtoms(p, Atoms(o), ctx, caching, f)
    decreases Size(o), 3
  {
    if !IsItemEmpty(o) {
      var xs := Elements(o);
      ItemsAtomsOf(p, xs, 0, ctx, caching, f);
      assert xs[0..] == xs;
    }
  }

  lemma {:induction false} ItemsAtomsOf(p: Pass, xs: seq<Output>, i: nat, ctx: Context, caching: bool, f: Foreign)
    requires Sound(p) && i <= |xs|
    ensures InsertItems(p, xs, i, ctx, caching, f) == InsertAtoms(p, ItemsAtoms(xs[i..]), ctx, caching, f)
    decreases SizeOf(xs), 2, |xs| - i
  {
    if i < |xs| {
      SizeOfElement(xs, i);
      ItemsAtomsCons(xs[i..]);
      assert xs[i..][0] == xs[i] && xs[i..][1..] == xs[i + 1..];
      InsertAtomsAppend(p, ElemAtoms(xs[i]), ItemsAtoms(xs[i + 1..]), ctx, caching, f);
      ElemAtomsOf(p, xs[i], ctx, caching, f);
      var s := InsertElem(p, xs[i], ctx, caching, f);
      if s.outcome == Completed {
        ItemsAtomsOf(s.pass, xs, i + 1, ctx, caching, f);
      }
    }
  }

  lemma {:induction false} ElemAtomsOf(p: Pass, x: Output, ctx: Context, caching: bool, f: Foreign)
    requires Sound(p)
    ensures InsertElem(p, x, ctx, caching, f) == InsertAtoms(p, ElemAtoms(x), ctx, caching, f)
    decreases Size(x), 1
  {
    if x.Frag? {
      FragAtomsOf(p, x.children, 0, ctx, caching, f);
      assert x.children[0..] == x.children;
    } else if !IsItemEmpty(x) && !x.OtherNode? {
      var a := ElemAtoms(x)[0];
      assert ElemAtoms(x) == [a] && [a][..0] == [];
    }
  }

  lemma {:induction false} FragAtomsOf(p: Pass, cs: seq<Output>, j: nat, ctx: Context, caching: bool, f: Foreign)
    requires Sound(p) && j <= |cs|
    ensures InsertFrag(p, cs, j, ctx, caching, f) == InsertAtoms(p, FragAtoms(cs[j..]), ctx, caching, f)
    decreases SizeOf(cs), 4, |cs| - j
  {
    if j < |cs| {
      SizeOfElement(cs, j);
      FragAtomsCons(cs[j..]);
      assert cs[j..][0] == cs[j] && cs[j..][1..] == cs[j + 1..];
      InsertAtomsAppend(p, Atoms(cs[j]), FragAtoms(cs[j + 1..]), ctx, caching, f);
      ResultAtoms(p, cs[j], ctx, caching, f);
      var s := InsertResult(p, cs[j], ctx, caching, f);
      if s.outcome == Completed {
        FragAtomsOf(s.pass, cs, j + 1, ctx, caching, f);
      }
    }
  }
}
