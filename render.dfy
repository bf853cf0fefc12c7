/** `render(items)` (dist/mythix-ui-for-each.js lines 213-251) as a function
    of the host's nodes and child list: the old children become the pool, then
    each entry of the collection is transformed, rendered and inserted. */
module Rendering {
  import opened Dom
  import opened Items
  import opened Normalizer
  import opened Insertion
  import opened Results

  /** What the template engine supplies: the compiled `do` attribute, if the
      host has one (`doCallback`), and the evaluation of the item template for
      a context (`renderChild`, lines 253-262). */
  datatype Hooks = Hooks(doCallback: Option<Context -> Value>, renderChild: Context -> Output)

  /** Lines 245-246: the `do` transform replaces the item the template and the
      id see; the key and the collection stay. */
  function ItemContext(ctx: Context, hooks: Hooks): (c: Context)
    ensures c.key == ctx.key && c.items == ctx.items
    ensures hooks.doCallback.None? ==> c == ctx
    ensures hooks.doCallback.Some? ==> c.item == hooks.doCallback.value(ctx)
  {
    match hooks.doCallback
    case None => ctx
    case Some(cb) => ctx.(item := cb(ctx))
  }

  /** Lines 236-249 for one entry. */
  function RenderItem(p: Pass, ctx: Context, hooks: Hooks, caching: bool, f: Foreign): Step
    requires Sound(p)
  {
    var c := ItemContext(ctx, hooks);
    InsertResult(p, hooks.renderChild(c), c, caching, f)
  }

  /** The loop of lines 232-250 over the entries `es` from index `i` on,
      up to the first throw. */
  function RenderEntries(p: Pass, es: seq<(Key, Value)>, i: nat, items: Value, hooks: Hooks, caching: bool, f: Foreign): (r: Step)
    requires Sound(p) && i <= |es|
    ensures Sound(r.pass)
    decreases |es| - i
  {
    if i == |es| then Step(p, Completed)
    else
      var s := RenderItem(p, Context(es[i].0, es[i].1, items), hooks, caching, f);
      if s.outcome.TypeError? then s
      else RenderEntries(s.pass, es, i + 1, items, hooks, caching, f)
  }

  /** The pass `render` starts with once `clearRenderedItems` has run
      (line 218): no children, and the old children, in order, as the pool. */
  function Cleared(nodes: map<NodeId, NodeData>, next: NodeId, children: seq<NodeId>): (p: Pass)
    requires Sound(Pass(nodes, next, children, []))
    ensures Sound(p) && p.children == [] && p.pool == children
  {
    assert [] + children == children + [];
    Pass(nodes, next, [], children)
  }

  /** `render(items)` on a host with the given nodes and children;
      `hasTemplate` says whether the host has an item template. The result's
      pool is what is left of the old children when the pass ends. */
  function RenderPass(nodes: map<NodeId, NodeData>, next: NodeId, children: seq<NodeId>, hasTemplate: bool,
                      items: Value, hooks: Hooks, caching: bool, f: Foreign): (r: Step)
    requires Sound(Pass(nodes, next, children, []))
    ensures Sound(r.pass)
  {
    if !hasTemplate then Step(Pass(nodes, next, children, []), Completed)
    else
      var p := Cleared(nodes, next, children);
      if !Truthy(items) then Step(p, Completed)
      else RenderEntries(p, Entries(items), 0, items, hooks, caching, f)
  }

  lemma GrowsReflexive(p: Pass)
    requires Sound(p)
    ensures Grows(p, p)
  {
  }

  /** Every part of the render loop only grows the pass. */
  lemma {:induction false} RenderEntriesGrows(p: Pass, es: seq<(Key, Value)>, i: nat, items: Value, hooks: Hooks,
                                              caching: bool, f: Foreign)
    requires Sound(p) && i <= |es|
    ensures Grows(p, RenderEntries(p, es, i, items, hooks, caching, f).pass)
    decreases |es| - i
  {
    if i == |es| {
      GrowsReflexive(p);
    } else {
      var ctx := ItemContext(Context(es[i].0, es[i].1, items), hooks);
      var s := RenderItem(p, Context(es[i].0, es[i].1, items), hooks, caching, f);
      ResultAtoms(p, hooks.renderChild(ctx), ctx, caching, f);
      InsertAtomsGrows(p, Atoms(hooks.renderChild(ctx)), ctx, caching, f);
      if s.outcome == Completed {
        RenderEntriesGrows(s.pass, es, i + 1, items, hooks, caching, f);
        GrowsTransitive(p, s.pass, RenderEntries(p, es, i, items, hooks, caching, f).pass);
      }
    }
  }

  /** Without an item template `render` changes nothing. */
  lemma RenderWithoutTemplate(nodes: map<NodeId, NodeData>, next: NodeId, children: seq<NodeId>,
                              items: Value, hooks: Hooks, caching: bool, f: Foreign)
    requires Sound(Pass(nodes, next, children, []))
    ensures RenderPass(nodes, next, children, false, items, hooks, caching, f) ==
            Step(Pass(nodes, next, children, []), Completed)
  {
  }

  /** With a template and a falsy collection, `render` leaves the host with
      no children: every old child is in the pool, which is then dropped. */
  lemma RenderFalsyItems(nodes: map<NodeId, NodeData>, next: NodeId, children: seq<NodeId>,
                         items: Value, hooks: Hooks, caching: bool, f: Foreign)
    requires Sound(Pass(nodes, next, children, [])) && !Truthy(items)
    ensures var r := RenderPass(nodes, next, children, true, items, hooks, caching, f);
            r == Step(Pass(nodes, next, [], children), Completed)
  {
  }

  /** With a template, whatever the collection and however the pass ends:
      each new child is a node made during the pass or one of the old
      children; the nodes left in the pool are old children that are not
      children any more, and are never re-attached; no node is a child twice;
      the nodes that were not children are as they were, and so are the
      old children left in the pool. */
  lemma RenderReuse(nodes: map<NodeId, NodeData>, next: NodeId, children: seq<NodeId>,
                    items: Value, hooks: Hooks, caching: bool, f: Foreign)
    requires Sound(Pass(nodes, next, children, []))
    ensures var r := RenderPass(nodes, next, children, true, items, hooks, caching, f).pass;
            (forall x :: x in r.children ==> x >= next || x in children) &&
            (forall x :: x in r.pool ==> x in children && x !in r.children) &&
            (forall x :: x in children ==> x in r.children || x in r.pool) &&
            NoDup(r.children) &&
            (forall x :: x in nodes && x !in children ==> x in r.nodes && r.nodes[x] == nodes[x]) &&
            (forall x :: x in r.pool ==> x in r.nodes && r.nodes[x] == nodes[x])
  {
    var p := Cleared(nodes, next, children);
    var r := RenderPass(nodes, next, children, true, items, hooks, caching, f).pass;
    if Truthy(items) {
      RenderEntriesGrows(p, Entries(items), 0, items, hooks, caching, f);
    }
    assert r.children[|p.children|..] == r.children;
    forall x | x in r.pool ensures x !in r.children {
      NoDupApart(r.children, r.pool, x);
    }
    NoDupPrefix(r.children, r.pool);
  }

  /** A node is not on both sides of a duplicate-free concatenation. */
  lemma NoDupApart<T(!new)>(a: seq<T>, b: seq<T>, x: T)
    requires NoDup(a + b) && x in b
    ensures x !in a
  {
    assert multiset(a + b) == multiset(a) + multiset(b);
    assert x in a + b;
  }

  lemma NoDupPrefix<T(!new)>(a: seq<T>, b: seq<T>)
    requires NoDup(a + b)
    ensures NoDup(a)
  {
    assert multiset(a + b) == multiset(a) + multiset(b);
    forall x | x in a ensures multiset(a)[x] <= 1 {
      assert x in a + b;
    }
  }
}
