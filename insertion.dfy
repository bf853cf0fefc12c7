/** `insertRenderedItem` (dist/mythix-ui-for-each.js lines 103-156) and the
    series of insertions one render output makes, as functions of the state of
    a render pass. */
module Insertion {
  import opened Dom
  import opened Items
  import opened Normalizer
  import Reconciler

  /** The state a render pass works on: the document's nodes, the next fresh
      handle, the host's child list, and the pool of detached previous
      children (`renderedItems`, a document fragment). */
  datatype Pass = Pass(nodes: map<NodeId, NodeData>, next: NodeId, children: seq<NodeId>, pool: seq<NodeId>)

  datatype Step = Step(pass: Pass, outcome: Outcome)

  /** The utilities of the host library this code calls and that are not
      modelled: `Utils.isCollectable`, `Utils.SHA256`, `Utils.getObjectID`. */
  datatype Foreign = Foreign(isCollectable: Value -> bool, sha256: Value -> string, objectId: NodeId -> string)

  /** Every handle in use is allocated, and a node is at most once in the
      child list and the pool together (appending moves a node). */
  predicate Sound(p: Pass)
  {
    (forall h :: h in p.nodes ==> h < p.next) &&
    (forall h :: h in p.children ==> h in p.nodes) &&
    (forall h :: h in p.pool ==> h in p.nodes) &&
    NoDup(p.children + p.pool)
  }

  /** Matches the selector `localName#id`. */
  predicate IsMatch(d: NodeData, localName: string, id: string)
  {
    d.Element? && d.localName == localName && Get(d.attrs, "id") == Some(id)
  }

  /** `renderedItems.querySelector(localName#id)` over the pool's top-level
      nodes: the position of the first match. */
  function Lookup(nodes: map<NodeId, NodeData>, pool: seq<NodeId>, localName: string, id: string): (k: Option<nat>)
    ensures k.Some? ==> k.value < |pool| && pool[k.value] in nodes && IsMatch(nodes[pool[k.value]], localName, id)
    ensures forall j :: 0 <= j < |pool| && (k.None? || j < k.value) && pool[j] in nodes ==>
              !IsMatch(nodes[pool[j]], localName, id)
  {
    if pool == [] then None
    else if pool[0] in nodes && IsMatch(nodes[pool[0]], localName, id) then Some(0)
    else match Lookup(nodes, pool[1..], localName, id)
      case None => None
      case Some(k) => Some(k + 1)
  }

  /** `item.getAttribute('id')` is a non-empty string. */
  predicate HasId(attrs: Attrs)
  {
    Get(attrs, "id").Some? && Get(attrs, "id").value != ""
  }

  /** Lines 131-134: the element's own id, or "ID" followed by the object id of
      the NEW NODE `h` (line 134 passes the node, not the item) when the item is
      collectable, or by the hash of the item otherwise. */
  function ItemId(attrs: Attrs, item: Value, h: NodeId, f: Foreign): (id: string)
    ensures HasId(attrs) ==> id == Get(attrs, "id").value
    ensures !HasId(attrs) ==> |id| >= 2 && id[..2] == "ID"
    ensures !HasId(attrs) && !f.isCollectable(item) ==> id[2..] == f.sha256(item)
    ensures !HasId(attrs) && f.isCollectable(item) ==> id[2..] == f.objectId(h)
  {
    if HasId(attrs) then Get(attrs, "id").value
    else "ID" + (if f.isCollectable(item) then f.objectId(h) else f.sha256(item))
  }

  /** The element's attributes once line 135 has run. */
  function WithId(attrs: Attrs, item: Value, h: NodeId, f: Foreign): Attrs
  {
    if HasId(attrs) then attrs else SetAttr(attrs, "id", ItemId(attrs, item, h, f))
  }

  /** Line 149: `setAttribute('part', 'item')`. */
  function MarkPart(nodes: map<NodeId, NodeData>, x: NodeId): map<NodeId, NodeData>
    requires x in nodes && nodes[x].Element?
  {
    nodes[x := nodes[x].(attrs := SetAttr(nodes[x].attrs, "part", "item"))]
  }

  function Append(p: Pass, x: NodeId): Pass
  {
    p.(children := p.children + [x])
  }

  /** `p.pool` without its `k`-th node. */
  function Take(pool: seq<NodeId>, k: nat): seq<NodeId>
    requires k < |pool|
  {
    pool[..k] + pool[k + 1..]
  }

  /** Pooled node `pool[k]` was moved to the end of the child list. */
  predicate MovedFromPool(p: Pass, q: Pass, k: nat)
  {
    k < |p.pool| && q.children == p.children + [p.pool[k]] && q.pool == Take(p.pool, k)
  }

  /** Every node of `p` other than `a` and `b` is in `q` as it was. */
  predicate Untouched(p: Pass, q: Pass, a: NodeId, b: NodeId)
  {
    forall x :: x in p.nodes && x != a && x != b ==> x in q.nodes && q.nodes[x] == p.nodes[x]
  }

  /** What one call of `insertRenderedItem` with the new node `h` does to a
      pass, whatever its branch: the pass stays sound and keeps its handles;
      a throw appends nothing, leaves the pool alone and changes no node but
      `h`; otherwise exactly one node is appended: `h` itself, with no other
      node changed, or a node that leaves the pool, with no node changed but
      `h` and that one. */
  predicate Placed(p: Pass, h: NodeId, r: Step)
  {
    Sound(r.pass) && r.pass.next == p.next && r.pass.nodes.Keys == p.nodes.Keys &&
    (r.outcome.TypeError? ==> r.pass.children == p.children && r.pass.pool == p.pool && Untouched(p, r.pass, h, h)) &&
    (r.outcome == Completed ==>
       (r.pass.children == p.children + [h] && r.pass.pool == p.pool && Untouched(p, r.pass, h, h)) ||
       (exists k :: 0 <= k < |p.pool| && MovedFromPool(p, r.pass, k) && Untouched(p, r.pass, h, p.pool[k])))
  }

  /** `nodes` differs from `p.nodes` at most at `h`. */
  predicate ChangedAt(p: Pass, h: NodeId, nodes: map<NodeId, NodeData>)
  {
    nodes.Keys == p.nodes.Keys && forall x :: x in p.nodes && x != h ==> nodes[x] == p.nodes[x]
  }

  /** Lines 121 and 153 with the new node itself. */
  function AppendNew(p: Pass, h: NodeId, nodes: map<NodeId, NodeData>): (r: Step)
    requires Sound(p) && h in p.nodes && h !in p.children && h !in p.pool
    requires ChangedAt(p, h, nodes)
    ensures Placed(p, h, r)
    ensures r.outcome == Completed && r.pass.children == p.children + [h] && r.pass.pool == p.pool
  {
    AddFreshSound(p.children, p.pool, h);
    Step(Pass(nodes, p.next, p.children + [h], p.pool), Completed)
  }

  /** Line 153 with the pooled element `pool[k]` in place of the new node:
      it moves from the pool to the end of the child list, marked as an item. */
  function MoveFromPool(p: Pass, h: NodeId, nodes: map<NodeId, NodeData>, k: nat): (r: Step)
    requires Sound(p) && k < |p.pool| && nodes.Keys == p.nodes.Keys && nodes[p.pool[k]].Element?
    requires forall x :: x in p.nodes && x != h && x != p.pool[k] ==> nodes[x] == p.nodes[x]
    ensures Placed(p, h, r) && r.outcome == Completed && MovedFromPool(p, r.pass, k)
    ensures p.pool[k] !in r.pass.pool && r.pass.nodes == MarkPart(nodes, p.pool[k])
  {
    var e := p.pool[k];
    MoveSound(p.children, p.pool, k);
    assert multiset(p.children + [e] + Take(p.pool, k))[e] <= 1;
    var q := Pass(MarkPart(nodes, e), p.next, p.children + [e], Take(p.pool, k));
    assert MovedFromPool(p, q, k) && Untouched(p, q, h, e);
    Step(q, Completed)
  }

  /** Lines 140-153 once the pooled element `pool[k]` has been found. */
  function ReuseFound(p: Pass, h: NodeId, nodes: map<NodeId, NodeData>, k: nat): (r: Step)
    requires Sound(p) && h in p.nodes && h !in p.children && h !in p.pool
    requires ChangedAt(p, h, nodes) && nodes[h].Element?
    requires k < |p.pool| && nodes[p.pool[k]].Element?
    ensures Placed(p, h, r)
    ensures var rec := Reconciler.Reconcile(nodes[h].attrs, nodes[p.pool[k]].attrs);
            r.outcome == rec.outcome &&
            (r.outcome == Completed ==>
               MovedFromPool(p, r.pass, k) && p.pool[k] !in r.pass.pool &&
               r.pass.nodes[p.pool[k]] == Element(nodes[p.pool[k]].localName, SetAttr(rec.attrs, "part", "item")))
  {
    var e := p.pool[k];
    var rec := Reconciler.Reconcile(nodes[h].attrs, nodes[e].attrs);
    var nodes2 := nodes[e := Element(nodes[e].localName, rec.attrs)];
    Reconciler.ThrowLeavesAttrs(nodes[h].attrs, nodes[e].attrs);
    if rec.outcome.TypeError? then
      assert nodes2 == nodes;
      Step(p.(nodes := nodes2), rec.outcome)
    else
      MoveFromPool(p, h, nodes2, k)
  }

  /** `insertRenderedItem(context, h)` for a new node `h`; `caching` is
      `getAttribute('cache') !== 'false'` on the host. */
  function InsertItem(p: Pass, h: NodeId, ctx: Context, caching: bool, f: Foreign): (r: Step)
    requires Sound(p) && h in p.nodes && h !in p.children && h !in p.pool
    ensures Placed(p, h, r)
  {
    match p.nodes[h]
    case TextNode(_) => AppendNew(p, h, p.nodes)
    case Element(ln, attrs) =>
      if !caching then
        AppendNew(p, h, MarkPart(p.nodes, h))
      else
        var id := ItemId(attrs, ctx.item, h, f);
        var nodes1 := p.nodes[h := Element(ln, WithId(attrs, ctx.item, h, f))];
        match Lookup(nodes1, p.pool, ln, id)
        case None => AppendNew(p, h, MarkPart(nodes1, h))
        case Some(k) => ReuseFound(p, h, nodes1, k)
  }

  /** Lines 118-124: a text node is appended as it is: no id, no `part`, no
      pool lookup. */
  lemma InsertItemText(p: Pass, h: NodeId, ctx: Context, caching: bool, f: Foreign)
    requires Sound(p) && h in p.nodes && h !in p.children && h !in p.pool
    requires p.nodes[h].TextNode?
    ensures InsertItem(p, h, ctx, caching, f) == Step(Append(p, h), Completed)
  {
  }

  /** With `cache="false"` on the host an element gets no id and is not looked
      up: it is appended with `part="item"`, and the pool is left alone. */
  lemma InsertItemUncached(p: Pass, h: NodeId, ctx: Context, f: Foreign)
    requires Sound(p) && h in p.nodes && h !in p.children && h !in p.pool
    requires p.nodes[h].Element?
    ensures var r := InsertItem(p, h, ctx, false, f);
            r.outcome == Completed && r.pass.children == p.children + [h] && r.pass.pool == p.pool &&
            r.pass.nodes[h] == p.nodes[h].(attrs := SetAttr(p.nodes[h].attrs, "part", "item"))
  {
  }

  /** With caching on, the new element carries an id: its own non-empty id
      unchanged, or one starting with "ID" (lines 131-136). */
  lemma InsertItemId(p: Pass, h: NodeId, ctx: Context, f: Foreign)
    requires Sound(p) && h in p.nodes && h !in p.children && h !in p.pool
    requires p.nodes[h].Element?
    ensures var id := ItemId(p.nodes[h].attrs, ctx.item, h, f);
            var r := InsertItem(p, h, ctx, true, f);
            Get(r.pass.nodes[h].attrs, "id") == Some(id) &&
            (HasId(p.nodes[h].attrs) ==> id == Get(p.nodes[h].attrs, "id").value) &&
            (!HasId(p.nodes[h].attrs) && f.isCollectable(ctx.item) ==> id == "ID" + f.objectId(h)) &&
            (!HasId(p.nodes[h].attrs) && !f.isCollectable(ctx.item) ==> id == "ID" + f.sha256(ctx.item))
  {
  }

  /** Lines 138-153 when no pooled element has that local name and id: the
      new element is appended with `part="item"`, and the pool is left alone. */
  lemma InsertItemMiss(p: Pass, h: NodeId, ctx: Context, f: Foreign)
    requires Sound(p) && h in p.nodes && h !in p.children && h !in p.pool
    requires p.nodes[h].Element?
    requires Lookup(p.nodes, p.pool, p.nodes[h].localName, ItemId(p.nodes[h].attrs, ctx.item, h, f)).None?
    ensures var d := p.nodes[h];
            var marked := Element(d.localName, SetAttr(WithId(d.attrs, ctx.item, h, f), "part", "item"));
            InsertItem(p, h, ctx, true, f) == Step(Pass(p.nodes[h := marked], p.next, p.children + [h], p.pool), Completed)
  {
    var d := p.nodes[h];
    var nodes1 := p.nodes[h := Element(d.localName, WithId(d.attrs, ctx.item, h, f))];
    var marked := Element(d.localName, SetAttr(WithId(d.attrs, ctx.item, h, f), "part", "item"));
    assert InsertItem(p, h, ctx, true, f) == AppendNew(p, h, MarkPart(nodes1, h)) by {
      LookupFrame(p.nodes, p.pool, h, nodes1[h], d.localName, ItemId(d.attrs, ctx.item, h, f));
      CachedMiss(p, h, ctx, f);
    }
    MarkPartAfterId(p.nodes, h, d.localName, WithId(d.attrs, ctx.item, h, f));
    AppendNewStep(p, h, MarkPart(nodes1, h));
  }

  /** Setting `part` after the id gives the node map with both set at once. */
  lemma MarkPartAfterId(nodes: map<NodeId, NodeData>, h: NodeId, ln: string, attrs: Attrs)
    ensures MarkPart(nodes[h := Element(ln, attrs)], h) == nodes[h := Element(ln, SetAttr(attrs, "part", "item"))]
  {
  }

  /** The step `AppendNew` makes, written out. */
  lemma AppendNewStep(p: Pass, h: NodeId, nodes: map<NodeId, NodeData>)
    requires Sound(p) && h in p.nodes && h !in p.children && h !in p.pool
    requires ChangedAt(p, h, nodes)
    ensures AppendNew(p, h, nodes) == Step(Pass(nodes, p.next, p.children + [h], p.pool), Completed)
  {
  }

  /** The cached branch of `InsertItem` when the query on the pool, made once
      the id is set, finds nothing. */
  lemma CachedMiss(p: Pass, h: NodeId, ctx: Context, f: Foreign)
    requires Sound(p) && h in p.nodes && h !in p.children && h !in p.pool
    requires p.nodes[h].Element?
    ensures var d := p.nodes[h];
            var nodes1 := p.nodes[h := Element(d.localName, WithId(d.attrs, ctx.item, h, f))];
            Lookup(nodes1, p.pool, d.localName, ItemId(d.attrs, ctx.item, h, f)).None? ==>
              InsertItem(p, h, ctx, true, f) == AppendNew(p, h, MarkPart(nodes1, h))
  {
  }

  /** Lines 138-153 when the first pooled element with that local name and id
      is `pool[k]`: it is reconciled with the new element; if that completes,
      that same node is appended in place of the new one, carries
      `part="item"`, and has left the pool, so no later item can match it;
      if it throws, nothing is appended. */
  lemma InsertItemReuse(p: Pass, h: NodeId, ctx: Context, f: Foreign, k: nat)
    requires Sound(p) && h in p.nodes && h !in p.children && h !in p.pool
    requires p.nodes[h].Element?
    requires Lookup(p.nodes, p.pool, p.nodes[h].localName, ItemId(p.nodes[h].attrs, ctx.item, h, f)) == Some(k)
    ensures var r := InsertItem(p, h, ctx, true, f);
            var e := p.pool[k];
            var rec := Reconciler.Reconcile(WithId(p.nodes[h].attrs, ctx.item, h, f), p.nodes[e].attrs);
            r.outcome == rec.outcome &&
            (r.outcome == Completed ==>
               r.pass.children == p.children + [e] && r.pass.pool == Take(p.pool, k) && e !in r.pass.pool &&
               r.pass.nodes[e] == Element(p.nodes[e].localName, SetAttr(rec.attrs, "part", "item")))
  {
    var d := p.nodes[h];
    LookupFrame(p.nodes, p.pool, h, Element(d.localName, WithId(d.attrs, ctx.item, h, f)),
                d.localName, ItemId(d.attrs, ctx.item, h, f));
  }

  /** With well-formed attribute lists, reusing the first matching pooled
      element completes exactly when that element already carries every
      attribute of the new element (its id included) with the same value;
      otherwise the pass throws and nothing is appended. */
  lemma ReuseCompletesIffCovered(p: Pass, h: NodeId, ctx: Context, f: Foreign, k: nat)
    requires Sound(p) && h in p.nodes && h !in p.children && h !in p.pool
    requires p.nodes[h].Element? && WellFormed(p.nodes[h].attrs)
    requires Lookup(p.nodes, p.pool, p.nodes[h].localName, ItemId(p.nodes[h].attrs, ctx.item, h, f)) == Some(k)
    requires WellFormed(p.nodes[p.pool[k]].attrs)
    ensures var r := InsertItem(p, h, ctx, true, f);
            var attrs := WithId(p.nodes[h].attrs, ctx.item, h, f);
            (r.outcome == Completed <==> Reconciler.Covers(p.nodes[p.pool[k]].attrs, attrs)) &&
            (r.outcome.TypeError? ==> r.pass.children == p.children && r.pass.pool == p.pool)
  {
    InsertItemReuse(p, h, ctx, f, k);
    Reconciler.ReconcileOutcome(WithId(p.nodes[h].attrs, ctx.item, h, f), p.nodes[p.pool[k]].attrs);
  }

  /** Changing a node outside the pool does not change what the pool query finds. */
  lemma {:induction false} LookupFrame(nodes: map<NodeId, NodeData>, pool: seq<NodeId>, h: NodeId, d: NodeData,
                                       localName: string, id: string)
    requires h !in pool
    ensures Lookup(nodes[h := d], pool, localName, id) == Lookup(nodes, pool, localName, id)
  {
    if pool != [] {
      LookupFrame(nodes, pool[1..], h, d, localName, id);
    }
  }

  /** Appending a node that is neither a child nor pooled keeps every node once. */
  lemma AddFreshSound(children: seq<NodeId>, pool: seq<NodeId>, h: NodeId)
    requires NoDup(children + pool) && h !in children && h !in pool
    ensures NoDup(children + [h] + pool)
  {
    assert multiset(children + [h] + pool) == multiset(children + pool) + multiset{h};
    forall x | x in children + [h] + pool ensures multiset(children + [h] + pool)[x] <= 1 {
      if x != h {
        assert x in children + pool;
      }
    }
  }

  /** Moving a pooled node to the end of the child list keeps every node once. */
  lemma MoveSound(children: seq<NodeId>, pool: seq<NodeId>, k: nat)
    requires k < |pool| && NoDup(children + pool)
    ensures NoDup(children + [pool[k]] + Take(pool, k))
    ensures multiset(children + [pool[k]] + Take(pool, k)) == multiset(children + pool)
  {
    assert pool == pool[..k] + [pool[k]] + pool[k + 1..];
    assert multiset(children + [pool[k]] + Take(pool, k)) == multiset(children + pool);
  }

  /** What any series of insertions does to a pass `p`, reaching `q`: nodes
      are only added to the document; the children present before stay, in
      front; each added child is a node made during the series or a node taken
      from the pool; the pool only loses nodes, each to the child list; every
      node that is not one of the added children, in the pool or not, is as
      it was. */
  predicate Grows(p: Pass, q: Pass)
  {
    Sound(q) && p.next <= q.next &&
    (forall x :: x in p.nodes ==> x in q.nodes) &&
    |p.children| <= |q.children| && q.children[..|p.children|] == p.children &&
    (forall x :: x in q.children[|p.children|..] ==> x >= p.next || x in p.pool) &&
    (forall x :: x in q.pool ==> x in p.pool) &&
    (forall x :: x in p.pool ==> x in q.pool || x in q.children[|p.children|..]) &&
    (forall x :: x in p.nodes && x !in q.children[|p.children|..] ==> x in q.nodes && q.nodes[x] == p.nodes[x])
  }

  lemma GrowsTransitive(p: Pass, q: Pass, s: Pass)
    requires Grows(p, q) && Grows(q, s)
    ensures Grows(p, s)
  {
    assert s.children[|p.children|..] == q.children[|p.children|..] + s.children[|q.children|..];
  }

  /** `p` with the fresh node `d` made at handle `p.next`. */
  function Alloc(p: Pass, d: NodeData): (q: Pass)
    requires Sound(p)
    ensures Sound(q) && p.next in q.nodes && p.next !in q.children && p.next !in q.pool
  {
    Pass(p.nodes[p.next := d], p.next + 1, p.children, p.pool)
  }

  /** Allocating a node and inserting it is a step of a series. */
  lemma AllocPlacedGrows(p: Pass, d: NodeData, r: Step)
    requires Sound(p) && Placed(Alloc(p, d), p.next, r)
    ensures Grows(p, r.pass) && r.pass.next == p.next + 1
    ensures r.outcome == Completed ==> |r.pass.children| == |p.children| + 1
  {
    var q := Alloc(p, d);
    assert p.nodes.Keys <= r.pass.nodes.Keys;
    assert forall x :: x in p.nodes ==> x != p.next && q.nodes[x] == p.nodes[x];
    if r.outcome.TypeError? {
      assert p.children + [] == p.children;
      GrowsInPlace(p, r.pass, []);
    } else if r.pass.children == p.children + [p.next] && r.pass.pool == p.pool {
      GrowsInPlace(p, r.pass, [p.next]);
    } else {
      var k :| 0 <= k < |p.pool| && MovedFromPool(q, r.pass, k) && Untouched(q, r.pass, p.next, p.pool[k]);
      GrowsByMove(p, r.pass, k);
    }
  }

  /** The pool unchanged and `added`, all new, appended. */
  lemma GrowsInPlace(p: Pass, s: Pass, added: seq<NodeId>)
    requires Sound(p) && Sound(s) && p.next <= s.next && p.nodes.Keys <= s.nodes.Keys
    requires s.children == p.children + added && s.pool == p.pool
    requires forall x :: x in added ==> x >= p.next
    requires forall x :: x in p.nodes ==> s.nodes[x] == p.nodes[x]
    ensures Grows(p, s)
  {
    assert s.children[|p.children|..] == added;
  }

  /** Pooled node `pool[k]` appended. */
  lemma GrowsByMove(p: Pass, s: Pass, k: nat)
    requires Sound(p) && Sound(s) && p.next <= s.next && p.nodes.Keys <= s.nodes.Keys
    requires k < |p.pool| && s.children == p.children + [p.pool[k]] && s.pool == Take(p.pool, k)
    requires forall x :: x in p.nodes && x != p.pool[k] ==> s.nodes[x] == p.nodes[x]
    ensures Grows(p, s)
  {
    assert s.children[|p.children|..] == [p.pool[k]];
    assert p.pool == p.pool[..k] + [p.pool[k]] + p.pool[k + 1..];
    assert forall x :: x in s.pool ==> x in p.pool;
  }

  /** Line 121 or 153 for a node just made from `a`: allocate it, then insert it. */
  function InsertAtom(p: Pass, a: Atom, ctx: Context, caching: bool, f: Foreign): (r: Step)
    requires Sound(p)
    ensures Sound(r.pass) && r.pass.next == p.next + 1
    ensures r.outcome == Completed ==> |r.pass.children| == |p.children| + 1
    ensures a.NewText? ==>
              r == Step(Pass(p.nodes[p.next := TextNode(a.data)], p.next + 1, p.children + [p.next], p.pool), Completed)
  {
    InsertItem(Alloc(p, AtomNode(a)), p.next, ctx, caching, f)
  }

  function AtomNode(a: Atom): NodeData
  {
    match a
    case NewElement(ln, attrs) => Element(ln, attrs)
    case NewText(s) => TextNode(s)
  }

  lemma InsertAtomGrows(p: Pass, a: Atom, ctx: Context, caching: bool, f: Foreign)
    requires Sound(p)
    ensures Grows(p, InsertAtom(p, a, ctx, caching, f).pass)
  {
    AllocPlacedGrows(p, AtomNode(a), InsertItem(Alloc(p, AtomNode(a)), p.next, ctx, caching, f));
  }

  /** The insertions `atoms` calls for, one after the other, up to the first throw. */
  function InsertAtoms(p: Pass, atoms: seq<Atom>, ctx: Context, caching: bool, f: Foreign): (r: Step)
    requires Sound(p)
    ensures Sound(r.pass) && p.next <= r.pass.next <= p.next + |atoms|
    ensures r.outcome == Completed ==> r.pass.next == p.next + |atoms|
    ensures r.outcome == Completed ==> |r.pass.children| == |p.children| + |atoms|
    decreases |atoms|
  {
    if atoms == [] then Step(p, Completed)
    else
      var s := InsertAtoms(p, atoms[..|atoms| - 1], ctx, caching, f);
      if s.outcome.TypeError? then s
      else InsertAtom(s.pass, atoms[|atoms| - 1], ctx, caching, f)
  }

  /** Any series of insertions only grows the pass (see `Grows`). */
  lemma {:induction false} InsertAtomsGrows(p: Pass, atoms: seq<Atom>, ctx: Context, caching: bool, f: Foreign)
    requires Sound(p)
    ensures Grows(p, InsertAtoms(p, atoms, ctx, caching, f).pass)
    decreases |atoms|
  {
    if atoms != [] {
      var s := InsertAtoms(p, atoms[..|atoms| - 1], ctx, caching, f);
      InsertAtomsGrows(p, atoms[..|atoms| - 1], ctx, caching, f);
      if s.outcome == Completed {
        InsertAtomGrows(s.pass, atoms[|atoms| - 1], ctx, caching, f);
        GrowsTransitive(p, s.pass, InsertAtom(s.pass, atoms[|atoms| - 1], ctx, caching, f).pass);
      }
    }
  }

  /** Insertions compose: doing `xs` then `ys` is doing `xs + ys`. */
  lemma {:induction false} InsertAtomsAppend(p: Pass, xs: seq<Atom>, ys: seq<Atom>, ctx: Context, caching: bool, f: Foreign)
    requires Sound(p)
    ensures var s := InsertAtoms(p, xs, ctx, caching, f);
            InsertAtoms(p, xs + ys, ctx, caching, f) ==
              if s.outcome.TypeError? then s else InsertAtoms(s.pass, ys, ctx, caching, f)
    decreases |ys|
  {
    if ys == [] {
      assert xs + ys == xs;
    } else {
      assert (xs + ys)[..|xs + ys| - 1] == xs + ys[..|ys| - 1];
      assert (xs + ys)[|xs + ys| - 1] == ys[|ys| - 1];
      InsertAtomsAppend(p, xs, ys[..|ys| - 1], ctx, caching, f);
    }
  }

  /** The pass `p` after a new text node per atom of `atoms` has been made
      and appended, in order. */
  function AfterTexts(p: Pass, atoms: seq<Atom>): Pass
    requires forall i :: 0 <= i < |atoms| ==> atoms[i].NewText?
  {
    if atoms == [] then p
    else
      var q := AfterTexts(p, atoms[..|atoms| - 1]);
      Pass(q.nodes[q.next := TextNode(atoms[|atoms| - 1].data)], q.next + 1, q.children + [q.next], q.pool)
  }

  /** Text nodes never touch the pool: inserting only text never throws and
      is `AfterTexts`. */
  lemma {:induction false} TextsAppendInOrder(p: Pass, atoms: seq<Atom>, ctx: Context, caching: bool, f: Foreign)
    requires Sound(p)
    requires forall i :: 0 <= i < |atoms| ==> atoms[i].NewText?
    ensures InsertAtoms(p, atoms, ctx, caching, f) == Step(AfterTexts(p, atoms), Completed)
    decreases |atoms|
  {
    if atoms != [] {
      var init := atoms[..|atoms| - 1];
      TextsAppendInOrder(p, init, ctx, caching, f);
      InsertAtomsLast(p, atoms, ctx, caching, f);
      TextAtom(InsertAtoms(p, init, ctx, caching, f).pass, atoms[|atoms| - 1], ctx, caching, f);
    }
  }

  /** The handles `from`, `from + 1`, ..., `from + n - 1`. */
  function Handles(from: NodeId, n: nat): (hs: seq<NodeId>)
    ensures |hs| == n && forall i :: 0 <= i < n ==> hs[i] == from + i
  {
    if n == 0 then [] else Handles(from, n - 1) + [from + n - 1]
  }

  /** The shape of `AfterTexts`: the handles `p.next` onward, in order, appended
      to the child list, each holding its atom's text; the pool and every
      older node as before. */
  lemma {:induction false} AfterTextsShape(p: Pass, atoms: seq<Atom>)
    requires forall i :: 0 <= i < |atoms| ==> atoms[i].NewText?
    ensures var q := AfterTexts(p, atoms);
            q.next == p.next + |atoms| && q.pool == p.pool &&
            q.children == p.children + Handles(p.next, |atoms|) &&
            (forall h :: h in p.nodes && h < p.next ==> h in q.nodes && q.nodes[h] == p.nodes[h]) &&
            (forall h :: p.next <= h < q.next ==> h in q.nodes && q.nodes[h] == TextNode(atoms[h - p.next].data))
    decreases |atoms|
  {
    if atoms != [] {
      var n := |atoms| - 1;
      var init := atoms[..n];
      AfterTextsShape(p, init);
      var q0 := AfterTexts(p, init);
      var q := AfterTexts(p, atoms);
      forall h | p.next <= h < q.next ensures h in q.nodes && q.nodes[h] == TextNode(atoms[h - p.next].data) {
        if h < q0.next {
          assert init[h - p.next] == atoms[h - p.next];
        }
      }
    }
  }

  lemma InsertAtomsLast(p: Pass, atoms: seq<Atom>, ctx: Context, caching: bool, f: Foreign)
    requires Sound(p) && atoms != []
    ensures var s := InsertAtoms(p, atoms[..|atoms| - 1], ctx, caching, f);
            s.outcome == Completed ==>
              InsertAtoms(p, atoms, ctx, caching, f) == InsertAtom(s.pass, atoms[|atoms| - 1], ctx, caching, f)
  {
  }

  lemma TextAtom(p: Pass, a: Atom, ctx: Context, caching: bool, f: Foreign)
    requires Sound(p) && a.NewText?
    ensures var r := InsertAtom(p, a, ctx, caching, f);
            r.outcome == Completed && r.pass.pool == p.pool && r.pass.next == p.next + 1 &&
            r.pass.children == p.children + [p.next] && r.pass.nodes == p.nodes[p.next := TextNode(a.data)]
  {
  }
}
