/** The `mythix-for-each` element (dist/mythix-ui-for-each.js) as an object
    whose methods change its nodes and child list step by step, each proved
    against the functions of `Reconciler`, `Insertion` and `Rendering`. */
module ForEachElement {
  import opened Dom
  import opened Items
  import opened Normalizer
  import opened Insertion
  import opened Results
  import opened Rendering
  import Reconciler

  /** What is assigned to the `items` property (lines 17-23): the very wrapper
      the getter returns, another DynamicProperty (with its current value), or
      any other value. */
  datatype Assignment =
    | StoredWrapper
    | DynamicSource(current: Value)
    | PlainValue(value: Value)

  /** Lines 21-23: a DynamicProperty is unwrapped to its current value. */
  function Unwrap(a: Assignment): Value
    requires !a.StoredWrapper?
  {
    match a
    case DynamicSource(v) => v
    case PlainValue(v) => v
  }

  /** The `change` event of lines 25-28, with the stored value the old
      wrapper held when it was dispatched, the new, unwrapped value, and
      whether the event was created cancelable. */
  datatype ChangeEvent = ChangeEvent(oldValue: Value, value: Value, cancelable: bool)

  /** `defaultPrevented` once the listeners have run, given whether one of
      them called `preventDefault()`: the DOM Standard (section 2.2, the Event
      interface) sets the canceled flag only on a cancelable event. */
  predicate DefaultPrevented(e: ChangeEvent, preventDefaultCalled: bool)
  {
    e.cancelable && preventDefaultCalled
  }

  /** Line 25 as written: `new Event('change')` creates an event that is not
      cancelable. */
  function ChangeEventAsWritten(oldValue: Value, value: Value): ChangeEvent
  {
    ChangeEvent(oldValue, value, false)
  }

  /** The change event the veto at lines 31-32 needs: a cancelable one. */
  function NewChangeEvent(oldValue: Value, value: Value): ChangeEvent
  {
    ChangeEvent(oldValue, value, true)
  }

  /** As written, a listener that calls `preventDefault()` on the event of
      line 25 leaves `defaultPrevented` false, so lines 31-32 never return
      early and every assignment other than the wrapper is committed. */
  lemma ChangeAsWrittenNeverVetoed(oldValue: Value, value: Value, preventDefaultCalled: bool)
    ensures !DefaultPrevented(ChangeEventAsWritten(oldValue, value), preventDefaultCalled)
  {
  }

  /** On the cancelable event the setter uses, `defaultPrevented` holds
      exactly when a listener called `preventDefault()`. */
  lemma CancelableChangeVeto(oldValue: Value, value: Value, preventDefaultCalled: bool)
    ensures DefaultPrevented(NewChangeEvent(oldValue, value), preventDefaultCalled) <==> preventDefaultCalled
    ensures !DefaultPrevented(ChangeEventAsWritten(oldValue, value), true)
  {
  }

  class ForEach {
    /** the document's nodes, by handle */
    var nodes: map<NodeId, NodeData>
    /** the next handle a new node gets */
    var next: NodeId
    /** `childNodes` of the host */
    var children: seq<NodeId>
    /** the host's `cache` attribute */
    var cache: Option<string>
    /** whether `itemTemplate` is set (line 214) */
    var hasTemplate: bool
    /** the value held by the `_items` DynamicProperty (line 15) */
    var items: Value

    predicate Valid()
      reads this`nodes, this`next, this`children
    {
      Sound(Pass(nodes, next, children, []))
    }

    /** `this.getAttribute('cache') !== 'false'` (line 126) */
    function Caching(): bool
      reads this`cache
    {
      cache != Some("false")
    }

    /** `mounted` (lines 11-15): the stored collection starts as an empty array. */
    constructor (nodes0: map<NodeId, NodeData>, next0: NodeId, children0: seq<NodeId>, template: bool, cache0: Option<string>)
      requires Sound(Pass(nodes0, next0, children0, []))
      ensures Valid() && items == ArrayOf([])
      ensures nodes == nodes0 && next == next0 && children == children0 && hasTemplate == template && cache == cache0
    {
      nodes, next, children := nodes0, next0, children0;
      hasTemplate, cache := template, cache0;
      items := ArrayOf([]);
    }

    /** `createTextNode`, or a node the template engine has just built: a new
        node with a handle never used before. */
    method CreateNode(d: NodeData) returns (h: NodeId)
      modifies this`nodes, this`next
      ensures h == old(next) && next == old(next) + 1 && nodes == old(nodes)[h := d]
    {
      h := next;
      nodes := nodes[h := d];
      next := next + 1;
    }

    /** `clearRenderedItems()` (lines 73-79): the children move, first to last,
        into a new fragment, which is returned. */
    method ClearRenderedItems() returns (pool: seq<NodeId>)
      modifies this`children
      ensures pool == old(children) && children == []
    {
      pool := [];
      while |children| > 0
        invariant pool + children == old(children)
        decreases |children|
      {
        pool := pool + [children[0]];
        children := children[1..];
      }
    }

    /** `updateExistingItem(context, item, existing)` (lines 81-97): returns
        `item`, and leaves on `existing` the attributes `Reconcile` gives;
        see `Reconciler.ReconcileOutcome` for what they are. */
    method UpdateExistingItem(item: NodeId, existing: NodeId) returns (r: NodeId, outcome: Outcome)
      requires item in nodes && existing in nodes && item != existing
      requires nodes[item].Element? && nodes[existing].Element?
      modifies this`nodes
      ensures r == item
      ensures var rec := Reconciler.Reconcile(old(nodes)[item].attrs, old(nodes)[existing].attrs);
              outcome == rec.outcome &&
              nodes == old(nodes)[existing := Element(old(nodes)[existing].localName, rec.attrs)]
    {
      r := item;
      outcome := Completed;
      var itemAttrs := nodes[item].attrs;
      var localName := nodes[existing].localName;
      var cur := nodes[existing].attrs;
      var names := Reconciler.AllAttributeNames(itemAttrs, cur);
      ghost var goal := Reconciler.Reconcile(itemAttrs, cur);
      assert nodes == old(nodes)[existing := Element(localName, cur)];
      var i := 0;
      while i < |names|
        invariant 0 <= i <= |names|
        invariant nodes == old(nodes)[existing := Element(localName, cur)]
        invariant Reconciler.ReconcileFrom(names[i..], itemAttrs, cur) == goal
      {
        var name := names[i];
        assert names[i..][0] == name && names[i..][1..] == names[i + 1..];
        if !Has(itemAttrs, name) && Has(cur, name) {
          cur := RemoveAttr(cur, name);
          nodes := nodes[existing := Element(localName, cur)];
          i := i + 1;
          continue;
        }
        if Get(itemAttrs, name) != Get(cur, name) {
          outcome := TypeError(name);
          return;
        }
        i := i + 1;
      }
    }

    /** `insertRenderedItem(context, h)` (lines 103-156) with the render's
        fragment holding `pool`; `rest` is what the fragment holds afterwards
        and `r` the returned node (none for a text node). */
    method InsertRenderedItem(ctx: Context, h: NodeId, pool: seq<NodeId>, f: Foreign)
        returns (r: Option<NodeId>, rest: seq<NodeId>, outcome: Outcome)
      requires Sound(Pass(nodes, next, children, pool)) && h in nodes && h !in children && h !in pool
      modifies this`nodes, this`children
      ensures Step(Pass(nodes, next, children, rest), outcome) == InsertItem(old(Pass(nodes, next, children, pool)), h, ctx, Caching(), f)
      ensures outcome == Completed && r.Some? ==> children == old(children) + [r.value]
      ensures r.None? <==> outcome.TypeError? || old(nodes)[h].TextNode?
    {
      ghost var p := Pass(nodes, next, children, pool);
      var d := nodes[h];
      if d.TextNode? {
        children := children + [h];
        return None, pool, Completed;
      }
      var item := h;
      rest := pool;
      if Caching() {
        var id := ItemId(d.attrs, ctx.item, h, f);
        if !HasId(d.attrs) {
          nodes := nodes[h := Element(d.localName, SetAttr(d.attrs, "id", id))];
        }
        assert nodes == p.nodes[h := Element(d.localName, WithId(d.attrs, ctx.item, h, f))];
        var found := Lookup(nodes, pool, d.localName, id);
        if found.Some? {
          var e := pool[found.value];
          var _, reconciled := UpdateExistingItem(h, e);
          if reconciled.TypeError? {
            return None, pool, reconciled;
          }
          item := e;
          rest := Take(pool, found.value);
        }
      }
      nodes := MarkPart(nodes, item);
      children := children + [item];
      return Some(item), rest, Completed;
    }

    /** `insertRenderedResult(context, result)` (lines 158-211); `rest` is
        what the render's fragment holds afterwards. */
    method InsertRenderedResult(ctx: Context, result: Output, pool: seq<NodeId>, f: Foreign)
        returns (rest: seq<NodeId>, outcome: Outcome)
      requires Sound(Pass(nodes, next, children, pool))
      modifies this`nodes, this`next, this`children
      ensures Step(Pass(nodes, next, children, rest), outcome) == InsertResult(old(Pass(nodes, next, children, pool)), result, ctx, Caching(), f)
      decreases Size(result), 3
    {
      if IsItemEmpty(result) {
        return pool, Completed;
      }
      rest, outcome := InsertElements(ctx, Elements(result), pool, f);
    }

    /** The loop of lines 186-210 over the elements of the result. */
    method InsertElements(ctx: Context, list: seq<Output>, pool: seq<NodeId>, f: Foreign)
        returns (rest: seq<NodeId>, outcome: Outcome)
      requires Sound(Pass(nodes, next, children, pool))
      modifies this`nodes, this`next, this`children
      ensures Step(Pass(nodes, next, children, rest), outcome) == InsertItems(old(Pass(nodes, next, children, pool)), list, 0, ctx, Caching(), f)
      decreases SizeOf(list), 2
    {
      rest := pool;
      ghost var caching := Caching();
      ghost var goal := InsertItems(Pass(nodes, next, children, pool), list, 0, ctx, caching, f);
      var i := 0;
      while i < |list|
        invariant 0 <= i <= |list|
        invariant Caching() == caching
        invariant Sound(Pass(nodes, next, children, rest))
        invariant InsertItems(Pass(nodes, next, children, rest), list, i, ctx, caching, f) == goal
      {
        SizeOfElement(list, i);
        rest, outcome := InsertElement(ctx, list[i], rest, f);
        if outcome.TypeError? {
          assert Step(Pass(nodes, next, children, rest), outcome) == goal;
          return;
        }
        i := i + 1;
      }
      outcome := Completed;
    }

    /** Lines 193, 201, 204-205 or 207-208: a new node for `a` (the template
        engine's element or text node, or a text node made from a value) is
        handed to `insertRenderedItem`. */
    method InsertNew(ctx: Context, a: Atom, pool: seq<NodeId>, f: Foreign) returns (rest: seq<NodeId>, outcome: Outcome)
      requires Sound(Pass(nodes, next, children, pool))
      modifies this`nodes, this`next, this`children
      ensures Step(Pass(nodes, next, children, rest), outcome) == InsertAtom(old(Pass(nodes, next, children, pool)), a, ctx, Caching(), f)
    {
      ghost var p := Pass(nodes, next, children, pool);
      var h := CreateNode(AtomNode(a));
      assert Pass(nodes, next, children, pool) == Alloc(p, AtomNode(a));
      var _, r, o := InsertRenderedItem(ctx, h, pool, f);
      rest, outcome := r, o;
    }

    /** One pass of the loop of lines 186-210: the element `x` of the result. */
    method InsertElement(ctx: Context, x: Output, pool: seq<NodeId>, f: Foreign)
        returns (rest: seq<NodeId>, outcome: Outcome)
      requires Sound(Pass(nodes, next, children, pool))
      modifies this`nodes, this`next, this`children
      ensures Step(Pass(nodes, next, children, rest), outcome) == InsertElem(old(Pass(nodes, next, children, pool)), x, ctx, Caching(), f)
      decreases Size(x), 1
    {
      rest, outcome := pool, Completed;
      if IsItemEmpty(x) {
        return;
      }
      if x.Elem? || x.Frag? || x.Text? || x.OtherNode? {
        if x.Elem? {
          rest, outcome := InsertNew(ctx, NewElement(x.localName, x.attrs), pool, f);
        } else if x.Frag? {
          rest, outcome := InsertFragment(ctx, x.children, pool, f);
        } else if x.Text? {
          rest, outcome := InsertNew(ctx, NewText(x.data), pool, f);
        }
      } else if x.Dyn? {
        rest, outcome := InsertNew(ctx, NewText(x.text), pool, f);
      } else {
        rest, outcome := InsertNew(ctx, NewText(x.text), pool, f);
      }
    }

    /** Lines 194-199: the children of a fragment, each as a result of its own. */
    method InsertFragment(ctx: Context, cs: seq<Output>, pool: seq<NodeId>, f: Foreign)
        returns (rest: seq<NodeId>, outcome: Outcome)
      requires Sound(Pass(nodes, next, children, pool))
      modifies this`nodes, this`next, this`children
      ensures Step(Pass(nodes, next, children, rest), outcome) == InsertFrag(old(Pass(nodes, next, children, pool)), cs, 0, ctx, Caching(), f)
      decreases SizeOf(cs), 4
    {
      rest := pool;
      ghost var caching := Caching();
      ghost var goal := InsertFrag(Pass(nodes, next, children, pool), cs, 0, ctx, caching, f);
      var j := 0;
      while j < |cs|
        invariant 0 <= j <= |cs|
        invariant Caching() == caching
        invariant Sound(Pass(nodes, next, children, rest))
        invariant InsertFrag(Pass(nodes, next, children, rest), cs, j, ctx, caching, f) == goal
      {
        SizeOfElement(cs, j);
        rest, outcome := InsertRenderedResult(ctx, cs[j], rest, f);
        if outcome.TypeError? {
          assert Step(Pass(nodes, next, children, rest), outcome) == goal;
          return;
        }
        j := j + 1;
      }
      outcome := Completed;
    }

    /** `render(items)` (lines 213-251); `leftover` is what the fragment of old
        children holds when the pass ends. */
    method Render(items: Value, hooks: Hooks, f: Foreign) returns (leftover: seq<NodeId>, outcome: Outcome)
      requires Valid()
      modifies this`nodes, this`next, this`children
      ensures Valid()
      ensures Step(Pass(nodes, next, children, leftover), outcome) ==
              RenderPass(old(nodes), old(next), old(children), old(hasTemplate), items, hooks, old(Caching()), f)
    {
      if !hasTemplate {
        return [], Completed;
      }
      ghost var p := Cleared(nodes, next, children);
      leftover := ClearRenderedItems();
      assert Pass(nodes, next, children, leftover) == p;
      if !Truthy(items) {
        return leftover, Completed;
      }
      var entries := NativeEntries(items);
      var forceNumberIndex := ForceNumberIndex(items);
      leftover, outcome := RenderLoop(entries, forceNumberIndex, items, hooks, leftover, f);
      DropPool(Pass(nodes, next, children, leftover));
    }

    /** The loop of lines 232-250 over the entries `entries` of a truthy
        `items`, the fragment holding `pool`; `forceNumberIndex` is line 230. */
    method RenderLoop(entries: seq<(Key, Value)>, forceNumberIndex: bool, items: Value, hooks: Hooks,
                      pool: seq<NodeId>, f: Foreign)
        returns (leftover: seq<NodeId>, outcome: Outcome)
      requires Sound(Pass(nodes, next, children, pool))
      modifies this`nodes, this`next, this`children
      ensures Step(Pass(nodes, next, children, leftover), outcome) ==
              RenderEntries(old(Pass(nodes, next, children, pool)), Keyed(entries, forceNumberIndex), 0, items, hooks, Caching(), f)
    {
      leftover := pool;
      outcome := Completed;
      ghost var es := Keyed(entries, forceNumberIndex);
      ghost var caching := Caching();
      ghost var goal := RenderEntries(Pass(nodes, next, children, pool), es, 0, items, hooks, caching, f);
      var index := 0;
      var i := 0;
      while i < |entries|
        invariant 0 <= i <= |entries|
        invariant forceNumberIndex ==> index == i
        invariant Caching() == caching
        invariant Sound(Pass(nodes, next, children, leftover))
        invariant RenderEntries(Pass(nodes, next, children, leftover), es, i, items, hooks, caching, f) == goal
      {
        var key := entries[i].0;
        var item := entries[i].1;
        if forceNumberIndex {
          key := Index(index);
          index := index + 1;
        }
        var context := Context(key, item, items);
        assert context == Context(es[i].0, es[i].1, items);
        leftover, outcome := RenderEntry(context, hooks, leftover, f);
        if outcome.TypeError? {
          assert Step(Pass(nodes, next, children, leftover), outcome) == goal;
          return;
        }
        i := i + 1;
      }
      outcome := Completed;
    }

    /** Lines 245-249 for one entry's context: the `do` transform, the
        template, and the insertion of what it produced. */
    method RenderEntry(ctx: Context, hooks: Hooks, pool: seq<NodeId>, f: Foreign)
        returns (rest: seq<NodeId>, outcome: Outcome)
      requires Sound(Pass(nodes, next, children, pool))
      modifies this`nodes, this`next, this`children
      ensures Step(Pass(nodes, next, children, rest), outcome) == RenderItem(old(Pass(nodes, next, children, pool)), ctx, hooks, Caching(), f)
    {
      var context := ctx;
      if hooks.doCallback.Some? {
        var item := hooks.doCallback.value(context);
        context := context.(item := item);
      }
      var result := hooks.renderChild(context);
      rest, outcome := InsertRenderedResult(context, result, pool, f);
    }

    /** The `items` setter, `updateAndRender(value)` (lines 17-36), raising
        the cancelable `NewChangeEvent`; `preventDefaultCalled` says whether
        a listener called `preventDefault()` on it. */
    method UpdateAndRender(value: Assignment, preventDefaultCalled: bool, hooks: Hooks, f: Foreign)
        returns (event: Option<ChangeEvent>, leftover: seq<NodeId>, outcome: Outcome)
      requires Valid()
      modifies this`nodes, this`next, this`children, this`items
      ensures Valid()
      // assigning the wrapper itself re-renders the stored value, with no event
      ensures value.StoredWrapper? ==>
                event.None? && items == old(items) &&
                Step(Pass(nodes, next, children, leftover), outcome) ==
                RenderPass(old(nodes), old(next), old(children), hasTemplate, old(items), hooks, Caching(), f)
      // any other value is announced, old and new
      ensures !value.StoredWrapper? ==> event == Some(NewChangeEvent(old(items), Unwrap(value)))
      // a listener's `preventDefault()` keeps the stored value and the children
      ensures !value.StoredWrapper? && preventDefaultCalled ==>
                items == old(items) && nodes == old(nodes) && next == old(next) && children == old(children) &&
                leftover == [] && outcome == Completed
      // otherwise the value is stored, then rendered
      ensures !value.StoredWrapper? && !preventDefaultCalled ==>
                items == Unwrap(value) &&
                Step(Pass(nodes, next, children, leftover), outcome) ==
                RenderPass(old(nodes), old(next), old(children), hasTemplate, Unwrap(value), hooks, Caching(), f)
    {
      if value.StoredWrapper? {
        event := None;
        leftover, outcome := Render(items, hooks, f);
        return;
      }
      var newItems := Unwrap(value);
      event := Some(NewChangeEvent(items, newItems));
      if DefaultPrevented(event.value, preventDefaultCalled) {
        return event, [], Completed;
      }
      items := newItems;
      leftover, outcome := Render(items, hooks, f);
    }
  }

  /** A sound pass is still sound once its pool is dropped. */
  lemma DropPool(p: Pass)
    requires Sound(p)
    ensures Sound(p.(pool := []))
  {
    NoDupPrefix(p.children, p.pool);
    assert p.children + [] == p.children;
  }
}
