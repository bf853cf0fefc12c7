# mythix-for-each: the list renderer, modelled in Dafny

`mythix-for-each` is a custom element that renders one copy of an item template
per entry of a collection and appends the results as its own children. When it
re-renders, the previous children move into a detached pool. Unless the host
has `cache="false"`, each new element keeps its own non-empty `id` or is given
one: "ID" followed by the object id of the new node when the item is
collectable, or by the SHA-256 of the item otherwise. An element in the pool
with the same local name and id is then reused in place of the new one, after
its attributes have been reconciled with the new element's. With
`cache="false"` no id is assigned and nothing is reused.

This project models the render pass of `dist/mythix-ui-for-each.js`:

- the `items` setter (`updateAndRender`) with its change event, modelled as cancelable (see "## Findings");
- `render`, which clears the children into the pool and walks the entries;
- `insertRenderedResult`, which normalises what the template produced: empty
  values, arrays, fragments, text, other nodes, and non-node values;
- `insertRenderedItem`, which handles text, `cache="false"`, ids, the pool
  lookup and reuse;
- `updateExistingItem`, the attribute reconciler;
- `clearRenderedItems`.

The document is a store of nodes addressed by handle, `map<NodeId, NodeData>`.
The element is the class `ForEachElement.ForEach`. Its fields are that store,
the next fresh handle, its child list, its `cache` attribute, whether it has an
item template, and the stored collection. Its methods change these fields step
by step, as the JavaScript does. Each method is proved equal to a function of
the state before the call:

- `Reconciler.Reconcile` for the reconciler;
- `Insertion.InsertItem` for inserting one node;
- `Results.InsertResult` and its helpers for normalising a result;
- `Rendering.RenderPass` for a whole render.

Lemmas about those functions state what the code promises.

Modules, one per file:

| file | module | contents |
|---|---|---|
| dom.dfy | `Dom` | nodes, attribute lists, `getAttribute`/`setAttribute`/`removeAttribute`, the iteration order of a JavaScript `Set` |
| reconciler.dfy | `Reconciler` | `updateExistingItem` on attribute lists |
| items.dfy | `Items` | collection values, their entries, the per-item context |
| normalizer.dfy | `Normalizer` | render outputs and the series of nodes one output inserts |
| insertion.dfy | `Insertion` | a render pass's state, `insertRenderedItem`, series of insertions |
| results.dfy | `Results` | `insertRenderedResult`, following the code's own recursion |
| render.dfy | `Rendering` | `render` over a collection |
| for_each.dfy | `ForEachElement` | the element as a class whose methods update its state |

Two behaviours of the code are easy to miss, and the model keeps them as
written:

- **The reconciler never adds or updates an attribute.** Line 93 calls
  `setAttribute` with one argument. A DOM rejects that call with a TypeError,
  and nothing catches it, so the render pass stops there. This is modelled as
  the outcome `TypeError(name)`, which ends the pass. Because the new element's
  names come first in the `Set`, the throw always happens before any attribute
  is removed. So reuse completes exactly when the pooled element already
  carries every attribute of the new one with the same value
  (`Reconciler.ReconcileOutcome`).
- **No template, no change.** `render` without an item template returns before
  `clearRenderedItems`, so the old children stay attached.

## Model

| member | source | states |
|---|---|---|
| `Dom.Get` | dist/mythix-ui-for-each.js:89-90 | `getAttribute(n)` is null iff no attribute is called `n`; otherwise its value is the value of an attribute called `n` |
| `Dom.SetAttr` | dist/mythix-ui-for-each.js:135 | after `setAttribute(n, v)`, `n` reads `v` and every other name reads as before; names stay unique; the list grows by one only for a new name |
| `Dom.RemoveAttr` | dist/mythix-ui-for-each.js:85 | after `removeAttribute(n)`, `n` reads null and every other name reads as before; names stay unique |
| `Dom.SetOfConcat` | dist/mythix-ui-for-each.js:82 | `new Set(a.concat(b))` over duplicate-free name lists iterates all of `a`, then the names of `b` not in `a`, in order |
| `Dom.SetInsertAllFresh` | dist/mythix-ui-for-each.js:82 | adding a duplicate-free list to a Set appends exactly the elements it did not hold, in their order |
| `Dom.SetInsertAllExtends` | dist/mythix-ui-for-each.js:82 | adding any list to a Set keeps what it held in front and appends only elements of the list it did not hold; every element of the list ends up in it |
| `Dom.NamesWellFormed` | dist/mythix-ui-for-each.js:82 | the attribute names of an element are duplicate-free |
| `Reconciler.ReconcileOutcome` | dist/mythix-ui-for-each.js:81-97 | reconciliation completes iff the pooled element has every attribute of the new element with the same value; when it throws, the pooled attributes are untouched; when it completes, exactly the pooled attributes the new element lacks are removed and the others keep their order |
| `Reconciler.ReconciledAttrsMatch` | dist/mythix-ui-for-each.js:81-97 | after a completed reconciliation, every attribute name reads the same on the pooled element as on the new one |
| `Reconciler.ThrowLeavesAttrs` | dist/mythix-ui-for-each.js:81-97 | for any attribute lists, a reconciliation that throws at line 93 has removed nothing: the pooled attributes are as they were |
| `Reconciler.ItemPhase` | dist/mythix-ui-for-each.js:83-94 | the new element's names, visited first, are never removed; if their values all agree the loop moves on unchanged, otherwise it throws with nothing changed |
| `Reconciler.StalePhase` | dist/mythix-ui-for-each.js:83-87 | names only the pooled element has are each removed, and the loop completes |
| `Reconciler.NamesHas` | dist/mythix-ui-for-each.js:84 | a name is among `getAttributeNames()` iff `hasAttribute` holds for it |
| `ForEachElement.ForEach.UpdateExistingItem` | dist/mythix-ui-for-each.js:81-97 | returns the new element; leaves on the pooled element exactly the attributes `Reconcile` computes, with the same outcome; no other node changes |
| `Items.NativeEntries` | dist/mythix-ui-for-each.js:222-226 | one entry per array element, Map pair, Set member, UTF-16 code unit of a string, or own property; none for other values |
| `Items.EntryKeys` | dist/mythix-ui-for-each.js:222-234 | each entry keeps its native item; strings and Sets are keyed 0, 1, ... in order (a string's items are its one-code-unit strings), and so are arrays; a Map gives one (key, value) entry per pair and a plain object one (name, value) entry per own property, in order |
| `Items.SurrogatePairEntries` | dist/mythix-ui-for-each.js:226-234 | for every surrogate pair (one character outside the Basic Multilingual Plane), the string is walked as two items, its two lone surrogates, keyed 0 and 1 |
| `Normalizer.Elements` | dist/mythix-ui-for-each.js:169-171 | a result that is not an array is treated as a one-element array: the insertions are those of its elements |
| `Normalizer.ItemsAtomsAppend` | dist/mythix-ui-for-each.js:186-210 | the elements of an array result are inserted in array order |
| `Normalizer.FragAtomsAppend` | dist/mythix-ui-for-each.js:194-199 | a fragment's children are inserted depth-first, left to right |
| `Normalizer.ElemAtomsCount` | dist/mythix-ui-for-each.js:186-209 | arrays are flattened one level and fragments fully; empty values and other nodes insert nothing; every value that is neither empty nor a node inserts exactly one text node holding its string |
| `Results.ResultAtoms` | dist/mythix-ui-for-each.js:158-211 | `insertRenderedResult` performs exactly the insertions `Atoms` lists, in that order, up to the first throw |
| `Results.ItemsAtomsOf` | dist/mythix-ui-for-each.js:186-210 | the loop over the result's elements from any index on inserts what those elements list, in order |
| `Results.ElemAtomsOf` | dist/mythix-ui-for-each.js:187-209 | one element of the loop inserts what `ElemAtoms` lists for it |
| `Results.FragAtomsOf` | dist/mythix-ui-for-each.js:194-199 | the loop over a fragment's children from any index on inserts what those children list, depth-first |
| `Results.EmptyInsertsNothing` | dist/mythix-ui-for-each.js:159-167 | an empty result, an empty element, or a node that is not an element, text or fragment changes nothing and completes |
| `Results.ValueBecomesText` | dist/mythix-ui-for-each.js:203-209 | a DynamicProperty, nested array or primitive becomes exactly one new text node holding its string, appended as the last child; nothing else changes |
| `Insertion.Lookup` | dist/mythix-ui-for-each.js:138 | the pool query finds the first pooled element with that local name and id; no earlier pooled node matches, and none matches when nothing is found |
| `Insertion.AppendNew` | dist/mythix-ui-for-each.js:153 | the new node is appended as the last child; the pool is unchanged |
| `Insertion.MoveFromPool` | dist/mythix-ui-for-each.js:142-153 | the pooled element leaves the pool, becomes the last child and is marked `part="item"` |
| `Insertion.ReuseFound` | dist/mythix-ui-for-each.js:138-153 | with a pooled match, the outcome is the reconciler's; on completion the matched node carries the reconciled attributes plus `part="item"` and has moved from the pool to the end of the children |
| `Insertion.InsertItem` | dist/mythix-ui-for-each.js:103-156 | one insertion keeps the pass sound and its handles; a throw appends nothing, leaves the pool alone and changes no node but the new one; otherwise exactly one node is appended: the new node, with no other node changed, or a pooled node that leaves the pool, with no node changed but the new one and that one |
| `Insertion.InsertItemText` | dist/mythix-ui-for-each.js:118-124 | a text node is appended as it is: no id, no `part`, no pool lookup |
| `Insertion.InsertItemUncached` | dist/mythix-ui-for-each.js:126-153 | with `cache="false"` an element gets no id, is not looked up, and is appended with `part="item"` |
| `Insertion.InsertItemId` | dist/mythix-ui-for-each.js:131-136 | with caching on, the new element carries an id: its own non-empty id unchanged, or else "ID" followed by the new node's object id when the item is collectable, or by the item's SHA-256 otherwise |
| `Insertion.InsertItemMiss` | dist/mythix-ui-for-each.js:138-153 | when no pooled element matches, the new element, carrying its id and `part="item"`, is appended; the pool and every other node are unchanged |
| `Insertion.InsertItemReuse` | dist/mythix-ui-for-each.js:138-153 | when pooled element `k` matches, it is reconciled with the new element; on completion that node replaces the new one as the last child, carries `part="item"` and has left the pool; on a throw nothing is appended |
| `Insertion.ReuseCompletesIffCovered` | dist/mythix-ui-for-each.js:138-153 | for well-formed elements, reusing the matching pooled element completes iff it already has every attribute of the new element, id included, with the same value; otherwise the pass throws and nothing is appended |
| `Insertion.LookupFrame` | dist/mythix-ui-for-each.js:135-138 | setting the new node's id does not change what the pool query finds |
| `Insertion.AddFreshSound` | dist/mythix-ui-for-each.js:121 | appending a node that is neither a child nor pooled keeps every node in one place at most |
| `Insertion.MoveSound` | dist/mythix-ui-for-each.js:153 | appending a pooled node (which removes it from the fragment) keeps every node in one place at most |
| `Insertion.InsertAtom` | dist/mythix-ui-for-each.js:204-208 | inserting a node just made uses one fresh handle and appends one child on completion; a text node is appended with nothing else changed |
| `Insertion.InsertAtoms` | dist/mythix-ui-for-each.js:186-210 | a series of insertions uses at most one fresh handle per node, and appends exactly one child per node when it completes |
| `Insertion.InsertAtomsGrows` | dist/mythix-ui-for-each.js:103-156 | a series of insertions only grows the pass: earlier children stay in front; each new child is fresh or from the pool; the pool only loses nodes, each to the children; every node that is not one of the added children, pooled or not, keeps its data |
| `Insertion.InsertAtomsAppend` | dist/mythix-ui-for-each.js:186-210 | insertions compose in order, and nothing after a throw is inserted |
| `Insertion.TextsAppendInOrder` | dist/mythix-ui-for-each.js:118-124 | inserting only text nodes never throws and appends them in order |
| `Insertion.AfterTextsShape` | dist/mythix-ui-for-each.js:118-124 | after text insertions, the fresh handles are appended in order, each holding its text; the pool and older nodes are unchanged |
| `Insertion.GrowsTransitive` | dist/mythix-ui-for-each.js:186-210 | growth of the pass is transitive across successive insertions |
| `Insertion.AllocPlacedGrows` | dist/mythix-ui-for-each.js:204-208 | making a node and inserting it grows the pass and adds one child on completion |
| `Insertion.InsertAtomGrows` | dist/mythix-ui-for-each.js:204-208 | one insertion of a node just made grows the pass |
| `Insertion.TextAtom` | dist/mythix-ui-for-each.js:204-208 | a new text node is appended as the last child with the pool unchanged |
| `Rendering.RenderWithoutTemplate` | dist/mythix-ui-for-each.js:213-216 | without an item template `render` changes nothing |
| `Rendering.RenderFalsyItems` | dist/mythix-ui-for-each.js:218-220 | with a template and a falsy collection, the host ends with no children and every old child is in the pool |
| `Rendering.RenderReuse` | dist/mythix-ui-for-each.js:213-251 | after a render, each child is new or an old child; no child appears twice; pooled leftovers are old children that are not re-attached and keep their data; old non-children are untouched |
| `Rendering.RenderEntriesGrows` | dist/mythix-ui-for-each.js:232-250 | the render loop only grows the pass, however it ends |
| `ForEachElement.ForEach.constructor` | dist/mythix-ui-for-each.js:11-15 | the stored collection starts as an empty array; nodes, children, template and `cache` are as given |
| `ForEachElement.ForEach.CreateNode` | dist/mythix-ui-for-each.js:207 | a new node gets a handle never used before; no other node changes |
| `ForEachElement.ForEach.ClearRenderedItems` | dist/mythix-ui-for-each.js:73-79 | the returned fragment holds the old children in order, and the host has none |
| `ForEachElement.ForEach.InsertRenderedItem` | dist/mythix-ui-for-each.js:103-156 | the new state and outcome are `InsertItem` of the old; the returned node is the one appended, and is absent only for a text node or a throw |
| `ForEachElement.ForEach.InsertRenderedResult` | dist/mythix-ui-for-each.js:158-211 | the new state and outcome are `InsertResult` of the old |
| `ForEachElement.ForEach.InsertElements` | dist/mythix-ui-for-each.js:186-210 | the loop over the elements computes `InsertItems` of the old state |
| `ForEachElement.ForEach.InsertElement` | dist/mythix-ui-for-each.js:187-209 | one pass of that loop computes `InsertElem` of the old state |
| `ForEachElement.ForEach.InsertNew` | dist/mythix-ui-for-each.js:204-208 | making a node and handing it to `insertRenderedItem` computes `InsertAtom` of the old state |
| `ForEachElement.ForEach.InsertFragment` | dist/mythix-ui-for-each.js:194-199 | the loop over a fragment's children computes `InsertFrag` of the old state |
| `ForEachElement.ForEach.Render` | dist/mythix-ui-for-each.js:213-251 | the new state, the pool's leftover and the outcome are `RenderPass` of the old state; the element stays sound |
| `ForEachElement.ForEach.RenderLoop` | dist/mythix-ui-for-each.js:229-250 | the entry loop, with strings and Sets re-keyed by a counter, computes `RenderEntries` of the old state |
| `ForEachElement.ForEach.RenderEntry` | dist/mythix-ui-for-each.js:245-249 | transform, template and insertion for one entry compute `RenderItem` of the old state |
| `ForEachElement.ForEach.UpdateAndRender` | dist/mythix-ui-for-each.js:17-36 | assigning the wrapper itself re-renders the stored value with no event; any other assignment fires a cancelable event carrying the old and new values; if a listener calls `preventDefault()` the value and the document are unchanged; otherwise the unwrapped value is stored and rendered |
| `ForEachElement.ChangeAsWrittenNeverVetoed` | dist/mythix-ui-for-each.js:25-32 | the event of line 25 as written is not cancelable, so `defaultPrevented` stays false whatever the listeners do and lines 31-32 never return |
| `ForEachElement.CancelableChangeVeto` | dist/mythix-ui-for-each.js:25-32 | on a cancelable change event `defaultPrevented` holds exactly when a listener called `preventDefault()`, which the early return at lines 31-32 relies on |
| `ForEachElement.DropPool` | dist/mythix-ui-for-each.js:218-250 | dropping the fragment's leftovers at the end of a render keeps the element sound |

## Left out

- `querySelector` on the pool (line 138) searches the fragment's whole subtree. The model searches only the pool's top-level nodes, so a matching element nested inside an earlier rendered node is not found.
- Insertion.Lookup: ids are matched exactly. An id that is not a valid CSS identifier, where the real selector would throw or match something else, is not modelled.
- The `item:rendered` event (lines 109-116, 119, 151) is not modelled: it has no effect on the children. Listener side effects are out of scope.
- The change event's dispatch (lines 25-31) is reduced to whether a listener called `preventDefault()`, a boolean parameter. The event is returned as a value.
- ForEachElement.ForEach.UpdateAndRender: the event line 25 creates is not cancelable, so as written `defaultPrevented` stays false and every assignment other than the wrapper is stored and rendered. The method models the cancelable event that lines 31-32 expect; the as-written behaviour is `ForEachElement.ChangeAsWrittenNeverVetoed` (see "## Findings").
- ForEachElement.ForEach.UpdateAndRender: the event's `oldValue` is the DynamicProperty wrapper (`this.items`). The model records the value that wrapper held when the event was dispatched.
- `Utils.metadata` (lines 106-107, 176-177) is not modelled: it stores the context on a node and does not affect rendering.
- `registerForUpdate` (lines 179-181) is not modelled: it updates text nodes live after the render.
- The template engine is not modelled: `renderChild` (lines 253-262), `processElements`, `createScope`, `createTemplateMacro`, and `cloneNode` of the template. `renderChild` and the compiled `do` callback are function parameters (`Rendering.Hooks`). Their output is a value in which every node is new.
- `Utils.isCollectable`, `Utils.SHA256`, `Utils.getObjectID` and `Utils.isType` are not modelled. The first three are uninterpreted function parameters (`Insertion.Foreign`); type tests are the constructors of `Normalizer.Output` and `Items.Value`.
- `Utils.DynamicProperty` is reduced to its current value: the string it converts to, and the value it unwraps to.
- Lifecycle and wiring are left out: `mounted`'s capture of pre-mount items and of the item template (lines 14, 38-58), `setItemTemplate` (61-67), `onOfChange` (69-71), the `do` and `of` attribute setters (264-287), `createShadowDOM`, `metadataKey` and registration.
- Re-entrancy is not modelled. This covers a listener, the `do` callback or the template engine changing the element during a render. The `cache` attribute is taken to be constant during one render.
- JavaScript's string conversion of values is not computed; a value's string is carried as data. So the TypeError that the fallback `'' + item` at line 207 throws for a value with no string conversion (such as `Object.create(null)`), or a throwing `toString`, is not modelled.
- Falsy values other than the empty string are one constructor. `Object.entries` keys of plain objects are given as property names.
- Fragments are sequences of outputs. A node that the template engine returns and that is already in the document is not modelled.
- Elements carry a local name and attributes but no child nodes. When a pooled element is reused (lines 141-153), the code appends it with its old subtree and discards the new element with its freshly rendered content, so a reused item keeps stale descendants when only its children changed; the model cannot express this.

## Findings

| source | as written | input that shows it | evidently intended | confidence | as-written member | corrected member |
|---|---|---|---|---|---|---|
| dist/mythix-ui-for-each.js:25 | the change event is created without `cancelable: true`, so `preventDefault()` has no effect on it and `defaultPrevented` at line 31 is always false | assigning any value other than the wrapper while a `change` listener calls `preventDefault()`: the value is still stored and rendered | a cancelable event, so that a listener's `preventDefault()` leaves the stored value and the children unchanged (the early return at lines 31-32) | not executed; follows from the DOM Standard's definition of `preventDefault()` | `ForEachElement.ChangeAsWrittenNeverVetoed` | `ForEachElement.CancelableChangeVeto` |
