/** The attribute reconciler `updateExistingItem` (dist/mythix-ui-for-each.js
    lines 81-97) as a function of the fresh element's attributes and the pooled
    element's attributes.

    The loop visits every name of either element, the fresh element's names
    first. A name the fresh element lacks but the pooled one has is removed
    from the pooled element. For any other name whose two values differ, the
    code calls `setAttribute` with ONE argument, which a DOM rejects with a
    TypeError; nothing in the code catches it. The lemmas below show what this
    means: reconciliation completes exactly when the pooled element already
    carries every attribute of the fresh one with the same value, and when it
    throws, no attribute has been removed yet. */
module Reconciler {
  import opened Dom

  /** The pooled element's attributes after the loop, and how the loop ended. */
  datatype Reconciled = Reconciled(attrs: Attrs, outcome: Outcome)

  /** Line 82: the Set of both elements' attribute names, fresh element first. */
  function AllAttributeNames(item: Attrs, existing: Attrs): seq<string>
  {
    SetInsertAll([], Names(item) + Names(existing))
  }

  /** Lines 83-94 for the names still to visit, the pooled element's
      attributes being `cur`. */
  function ReconcileFrom(names: seq<string>, item: Attrs, cur: Attrs): Reconciled
    decreases |names|
  {
    if names == [] then Reconciled(cur, Completed)
    else
      var n := names[0];
      if !Has(item, n) && Has(cur, n) then ReconcileFrom(names[1..], item, RemoveAttr(cur, n))
      else if Get(item, n) != Get(cur, n) then Reconciled(cur, TypeError(n))
      else ReconcileFrom(names[1..], item, cur)
  }

  /** `updateExistingItem(context, item, existingItem)` on the attributes. */
  function Reconcile(item: Attrs, existing: Attrs): Reconciled
  {
    ReconcileFrom(AllAttributeNames(item, existing), item, existing)
  }

  /** The attributes of `existing` whose names `item` has, in `existing`'s order. */
  function Retain(existing: Attrs, item: Attrs): Attrs
  {
    if existing == [] then []
    else if Has(item, existing[0].name) then [existing[0]] + Retain(existing[1..], item)
    else Retain(existing[1..], item)
  }

  /** The attributes of `a` whose names are not in `ns`, in `a`'s order. */
  function Drop(a: Attrs, ns: seq<string>): Attrs
  {
    if a == [] then []
    else if a[0].name in ns then Drop(a[1..], ns)
    else [a[0]] + Drop(a[1..], ns)
  }

  /** Every name in `ns` has the same value (or none) on both lists. */
  predicate Agree(ns: seq<string>, item: Attrs, cur: Attrs)
  {
    forall k :: 0 <= k < |ns| ==> Get(item, ns[k]) == Get(cur, ns[k])
  }

  /** Every attribute of `item` is on `existing` with the same value. */
  predicate Covers(existing: Attrs, item: Attrs)
  {
    forall i :: 0 <= i < |item| ==> Get(existing, item[i].name) == Some(item[i].value)
  }

  /** The main property: the reconciler completes iff the pooled element
      already has every attribute of the fresh element with the same value;
      when it throws, the pooled element's attributes are untouched; when it
      completes, exactly the pooled attributes the fresh element lacks are
      removed and the others stay where they were. */
  lemma ReconcileOutcome(item: Attrs, existing: Attrs)
    requires WellFormed(item) && WellFormed(existing)
    ensures Reconcile(item, existing).outcome == Completed <==> Covers(existing, item)
    ensures Reconcile(item, existing).outcome.TypeError? ==> Reconcile(item, existing).attrs == existing
    ensures Reconcile(item, existing).outcome == Completed ==>
              Reconcile(item, existing).attrs == Retain(existing, item)
  {
    var ni, ne := Names(item), Names(existing);
    NamesWellFormed(item);
    NamesWellFormed(existing);
    SetOfConcat(ni, ne);
    var stale := Without(ne, ni);
    assert AllAttributeNames(item, existing) == ni + stale;
    forall k | 0 <= k < |ni| ensures Has(item, ni[k]) {
      GetAt(item, k);
    }
    ItemPhase(ni, stale, item, existing);
    assert Agree(ni, item, existing) <==> Covers(existing, item) by {
      forall k | 0 <= k < |ni| ensures Get(item, ni[k]) == Some(item[k].value) {
        GetAt(item, k);
      }
    }
    if Agree(ni, item, existing) {
      forall k | 0 <= k < |stale| ensures !Has(item, stale[k]) {
        assert stale[k] in stale;
        InWithout(ne, ni, stale[k]);
        NamesHas(item, stale[k]);
      }
      StalePhase(stale, item, existing);
      forall k | 0 <= k < |existing| ensures existing[k].name in stale <==> !Has(item, existing[k].name) {
        assert existing[k].name == ne[k] && ne[k] in ne;
        InWithout(ne, ni, existing[k].name);
        NamesHas(item, existing[k].name);
      }
      DropIsRetain(existing, stale, item);
    }
  }

  /** Whatever the attribute lists, a reconciliation that throws has removed
      nothing: the fresh element's names are all visited before any name
      only the pooled element has. */
  lemma ThrowLeavesAttrs(item: Attrs, existing: Attrs)
    ensures Reconcile(item, existing).outcome.TypeError? ==> Reconcile(item, existing).attrs == existing
  {
    var ni, ne := Names(item), Names(existing);
    SetInsertAllAppend([], ni, ne);
    var front := SetInsertAll([], ni);
    SetInsertAllExtends([], ni);
    SetInsertAllExtends(front, ne);
    var all := SetInsertAll(front, ne);
    var back := all[|front|..];
    assert AllAttributeNames(item, existing) == front + back by {
      assert all == all[..|front|] + all[|front|..];
    }
    forall k | 0 <= k < |front| ensures Has(item, front[k]) {
      assert front[k] in front[0..];
      NamesHas(item, front[k]);
    }
    forall k | 0 <= k < |back| ensures !Has(item, back[k]) {
      assert back[k] in back;
      NamesHas(item, back[k]);
    }
    ItemPhase(front, back, item, existing);
    if Agree(front, item, existing) {
      StalePhase(back, item, existing);
    }
  }

  /** After a completed reconciliation the pooled element reads, attribute by
      attribute, exactly like the fresh one. */
  lemma ReconciledAttrsMatch(item: Attrs, existing: Attrs)
    requires WellFormed(item) && WellFormed(existing)
    requires Reconcile(item, existing).outcome == Completed
    ensures forall n :: Get(Reconcile(item, existing).attrs, n) == Get(item, n)
  {
    ReconcileOutcome(item, existing);
    forall n ensures Get(Retain(existing, item), n) == Get(item, n) {
      GetRetain(existing, item, n);
      if Has(item, n) {
        var i :| 0 <= i < |item| && item[i] == Attr(n, Get(item, n).value);
        assert Get(existing, item[i].name) == Some(item[i].value);
      }
    }
  }

  /** The fresh element's names are visited first; none of them is removed,
      and the first whose values differ throws with nothing changed. */
  lemma {:induction false} ItemPhase(ns: seq<string>, rest: seq<string>, item: Attrs, cur: Attrs)
    requires forall k :: 0 <= k < |ns| ==> Has(item, ns[k])
    ensures Agree(ns, item, cur) ==> ReconcileFrom(ns + rest, item, cur) == ReconcileFrom(rest, item, cur)
    ensures !Agree(ns, item, cur) ==>
              ReconcileFrom(ns + rest, item, cur).attrs == cur &&
              ReconcileFrom(ns + rest, item, cur).outcome.TypeError?
    decreases |ns|
  {
    if ns == [] {
      assert ns + rest == rest;
    } else {
      assert (ns + rest)[0] == ns[0] && (ns + rest)[1..] == ns[1..] + rest;
      if Get(item, ns[0]) == Get(cur, ns[0]) {
        ItemPhase(ns[1..], rest, item, cur);
        assert Agree(ns, item, cur) <==> Agree(ns[1..], item, cur) by {
          forall k | 0 <= k < |ns[1..]| ensures ns[1..][k] == ns[k + 1] { }
        }
      }
    }
  }

  /** The names only the pooled element has come last; each is removed. */
  lemma {:induction false} StalePhase(ns: seq<string>, item: Attrs, cur: Attrs)
    requires forall k :: 0 <= k < |ns| ==> !Has(item, ns[k])
    ensures ReconcileFrom(ns, item, cur) == Reconciled(Drop(cur, ns), Completed)
    decreases |ns|
  {
    if ns == [] {
      DropNothing(cur);
    } else {
      var n, rest := ns[0], ns[1..];
      assert ns == [n] + rest;
      assert !Has(item, n);
      assert forall k :: 0 <= k < |rest| ==> !Has(item, rest[k]) by {
        forall k | 0 <= k < |rest| ensures !Has(item, rest[k]) {
          assert rest[k] == ns[k + 1];
        }
      }
      var next := if Has(cur, n) then RemoveAttr(cur, n) else cur;
      if !Has(cur, n) {
        RemoveAbsent(cur, n);
      }
      assert ReconcileFrom(ns, item, cur) == ReconcileFrom(rest, item, next);
      StalePhase(rest, item, next);
      DropRemoved(cur, n, rest);
    }
  }

  lemma {:induction false} DropNothing(a: Attrs)
    ensures Drop(a, []) == a
  {
    if a != [] {
      DropNothing(a[1..]);
    }
  }

  lemma {:induction false} RemoveAbsent(a: Attrs, n: string)
    requires !Has(a, n)
    ensures RemoveAttr(a, n) == a
  {
    if a != [] {
      RemoveAbsent(a[1..], n);
    }
  }

  lemma {:induction false} DropRemoved(a: Attrs, n: string, rest: seq<string>)
    ensures Drop(RemoveAttr(a, n), rest) == Drop(a, [n] + rest)
  {
    if a != [] {
      DropRemoved(a[1..], n, rest);
    }
  }

  lemma {:induction false} DropIsRetain(a: Attrs, ns: seq<string>, item: Attrs)
    requires forall k :: 0 <= k < |a| ==> (a[k].name in ns <==> !Has(item, a[k].name))
    ensures Drop(a, ns) == Retain(a, item)
  {
    if a != [] {
      assert forall k :: 0 <= k < |a[1..]| ==> a[1..][k] == a[k + 1];
      DropIsRetain(a[1..], ns, item);
    }
  }

  lemma {:induction false} GetRetain(existing: Attrs, item: Attrs, n: string)
    ensures Get(Retain(existing, item), n) == if Has(item, n) then Get(existing, n) else None
  {
    if existing != [] {
      GetRetain(existing[1..], item, n);
    }
  }

  /** In a well-formed list the attribute at `i` is the one `getAttribute` finds. */
  lemma {:induction false} GetAt(a: Attrs, i: nat)
    requires WellFormed(a) && i < |a|
    ensures Get(a, a[i].name) == Some(a[i].value)
  {
    if i > 0 {
      assert a[1..][i - 1] == a[i];
      assert WellFormed(a[1..]) by {
        forall p, q | 0 <= p < q < |a[1..]| ensures a[1..][p].name != a[1..][q].name {
          assert a[1..][p] == a[p + 1] && a[1..][q] == a[q + 1];
        }
      }
      GetAt(a[1..], i - 1);
    }
  }

  lemma NamesHas(a: Attrs, n: string)
    ensures n in Names(a) <==> Has(a, n)
  {
    if Has(a, n) {
      var i :| 0 <= i < |a| && a[i].name == n;
      assert Names(a)[i] == n;
    }
  }
}
