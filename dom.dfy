/** The slice of the DOM the list renderer relies on: nodes addressed by handle,
    element attributes as an ordered list, and the iteration order of a
    JavaScript `Set` built from a list of attribute names. */
module Dom {

  datatype Option<T> = None | Some(value: T)

  /** A node's identity: two handles are the same node instance iff they are equal. */
  type NodeId = nat

  datatype Attr = Attr(name: string, value: string)

  /** Attributes in the order `getAttributeNames()` reports them. */
  type Attrs = seq<Attr>

  datatype NodeData =
    | Element(localName: string, attrs: Attrs)
    | TextNode(data: string)

  /** What a script call into the DOM ended with: normally, or with the
      TypeError `setAttribute` raises when it is given one argument (the
      attribute being reconciled is recorded). */
  datatype Outcome = Completed | TypeError(attribute: string)

  /** Attribute names are unique on an element. */
  predicate WellFormed(a: Attrs)
  {
    forall i, j :: 0 <= i < j < |a| ==> a[i].name != a[j].name
  }

  /** No value occurs twice in `s`. */
  predicate NoDup<T(==,!new)>(s: seq<T>)
  {
    forall x | x in s :: multiset(s)[x] <= 1
  }

  /** `getAttributeNames()` */
  function Names(a: Attrs): (ns: seq<string>)
    ensures |ns| == |a|
    ensures forall i :: 0 <= i < |a| ==> ns[i] == a[i].name
  {
    seq(|a|, i requires 0 <= i < |a| => a[i].name)
  }

  /** `getAttribute(n)`: the value of the first attribute called `n`, or null. */
  function Get(a: Attrs, n: string): (r: Option<string>)
    ensures r.None? <==> forall i :: 0 <= i < |a| ==> a[i].name != n
    ensures r.Some? ==> exists i :: 0 <= i < |a| && a[i] == Attr(n, r.value)
  {
    if a == [] then None
    else if a[0].name == n then Some(a[0].value)
    else Get(a[1..], n)
  }

  /** `hasAttribute(n)` */
  predicate Has(a: Attrs, n: string)
  {
    Get(a, n).Some?
  }

  /** `setAttribute(n, v)`: an existing attribute changes its value where it
      stands; a new one is added after the others. */
  function SetAttr(a: Attrs, n: string, v: string): (r: Attrs)
    ensures Get(r, n) == Some(v)
    ensures forall m :: m != n ==> Get(r, m) == Get(a, m)
    ensures WellFormed(a) ==> WellFormed(r)
    ensures |r| == if Has(a, n) then |a| else |a| + 1
  {
    if a == [] then [Attr(n, v)]
    else if a[0].name == n then [Attr(n, v)] + a[1..]
    else
      var rest := SetAttr(a[1..], n, v);
      ConsWellFormed(a, rest);
      [a[0]] + rest
  }

  /** `removeAttribute(n)` */
  function RemoveAttr(a: Attrs, n: string): (r: Attrs)
    ensures Get(r, n) == None
    ensures forall m :: m != n ==> Get(r, m) == Get(a, m)
    ensures WellFormed(a) ==> WellFormed(r)
    ensures |r| <= |a|
  {
    if a == [] then []
    else if a[0].name == n then RemoveAttr(a[1..], n)
    else
      var rest := RemoveAttr(a[1..], n);
      ConsWellFormed(a, rest);
      [a[0]] + rest
  }

  /** Putting the first attribute of a well-formed list in front of a
      well-formed list that lacks its name keeps it well-formed. */
  lemma ConsWellFormed(a: Attrs, rest: Attrs)
    requires |a| > 0
    ensures (WellFormed(a) && (WellFormed(a[1..]) ==> WellFormed(rest)) &&
             Get(rest, a[0].name) == Get(a[1..], a[0].name)) ==> WellFormed([a[0]] + rest)
  {
    if WellFormed(a) && (WellFormed(a[1..]) ==> WellFormed(rest)) && Get(rest, a[0].name) == Get(a[1..], a[0].name) {
      assert WellFormed(a[1..]) by {
        forall i, j | 0 <= i < j < |a[1..]| ensures a[1..][i].name != a[1..][j].name {
          assert a[1..][i] == a[i + 1] && a[1..][j] == a[j + 1];
        }
      }
      assert Get(a[1..], a[0].name) == None by {
        forall k | 0 <= k < |a[1..]| ensures a[1..][k].name != a[0].name {
          assert a[1..][k] == a[k + 1];
        }
      }
      var r := [a[0]] + rest;
      forall i, j | 0 <= i < j < |r| ensures r[i].name != r[j].name {
        if i == 0 {
          assert r[j] == rest[j - 1];
        } else {
          assert r[i] == rest[i - 1] && r[j] == rest[j - 1];
        }
      }
    }
  }

  /** The values of a `Set` that starts as `seen` and receives the elements of
      `s` one by one, in the Set's iteration order (first insertion wins). */
  function SetInsertAll(seen: seq<string>, s: seq<string>): (r: seq<string>)
    decreases |s|
  {
    if s == [] then seen
    else SetInsertAll(if s[0] in seen then seen else seen + [s[0]], s[1..])
  }

  /** The elements of `s` that are not in `t`, in the order of `s`. */
  function Without(s: seq<string>, t: seq<string>): seq<string>
  {
    if s == [] then []
    else if s[0] in t then Without(s[1..], t)
    else [s[0]] + Without(s[1..], t)
  }

  lemma {:induction false} SetInsertAllAppend(seen: seq<string>, s: seq<string>, t: seq<string>)
    ensures SetInsertAll(seen, s + t) == SetInsertAll(SetInsertAll(seen, s), t)
    decreases |s|
  {
    if s != [] {
      assert (s + t)[0] == s[0] && (s + t)[1..] == s[1..] + t;
      SetInsertAllAppend(if s[0] in seen then seen else seen + [s[0]], s[1..], t);
    } else {
      assert s + t == t;
    }
  }

  /** Adding `s` to a Set holding `seen` keeps `seen` in front and appends
      only elements of `s` it did not hold; every element of `s` ends up in it. */
  lemma {:induction false} SetInsertAllExtends(seen: seq<string>, s: seq<string>)
    ensures var r := SetInsertAll(seen, s);
            |seen| <= |r| && r[..|seen|] == seen &&
            (forall x :: x in r[|seen|..] ==> x in s && x !in seen) &&
            (forall x :: x in s ==> x in r)
    decreases |s|
  {
    if s != [] {
      var seen' := if s[0] in seen then seen else seen + [s[0]];
      SetInsertAllExtends(seen', s[1..]);
      var r := SetInsertAll(seen, s);
      assert r == SetInsertAll(seen', s[1..]);
      assert seen'[..|seen|] == seen;
      assert r[|seen|..] == seen'[|seen|..] + r[|seen'|..];
      assert s == [s[0]] + s[1..];
      assert s[0] in seen';
    }
  }

  lemma {:induction false} InWithout(s: seq<string>, t: seq<string>, x: string)
    ensures x in Without(s, t) <==> x in s && x !in t
  {
    if s != [] {
      InWithout(s[1..], t, x);
      assert s == [s[0]] + s[1..];
    }
  }

  lemma {:induction false} WithoutExtend(s: seq<string>, t: seq<string>, x: string)
    requires x !in s
    ensures Without(s, t + [x]) == Without(s, t)
  {
    if s != [] {
      WithoutExtend(s[1..], t, x);
    }
  }

  /** Adding a duplicate-free list to a Set adds exactly the elements it did
      not hold yet, in their order. */
  lemma {:induction false} SetInsertAllFresh(seen: seq<string>, s: seq<string>)
    requires NoDup(s)
    ensures SetInsertAll(seen, s) == seen + Without(s, seen)
    decreases |s|
  {
    if s != [] {
      var x, rest := s[0], s[1..];
      assert s == [x] + rest;
      NoDupCons(x, rest);
      if x in seen {
        AddSeen(seen, x, rest);
        SetInsertAllFresh(seen, rest);
      } else {
        AddNew(seen, x, rest);
        SetInsertAllFresh(seen + [x], rest);
        assert (seen + [x]) + Without(rest, seen) == seen + ([x] + Without(rest, seen));
      }
    }
  }

  lemma AddSeen(seen: seq<string>, x: string, rest: seq<string>)
    requires x in seen
    ensures SetInsertAll(seen, [x] + rest) == SetInsertAll(seen, rest)
    ensures Without([x] + rest, seen) == Without(rest, seen)
  {
    assert ([x] + rest)[0] == x && ([x] + rest)[1..] == rest;
  }

  lemma AddNew(seen: seq<string>, x: string, rest: seq<string>)
    requires x !in seen && x !in rest
    ensures SetInsertAll(seen, [x] + rest) == SetInsertAll(seen + [x], rest)
    ensures Without([x] + rest, seen) == [x] + Without(rest, seen)
    ensures Without(rest, seen + [x]) == Without(rest, seen)
  {
    assert ([x] + rest)[0] == x && ([x] + rest)[1..] == rest;
    WithoutExtend(rest, seen, x);
  }

  /** The tail of a duplicate-free list is duplicate-free and lacks its head. */
  lemma NoDupCons<T(!new)>(x: T, rest: seq<T>)
    requires NoDup([x] + rest)
    ensures x !in rest && NoDup(rest)
  {
    var s := [x] + rest;
    assert multiset(s) == multiset{x} + multiset(rest);
    assert x in s;
    forall y | y in rest ensures multiset(rest)[y] <= 1 {
      assert y in s;
    }
  }

  /** The iteration order of `new Set(a.concat(b))` for duplicate-free `a` and
      `b`: all of `a`, then what `b` adds. */
  lemma SetOfConcat(a: seq<string>, b: seq<string>)
    requires NoDup(a) && NoDup(b)
    ensures SetInsertAll([], a + b) == a + Without(b, a)
  {
    SetInsertAllAppend([], a, b);
    SetInsertAllFresh([], a);
    assert Without(a, []) == a by { WithoutNothing(a); }
    assert SetInsertAll([], a) == a;
    SetInsertAllFresh(a, b);
  }

  lemma {:induction false} WithoutNothing(s: seq<string>)
    ensures Without(s, []) == s
  {
    if s != [] {
      WithoutNothing(s[1..]);
    }
  }

  /** A list whose positions hold distinct values has no duplicates. */
  lemma {:induction false} DistinctPositions<T(!new)>(s: seq<T>)
    requires forall i, j :: 0 <= i < j < |s| ==> s[i] != s[j]
    ensures NoDup(s)
  {
    if s != [] {
      var init := s[..|s| - 1];
      DistinctPositions(init);
      assert s == init + [s[|s| - 1]];
      assert s[|s| - 1] !in init by {
        forall k | 0 <= k < |init| ensures init[k] != s[|s| - 1] {
          assert init[k] == s[k];
        }
      }
      forall x ensures multiset(s)[x] <= 1 {
        assert multiset(s) == multiset(init) + multiset{s[|s| - 1]};
        assert multiset(init)[x] <= 1;
      }
    }
  }

  lemma NamesWellFormed(a: Attrs)
    requires WellFormed(a)
    ensures NoDup(Names(a))
  {
    DistinctPositions(Names(a));
  }
}
