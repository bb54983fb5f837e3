/**
 * The registry ordering applied once after loading: a stable sort by Order
 * ascending, then CanBeMultiThreading with true first, then Name ascending
 * (LINQ OrderBy/ThenByDescending/ThenBy, which is stable).
 */
module Ordering {
  import opened Plugins
  import opened Seqs

  /** Ordinal comparison of names, character by character; a proper prefix sorts first. */
  predicate NameLe(a: string, b: string)
    decreases |a|
  {
    a == [] || (b != [] && (a[0] < b[0] || (a[0] == b[0] && NameLe(a[1..], b[1..]))))
  }

  lemma {:induction false} NameLeTotal(a: string, b: string)
    ensures NameLe(a, b) || NameLe(b, a)
    decreases |a|
  {
    if a != [] && b != [] && a[0] == b[0] { NameLeTotal(a[1..], b[1..]); }
  }

  lemma {:induction false} NameLeAntisymmetric(a: string, b: string)
    requires NameLe(a, b) && NameLe(b, a)
    ensures a == b
    decreases |a|
  {
    if a != [] {
      NameLeAntisymmetric(a[1..], b[1..]);
      assert a == [a[0]] + a[1..] && b == [b[0]] + b[1..];
    }
  }

  lemma {:induction false} NameLeTransitive(a: string, b: string, c: string)
    requires NameLe(a, b) && NameLe(b, c)
    ensures NameLe(a, c)
    decreases |a|
  {
    if a != [] && a[0] == b[0] && b[0] == c[0] { NameLeTransitive(a[1..], b[1..], c[1..]); }
  }

  lemma {:induction false} NameLeReflexive(a: string)
    ensures NameLe(a, a)
    decreases |a|
  {
    if a != [] { NameLeReflexive(a[1..]); }
  }

  /** `p` may precede `q` in the ordered registry. */
  predicate KeyLe(p: PluginWrapper, q: PluginWrapper)
  {
    || p.order < q.order
    || (p.order == q.order && p.canBeMultiThreading && !q.canBeMultiThreading)
    || (p.order == q.order && p.canBeMultiThreading == q.canBeMultiThreading && NameLe(p.name, q.name))
  }

  /** `p` and `q` tie on all three sort keys. */
  predicate SameKey(p: PluginWrapper, q: PluginWrapper)
  {
    p.order == q.order && p.canBeMultiThreading == q.canBeMultiThreading && p.name == q.name
  }

  lemma KeyLeTotal(p: PluginWrapper, q: PluginWrapper)
    ensures KeyLe(p, q) || KeyLe(q, p)
  {
    NameLeTotal(p.name, q.name);
  }

  lemma KeyLeTransitive(p: PluginWrapper, q: PluginWrapper, r: PluginWrapper)
    requires KeyLe(p, q) && KeyLe(q, r)
    ensures KeyLe(p, r)
  {
    if p.order == q.order == r.order && p.canBeMultiThreading == q.canBeMultiThreading == r.canBeMultiThreading {
      NameLeTransitive(p.name, q.name, r.name);
    }
  }

  /** The sort key is a total preorder whose ties are exactly the equal keys. */
  lemma KeyTie(p: PluginWrapper, q: PluginWrapper)
    ensures KeyLe(p, q) && KeyLe(q, p) <==> SameKey(p, q)
  {
    if KeyLe(p, q) && KeyLe(q, p) {
      if p.order == q.order && p.canBeMultiThreading == q.canBeMultiThreading {
        NameLeAntisymmetric(p.name, q.name);
      }
    }
    if SameKey(p, q) { NameLeReflexive(p.name); }
  }

  predicate Ordered(ps: seq<PluginWrapper>)
  {
    forall i, j :: 0 <= i < j < |ps| ==> KeyLe(ps[i], ps[j])
  }

  /** The wrappers of `ps` that tie with `k` on the sort key, in their order in `ps`. */
  function WithKey(ps: seq<PluginWrapper>, k: PluginWrapper): (r: seq<PluginWrapper>)
  {
    if ps == [] then []
    else (if SameKey(ps[0], k) then [ps[0]] else []) + WithKey(ps[1..], k)
  }

  /** Places `p` in front of the first wrapper it may precede, so it stays ahead of its ties. */
  function Insert(p: PluginWrapper, ps: seq<PluginWrapper>): (r: seq<PluginWrapper>)
    ensures multiset(r) == multiset(ps) + multiset{p}
  {
    if ps == [] then [p]
    else if KeyLe(p, ps[0]) then [p] + ps
    else
      assert ps == [ps[0]] + ps[1..];
      [ps[0]] + Insert(p, ps[1..])
  }

  lemma {:induction false} InsertOrdered(p: PluginWrapper, ps: seq<PluginWrapper>)
    requires Ordered(ps)
    ensures Ordered(Insert(p, ps))
  {
    var r := Insert(p, ps);
    if ps == [] {
    } else if KeyLe(p, ps[0]) {
      forall i, j | 0 <= i < j < |r| ensures KeyLe(r[i], r[j]) {
        if i == 0 && j > 1 { KeyLeTransitive(p, ps[0], ps[j - 1]); }
      }
    } else {
      var rest := Insert(p, ps[1..]);
      InsertOrdered(p, ps[1..]);
      KeyLeTotal(p, ps[0]);
      assert r == [ps[0]] + rest;
      forall i, j | 0 <= i < j < |r| ensures KeyLe(r[i], r[j]) {
        if i == 0 {
          assert r[j] in multiset(rest);
          assert r[j] == p || r[j] in ps[1..];
        }
      }
    }
  }

  /** Insertion keeps `p` ahead of every wrapper that ties with it. */
  lemma {:induction false} InsertWithKey(p: PluginWrapper, ps: seq<PluginWrapper>, k: PluginWrapper)
    ensures WithKey(Insert(p, ps), k) == WithKey([p] + ps, k)
  {
    if ps != [] && !KeyLe(p, ps[0]) {
      var q := ps[0];
      var rest := Insert(p, ps[1..]);
      var hp := if SameKey(p, k) then [p] else [];
      var hq := if SameKey(q, k) then [q] else [];
      var tail := WithKey(ps[1..], k);
      WithKeyCons(q, rest, k);
      InsertWithKey(p, ps[1..], k);
      WithKeyCons(p, ps[1..], k);
      WithKeyCons(p, ps, k);
      KeyTie(p, q);
      SwapWhenOneEmpty(hp, hq, tail);
    }
  }

  lemma WithKeyCons(x: PluginWrapper, s: seq<PluginWrapper>, k: PluginWrapper)
    ensures WithKey([x] + s, k) == (if SameKey(x, k) then [x] else []) + WithKey(s, k)
  {
    assert ([x] + s)[0] == x && ([x] + s)[1..] == s;
  }

  /** The registry after the ordering pass: each wrapper inserted, in turn from the back, ahead of its ties. */
  function OrderPlugins(ps: seq<PluginWrapper>): (r: seq<PluginWrapper>)
  {
    if ps == [] then [] else Insert(ps[0], OrderPlugins(ps[1..]))
  }

  /**
   * The ordering pass sorts by the three keys, is a permutation of its input, and is
   * stable: the wrappers of each key keep their relative order.
   */
  lemma {:induction false} OrderPluginsSorts(ps: seq<PluginWrapper>)
    ensures Ordered(OrderPlugins(ps))
    ensures multiset(OrderPlugins(ps)) == multiset(ps)
    ensures forall k :: WithKey(OrderPlugins(ps), k) == WithKey(ps, k)
  {
    if ps != [] {
      var rest := OrderPlugins(ps[1..]);
      OrderPluginsSorts(ps[1..]);
      assert ps == [ps[0]] + ps[1..];
      InsertOrdered(ps[0], rest);
      forall k ensures WithKey(OrderPlugins(ps), k) == WithKey(ps, k) {
        InsertWithKey(ps[0], rest, k);
        assert ([ps[0]] + rest)[1..] == rest;
      }
    }
  }

  lemma {:induction false} WithKeyMembers(ps: seq<PluginWrapper>, k: PluginWrapper, z: PluginWrapper)
    requires z in WithKey(ps, k)
    ensures z in ps && SameKey(z, k)
  {
    if ps[0] != z || !SameKey(ps[0], k) { WithKeyMembers(ps[1..], k, z); }
  }

  /** Two ordered arrangements that keep every key's wrappers in the same order are equal. */
  lemma {:induction false} StableArrangementUnique(a: seq<PluginWrapper>, b: seq<PluginWrapper>)
    requires Ordered(a) && Ordered(b)
    requires forall k :: WithKey(a, k) == WithKey(b, k)
    ensures a == b
    decreases |a|
  {
    WithKeyOwnHead(a);
    WithKeyOwnHead(b);
    if a != [] && b != [] {
      SameHead(a, b);
      SameTailKeys(a, b);
      StableArrangementUnique(a[1..], b[1..]);
      assert a == [a[0]] + a[1..] && b == [b[0]] + b[1..];
    }
  }

  lemma WithKeyOwnHead(s: seq<PluginWrapper>)
    ensures s != [] ==> WithKey(s, s[0]) != []
  {
  }

  /** Ordered arrangements with the same wrappers per key start with the same wrapper. */
  lemma SameHead(a: seq<PluginWrapper>, b: seq<PluginWrapper>)
    requires Ordered(a) && Ordered(b) && a != [] && b != []
    requires forall k :: WithKey(a, k) == WithKey(b, k)
    ensures a[0] == b[0]
  {
    var x, y := a[0], b[0];
    assert WithKey(b, x) == WithKey(a, x) == [x] + WithKey(a[1..], x);
    assert WithKey(a, y) == WithKey(b, y) == [y] + WithKey(b[1..], y);
    WithKeyMembers(b, x, x);
    WithKeyMembers(a, y, y);
    var i :| 0 <= i < |a| && a[i] == y;
    var j :| 0 <= j < |b| && b[j] == x;
    if i == 0 || j == 0 { KeyTie(x, x); }
    assert KeyLe(y, x) && KeyLe(x, y);
    KeyTie(x, y);
    assert WithKey(b, x) == [y] + WithKey(b[1..], x);
  }

  /** Dropping a common first wrapper keeps the per-key arrangements equal. */
  lemma SameTailKeys(a: seq<PluginWrapper>, b: seq<PluginWrapper>)
    requires a != [] && b != [] && a[0] == b[0]
    requires forall k :: WithKey(a, k) == WithKey(b, k)
    ensures forall k :: WithKey(a[1..], k) == WithKey(b[1..], k)
  {
    forall k ensures WithKey(a[1..], k) == WithKey(b[1..], k) {
      var head := if SameKey(a[0], k) then [a[0]] else [];
      assert WithKey(a, k) == head + WithKey(a[1..], k);
      assert WithKey(b, k) == head + WithKey(b[1..], k);
      DropCommonPrefix(head, WithKey(a[1..], k), WithKey(b[1..], k));
    }
  }

  /**
   * The ordering pass is determined by its contract: any arrangement that is ordered
   * and keeps each key's wrappers in registry order is the one OrderPlugins returns.
   */
  lemma OrderPluginsUnique(ps: seq<PluginWrapper>, r: seq<PluginWrapper>)
    requires Ordered(r)
    requires forall k :: WithKey(r, k) == WithKey(ps, k)
    ensures r == OrderPlugins(ps)
  {
    OrderPluginsSorts(ps);
    StableArrangementUnique(r, OrderPlugins(ps));
  }

  /** A (order 1, parallel), B (order 1, not parallel) and C (order 0) are ordered C, A, B. */
  lemma OrderScenario()
    ensures
      var a := PluginWrapper(1, "A", 1, true, true, 0);
      var b := PluginWrapper(2, "B", 1, false, true, 0);
      var c := PluginWrapper(3, "C", 0, false, true, 0);
      OrderPlugins([a, b, c]) == [c, a, b]
  {
    var a := PluginWrapper(1, "A", 1, true, true, 0);
    var b := PluginWrapper(2, "B", 1, false, true, 0);
    var c := PluginWrapper(3, "C", 0, false, true, 0);
    assert [a, b, c][1..] == [b, c] && [b, c][1..] == [c];
    assert OrderPlugins([c]) == [c];
    assert Insert(b, [c]) == [c, b];
    assert OrderPlugins([b, c]) == [c, b];
    assert Insert(a, [b]) == [a, b];
    assert Insert(a, [c, b]) == [c, a, b];
  }
}
