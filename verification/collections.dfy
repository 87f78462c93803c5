/**
 * The collection operations the pages use: `Array.prototype.filter`, the
 * counting folds that write `acc[key] = (acc[key] || 0) + d` into a plain
 * object, the sum of such an object's values, and `Object.entries`.
 */
module Collections {

  /** `s.filter(p)`: the elements of `s` that satisfy `p`, in their order. */
  function Filter<T(!new)>(s: seq<T>, p: T -> bool): (r: seq<T>)
    ensures |r| <= |s|
    ensures forall x :: x in r <==> x in s && p(x)
  {
    if |s| == 0 then []
    else
      assert s == [s[0]] + s[1..];
      (if p(s[0]) then [s[0]] else []) + Filter(s[1..], p)
  }

  /** The filter keeps every copy of an element that satisfies `p` and no copy of any other. */
  lemma {:induction false} FilterMultiplicity<T(!new)>(s: seq<T>, p: T -> bool, x: T)
    ensures multiset(Filter(s, p))[x] == if p(x) then multiset(s)[x] else 0
  {
    if |s| > 0 {
      FilterMultiplicity(s[1..], p, x);
      assert s == [s[0]] + s[1..];
    }
  }

  /** Filtering a concatenation filters each part: the order of the kept elements is the original one. */
  lemma {:induction false} FilterAppend<T(!new)>(a: seq<T>, b: seq<T>, p: T -> bool)
    ensures Filter(a + b, p) == Filter(a, p) + Filter(b, p)
  {
    if |a| == 0 {
      assert a + b == b;
    } else {
      assert (a + b)[1..] == a[1..] + b;
      FilterAppend(a[1..], b, p);
    }
  }

  /** Filtering a non-empty sequence: filter all but the last element, then the last one. */
  lemma {:induction false} FilterLast<T(!new)>(s: seq<T>, p: T -> bool)
    requires |s| > 0
    ensures Filter(s, p) == Filter(s[..|s| - 1], p) + (if p(s[|s| - 1]) then [s[|s| - 1]] else [])
  {
    var init, last := s[..|s| - 1], s[|s| - 1];
    assert s == init + [last];
    FilterAppend(init, [last], p);
    assert [last][1..] == [];
  }

  /** A filter that rejects nothing returns its input unchanged. */
  lemma {:induction false} FilterKeepsAll<T(!new)>(s: seq<T>, p: T -> bool)
    requires forall x | x in s :: p(x)
    ensures Filter(s, p) == s
  {
    if |s| > 0 {
      FilterKeepsAll(s[1..], p);
    }
  }

  /** A filter that accepts nothing returns the empty sequence. */
  lemma {:induction false} FilterKeepsNone<T(!new)>(s: seq<T>, p: T -> bool)
    requires forall x | x in s :: !p(x)
    ensures Filter(s, p) == []
  {
    if |s| > 0 {
      FilterKeepsNone(s[1..], p);
    }
  }

  /** Filtering with a weaker predicate first changes nothing. */
  lemma {:induction false} FilterNarrows<T(!new)>(s: seq<T>, p: T -> bool, q: T -> bool)
    requires forall x | x in s :: p(x) ==> q(x)
    ensures Filter(Filter(s, q), p) == Filter(s, p)
  {
    if |s| > 0 {
      var h, t := s[0], s[1..];
      FilterNarrows(t, p, q);
      var kept := if q(h) then [h] else [];
      assert Filter(s, q) == kept + Filter(t, q);
      FilterAppend(kept, Filter(t, q), p);
      assert [h][1..] == [];
      assert Filter(kept, p) == if p(h) then [h] else [];
    }
  }

  /** `acc[k] || 0` for a counting object. */
  function Get(m: map<string, nat>, k: string): nat
  {
    if k in m then m[k] else 0
  }

  /** `acc[k] = (acc[k] || 0) + d`. */
  function Add(m: map<string, nat>, k: string, d: nat): (r: map<string, nat>)
    ensures r.Keys == m.Keys + {k}
    ensures Get(r, k) == Get(m, k) + d
    ensures forall j | j != k :: Get(r, j) == Get(m, j)
  {
    m[k := Get(m, k) + d]
  }

  /** The sum of the values of a counting object, taken in no particular key order. */
  ghost function Total(m: map<string, nat>): nat
  {
    SumOver(m, m.Keys)
  }

  /** The sum of `m`'s values at the keys `ks`. */
  ghost function SumOver(m: map<string, nat>, ks: set<string>): nat
    requires ks <= m.Keys
    decreases ks
  {
    if ks == {} then 0
    else
      var k :| k in ks;
      m[k] + SumOver(m, ks - {k})
  }

  /** The sum does not depend on which key is taken first. */
  lemma SumOverRemove(m: map<string, nat>, ks: set<string>, k: string)
    requires ks <= m.Keys && k in ks
    ensures SumOver(m, ks) == m[k] + SumOver(m, ks - {k})
    decreases ks
  {
    var j :| j in ks && SumOver(m, ks) == m[j] + SumOver(m, ks - {j});
    if j != k {
      SumOverRemove(m, ks - {j}, k);
      SumOverRemove(m, ks - {k}, j);
      assert ks - {j} - {k} == ks - {k} - {j};
    }
  }

  /** Two maps that agree on `ks` have the same sum over `ks`. */
  lemma SumOverAgree(m: map<string, nat>, n: map<string, nat>, ks: set<string>)
    requires ks <= m.Keys && ks <= n.Keys
    requires forall k | k in ks :: m[k] == n[k]
    ensures SumOver(m, ks) == SumOver(n, ks)
    decreases ks
  {
    if ks != {} {
      var k :| k in ks && SumOver(m, ks) == m[k] + SumOver(m, ks - {k});
      SumOverAgree(m, n, ks - {k});
      SumOverRemove(n, ks, k);
    }
  }

  /** Adding `d` to one key adds `d` to the sum. */
  lemma TotalAdd(m: map<string, nat>, k: string, d: nat)
    ensures Total(Add(m, k, d)) == Total(m) + d
  {
    var r := Add(m, k, d);
    SumOverRemove(r, r.Keys, k);
    if k in m {
      SumOverRemove(m, m.Keys, k);
      assert r.Keys - {k} == m.Keys - {k};
      SumOverAgree(r, m, m.Keys - {k});
    } else {
      assert r.Keys - {k} == m.Keys;
      SumOverAgree(r, m, m.Keys);
    }
  }

  /**
   * The keys of a map listed once each, as `Object.keys` lists an object's
   * keys. JavaScript lists them in insertion order; the model claims no order.
   */
  ghost function KeyList<V>(m: map<string, V>): (keys: seq<string>)
    ensures |keys| == |m.Keys|
    ensures forall k | k in keys :: k in m
    ensures forall k | k in m :: k in keys
    ensures forall i, j | 0 <= i < j < |keys| :: keys[i] != keys[j]
  {
    ListOf(m.Keys)
  }

  /** The elements of a finite set, each once, in no particular order. */
  ghost function ListOf(ks: set<string>): (r: seq<string>)
    ensures |r| == |ks|
    ensures forall k | k in r :: k in ks
    ensures forall k | k in ks :: k in r
    ensures forall i, j | 0 <= i < j < |r| :: r[i] != r[j]
    decreases ks
  {
    if ks == {} then []
    else
      var k :| k in ks;
      [k] + ListOf(ks - {k})
  }
}
