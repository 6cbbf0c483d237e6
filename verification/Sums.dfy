/** Sums over finite sets, independent of the order in which members are visited. */
module Sums {
  ghost function SumOver<K>(members: set<K>, f: K -> int): int {
    if members == {} then 0 else
      var x :| x in members;
      f(x) + SumOver(members - {x}, f)
  }

  /** Any member may be summed first. */
  lemma {:induction false} SumOverRemove<K>(members: set<K>, x: K, f: K -> int)
    requires x in members
    ensures SumOver(members, f) == f(x) + SumOver(members - {x}, f)
    decreases |members|
  {
    var y :| y in members && SumOver(members, f) == f(y) + SumOver(members - {y}, f);
    if x != y {
      SumOverRemove(members - {y}, x, f);
      SumOverRemove(members - {x}, y, f);
      assert members - {y} - {x} == members - {x} - {y};
    }
  }

  lemma SumOverAdd<K>(members: set<K>, x: K, f: K -> int)
    requires x !in members
    ensures SumOver(members + {x}, f) == SumOver(members, f) + f(x)
  {
    SumOverRemove(members + {x}, x, f);
    assert members + {x} - {x} == members;
  }

  lemma {:induction false} SumOverSame<K>(members: set<K>, f: K -> int, g: K -> int)
    requires forall x :: x in members ==> f(x) == g(x)
    ensures SumOver(members, f) == SumOver(members, g)
    decreases |members|
  {
    if members != {} {
      var x :| x in members;
      SumOverRemove(members, x, f);
      SumOverRemove(members, x, g);
      SumOverSame(members - {x}, f, g);
    }
  }

  lemma {:induction false} SumOverAtMost<K>(members: set<K>, f: K -> int, g: K -> int)
    requires forall x :: x in members ==> f(x) <= g(x)
    ensures SumOver(members, f) <= SumOver(members, g)
    decreases |members|
  {
    if members != {} {
      var x :| x in members;
      SumOverRemove(members, x, f);
      SumOverRemove(members, x, g);
      SumOverAtMost(members - {x}, f, g);
    }
  }

  // ---------------------------------------------------------------- sums over lists

  ghost function SumOf<T>(h: seq<T>, p: T -> bool, value: T -> int): int {
    if h == [] then 0
    else SumOf(h[..|h| - 1], p, value) + (if p(h[|h| - 1]) then value(h[|h| - 1]) else 0)
  }

  lemma SumOfAppend<T>(h: seq<T>, e: T, p: T -> bool, value: T -> int)
    ensures SumOf(h + [e], p, value) == SumOf(h, p, value) + (if p(e) then value(e) else 0)
  {
    assert (h + [e])[..|h|] == h;
  }

  lemma {:induction false} SumOfSame<T>(h: seq<T>, p: T -> bool, q: T -> bool, value: T -> int)
    requires forall e :: e in h ==> p(e) == q(e)
    ensures SumOf(h, p, value) == SumOf(h, q, value)
  {
    if h != [] { SumOfSame(h[..|h| - 1], p, q, value); }
  }

  lemma {:induction false} SumOfSplit<T>(h: seq<T>, whole: T -> bool, p: T -> bool, q: T -> bool, value: T -> int)
    requires forall e :: e in h ==> whole(e) == (p(e) || q(e)) && !(p(e) && q(e))
    ensures SumOf(h, whole, value) == SumOf(h, p, value) + SumOf(h, q, value)
  {
    if h != [] { SumOfSplit(h[..|h| - 1], whole, p, q, value); }
  }

  lemma {:induction false} SumOfNone<T>(h: seq<T>, p: T -> bool, value: T -> int)
    requires forall e :: e in h ==> !p(e)
    ensures SumOf(h, p, value) == 0
  {
    if h != [] { SumOfNone(h[..|h| - 1], p, value); }
  }

  lemma {:induction false} SumOfNatural<T>(h: seq<T>, p: T -> bool, value: T -> int)
    requires forall e :: e in h ==> value(e) >= 0
    ensures SumOf(h, p, value) >= 0
  {
    if h != [] { SumOfNatural(h[..|h| - 1], p, value); }
  }

  lemma {:induction false} SumOfConcat<T>(a: seq<T>, b: seq<T>, p: T -> bool, value: T -> int)
    ensures SumOf(a + b, p, value) == SumOf(a, p, value) + SumOf(b, p, value)
  {
    if b == [] {
      assert a + b == a;
    } else {
      assert a + b == a + b[..|b| - 1] + [b[|b| - 1]];
      SumOfAppend(a + b[..|b| - 1], b[|b| - 1], p, value);
      SumOfConcat(a, b[..|b| - 1], p, value);
    }
  }

  /** A sum over a list depends only on its elements, not on their order. */
  lemma {:induction false} SumOfPermutation<T>(a: seq<T>, b: seq<T>, p: T -> bool, value: T -> int)
    requires multiset(a) == multiset(b)
    ensures SumOf(a, p, value) == SumOf(b, p, value)
    decreases |a|
  {
    if a == [] {
      assert |multiset(b)| == |b|;
    } else {
      var init, e := a[..|a| - 1], a[|a| - 1];
      assert a == init + [e];
      assert e in multiset(b);
      var i :| 0 <= i < |b| && b[i] == e;
      assert b == b[..i] + [e] + b[i + 1..];
      var rest := b[..i] + b[i + 1..];
      assert multiset(init) == multiset(a) - multiset{e};
      assert multiset(rest) == multiset(b) - multiset{e};
      SumOfPermutation(init, rest, p, value);
      SumOfConcat(b[..i], b[i + 1..], p, value);
      SumOfConcat(b[..i] + [e], b[i + 1..], p, value);
      SumOfAppend(b[..i], e, p, value);
    }
  }

  ghost function InKeys<T, K>(p: T -> bool, key: T -> K, keys: set<K>): T -> bool {
    (e: T) => p(e) && key(e) in keys
  }

  ghost function AtKey<T, K>(p: T -> bool, key: T -> K, k: K): T -> bool {
    (e: T) => p(e) && key(e) == k
  }

  /** Adding up per-group sums over a set of groups sums all elements in those groups. */
  lemma {:induction false} SumOfKeys<T, K>(h: seq<T>, p: T -> bool, key: T -> K, keys: set<K>,
      value: T -> int, perKey: K -> int)
    requires forall k :: k in keys ==> perKey(k) == SumOf(h, AtKey(p, key, k), value)
    ensures SumOver(keys, perKey) == SumOf(h, InKeys(p, key, keys), value)
    decreases |keys|
  {
    if keys == {} {
      SumOfNone(h, InKeys(p, key, keys), value);
    } else {
      var k :| k in keys;
      SumOverRemove(keys, k, perKey);
      SumOfKeys(h, p, key, keys - {k}, value, perKey);
      SumOfSplit(h, InKeys(p, key, keys), InKeys(p, key, keys - {k}), AtKey(p, key, k), value);
    }
  }
}
