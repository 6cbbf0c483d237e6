/** Sorting under a total order, and the order JavaScript's `sort()` uses on strings.
    A sorted list is determined by its multiset of elements, so any correct sort
    gives the list that `Sort` gives. */
module Ordering {

  ghost predicate TotalOrder<T(!new)>(leq: (T, T) -> bool) {
    && (forall x, y :: leq(x, y) || leq(y, x))
    && (forall x, y :: leq(x, y) && leq(y, x) ==> x == y)
    && (forall x, y, z :: leq(x, y) && leq(y, z) ==> leq(x, z))
  }

  ghost predicate Sorted<T>(s: seq<T>, leq: (T, T) -> bool) {
    forall i, j :: 0 <= i < j < |s| ==> leq(s[i], s[j])
  }

  ghost predicate Distinct<T>(s: seq<T>) {
    forall i, j :: 0 <= i < j < |s| ==> s[i] != s[j]
  }

  function Elements<T>(s: seq<T>): set<T> {
    set x | x in s
  }

  /** `list` is the sorted list, without repetition, of exactly the members of `members`. */
  ghost predicate Lists(list: seq<string>, members: set<string>) {
    Sorted(list, StringLeq) && Distinct(list) && Elements(list) == members
  }

  function Insert<T>(x: T, s: seq<T>, leq: (T, T) -> bool): (r: seq<T>)
    ensures multiset(r) == multiset(s) + multiset{x}
    ensures |r| == |s| + 1
  {
    if s == [] || leq(x, s[0]) then
      [x] + s
    else
      assert s == [s[0]] + s[1..];
      [s[0]] + Insert(x, s[1..], leq)
  }

  function Sort<T>(s: seq<T>, leq: (T, T) -> bool): (r: seq<T>)
    ensures multiset(r) == multiset(s)
    ensures |r| == |s|
  {
    if s == [] then [] else
      assert s == [s[0]] + s[1..];
      Insert(s[0], Sort(s[1..], leq), leq)
  }

  lemma {:induction false} InsertSorted<T(!new)>(x: T, s: seq<T>, leq: (T, T) -> bool)
    requires TotalOrder(leq) && Sorted(s, leq)
    ensures Sorted(Insert(x, s, leq), leq)
  {
    if s != [] && !leq(x, s[0]) {
      InsertSorted(x, s[1..], leq);
      var rest := Insert(x, s[1..], leq);
      forall j | 0 <= j < |rest| ensures leq(s[0], rest[j]) {
        assert rest[j] in multiset(rest);
        assert rest[j] == x || rest[j] in s[1..];
      }
    }
  }

  lemma {:induction false} SortSorts<T(!new)>(s: seq<T>, leq: (T, T) -> bool)
    requires TotalOrder(leq)
    ensures Sorted(Sort(s, leq), leq)
  {
    if s != [] {
      SortSorts(s[1..], leq);
      InsertSorted(s[0], Sort(s[1..], leq), leq);
    }
  }

  /** Two sorted lists with the same elements, counted with repetition, are the same list. */
  lemma {:induction false} SortedUnique<T(!new)>(s: seq<T>, t: seq<T>, leq: (T, T) -> bool)
    requires TotalOrder(leq) && Sorted(s, leq) && Sorted(t, leq)
    requires multiset(s) == multiset(t)
    ensures s == t
  {
    hide TotalOrder, Sorted;
    SameLength(s, t);
    if s != [] {
      HeadAndTail(s);
      HeadAndTail(t);
      FirstIsLeast(s, t[0], leq);
      FirstIsLeast(t, s[0], leq);
      Antisymmetric(s[0], t[0], leq);
      SortedTail(s, leq);
      SortedTail(t, leq);
      SortedUnique(s[1..], t[1..], leq);
    }
  }

  lemma SameLength<T>(s: seq<T>, t: seq<T>)
    requires multiset(s) == multiset(t)
    ensures |s| == |t| && forall x :: x in s <==> x in t
  {
    assert |multiset(s)| == |s| && |multiset(t)| == |t|;
    forall x ensures x in s <==> x in t {
      assert x in multiset(s) <==> x in multiset(t);
    }
  }

  lemma HeadAndTail<T>(s: seq<T>)
    requires s != []
    ensures s == [s[0]] + s[1..] && multiset(s[1..]) == multiset(s) - multiset{s[0]}
  {
    assert s == [s[0]] + s[1..];
  }

  lemma FirstIsLeast<T(!new)>(s: seq<T>, x: T, leq: (T, T) -> bool)
    requires TotalOrder(leq) && Sorted(s, leq) && x in s
    ensures leq(s[0], x)
  {
    var i :| 0 <= i < |s| && s[i] == x;
    assert leq(s[i], s[i]);
  }

  lemma Antisymmetric<T(!new)>(x: T, y: T, leq: (T, T) -> bool)
    requires TotalOrder(leq) && leq(x, y) && leq(y, x)
    ensures x == y
  {
  }

  lemma SortedTail<T>(s: seq<T>, leq: (T, T) -> bool)
    requires Sorted(s, leq) && s != []
    ensures Sorted(s[1..], leq)
  {
  }

  lemma {:induction false} DistinctMultiset<T>(s: seq<T>)
    requires Distinct(s)
    ensures multiset(s) == multiset(Elements(s))
    ensures |Elements(s)| == |s|
  {
    if s != [] {
      var rest := s[1..];
      assert s == [s[0]] + rest;
      DistinctMultiset(rest);
      assert Elements(s) == Elements(rest) + {s[0]};
      assert s[0] !in rest;
    }
  }

  lemma DistinctAppend<T>(s: seq<T>, x: T)
    ensures Elements(s + [x]) == Elements(s) + {x}
    ensures Distinct(s) && x !in s ==> Distinct(s + [x])
  {
  }

  lemma InElements<T>(x: T, s: seq<T>)
    ensures x in s <==> x in Elements(s)
  {
  }

  function Without<T(==)>(keys: seq<T>, k: T): seq<T> {
    if keys == [] then [] else Without(keys[..|keys| - 1], k) + (if keys[|keys| - 1] == k then [] else [keys[|keys| - 1]])
  }

  lemma {:induction false} WithoutMembers<T>(keys: seq<T>, k: T)
    requires Distinct(keys)
    ensures Distinct(Without(keys, k)) && Elements(Without(keys, k)) == Elements(keys) - {k}
  {
    if keys != [] {
      var init, last := keys[..|keys| - 1], keys[|keys| - 1];
      WithoutMembers(init, k);
      assert keys == init + [last];
      DistinctAppend(init, last);
      DistinctAppend(Without(init, k), last);
      InElements(last, init);
      InElements(last, Without(init, k));
    }
  }

  lemma DistinctTail<T>(s: seq<T>)
    requires Distinct(s) && s != []
    ensures Distinct(s[1..]) && s[0] !in s[1..]
  {
  }

  lemma DistinctFromMultiset<T>(s: seq<T>)
    requires forall x :: x in multiset(s) ==> multiset(s)[x] == 1
    ensures Distinct(s)
  {
    forall i, j | 0 <= i < j < |s| ensures s[i] != s[j] {
      assert s == s[..i] + [s[i]] + s[i + 1..j] + [s[j]] + s[j + 1..];
      assert multiset(s)[s[i]] >= 1 + multiset{s[j]}[s[i]];
    }
  }

  /** Sorting distinct elements lists each member once. */
  lemma SortOfDistinct(s: seq<string>)
    requires Distinct(s)
    ensures Lists(Sort(s, StringLeq), Elements(s))
  {
    var r := Sort(s, StringLeq);
    StringOrder();
    SortSorts(s, StringLeq);
    DistinctMultiset(s);
    DistinctFromMultiset(r);
    forall x ensures x in Elements(r) <==> x in Elements(s) {
      assert x in r <==> x in multiset(r);
      assert x in s <==> x in multiset(s);
    }
  }

  lemma ListsUnique(s: seq<string>, t: seq<string>, members: set<string>)
    requires Lists(s, members) && Lists(t, members)
    ensures s == t
  {
    StringOrder();
    DistinctMultiset(s);
    DistinctMultiset(t);
    SortedUnique(s, t, StringLeq);
  }

  lemma SortedListExists(members: set<string>)
    ensures exists list :: Lists(list, members)
  {
    if members == {} {
      assert Lists([], members);
    } else {
      var x :| x in members;
      SortedListExists(members - {x});
      var list :| Lists(list, members - {x});
      assert x !in Elements(list);
      SortOfDistinct(list + [x]);
      assert Elements(list + [x]) == Elements(list) + {x};
      assert Lists(Sort(list + [x], StringLeq), members);
    }
  }

  /** The sorted list of a set's members. */
  ghost function SortedList(members: set<string>): seq<string>
    ensures Lists(SortedList(members), members)
  {
    SortedListExists(members);
    var list :| Lists(list, members);
    list
  }

  predicate IntLeq(a: int, b: int) { a <= b }

  lemma IntOrder()
    ensures TotalOrder(IntLeq)
  {
  }

  /** Code-unit order, as JavaScript compares strings. */
  predicate StringLeq(a: string, b: string) {
    if a == "" then true
    else if b == "" then false
    else a[0] < b[0] || (a[0] == b[0] && StringLeq(a[1..], b[1..]))
  }

  lemma {:induction false} StringTotal(a: string, b: string)
    ensures StringLeq(a, b) || StringLeq(b, a)
  {
    if a != "" && b != "" { StringTotal(a[1..], b[1..]); }
  }

  lemma {:induction false} StringAntisymmetric(a: string, b: string)
    requires StringLeq(a, b) && StringLeq(b, a)
    ensures a == b
  {
    if a != "" && b != "" {
      StringAntisymmetric(a[1..], b[1..]);
      assert a == [a[0]] + a[1..] && b == [b[0]] + b[1..];
    }
  }

  lemma {:induction false} StringTransitive(a: string, b: string, c: string)
    requires StringLeq(a, b) && StringLeq(b, c)
    ensures StringLeq(a, c)
  {
    if a != "" && b != "" && c != "" && a[0] == b[0] == c[0] {
      StringTransitive(a[1..], b[1..], c[1..]);
    }
  }

  lemma StringOrder()
    ensures TotalOrder(StringLeq)
  {
    forall a, b ensures StringLeq(a, b) || StringLeq(b, a) { StringTotal(a, b); }
    forall a, b | StringLeq(a, b) && StringLeq(b, a) ensures a == b { StringAntisymmetric(a, b); }
    forall a, b, c | StringLeq(a, b) && StringLeq(b, c) ensures StringLeq(a, c) { StringTransitive(a, b, c); }
  }

  /** Lower-casing of ASCII letters, applied to every address before it is stored. */
  function AsAddress(s: string): (r: string)
    ensures |r| == |s|
    ensures forall i :: 0 <= i < |s| ==> !('A' <= r[i] <= 'Z')
    ensures (forall i :: 0 <= i < |s| ==> !('A' <= s[i] <= 'Z')) ==> r == s
  {
    seq(|s|, i requires 0 <= i < |s| => if 'A' <= s[i] <= 'Z' then s[i] + 32 as char else s[i])
  }

  /** Each capital becomes its own small letter, everything else stays. */
  lemma AddressIsLower(s: string, i: nat, letter: nat)
    requires i < |s| && letter < 26
    ensures s[i] == "ABCDEFGHIJKLMNOPQRSTUVWXYZ"[letter] ==> AsAddress(s)[i] == "abcdefghijklmnopqrstuvwxyz"[letter]
    ensures !('A' <= s[i] <= 'Z') ==> AsAddress(s)[i] == s[i]
  {
  }
}
