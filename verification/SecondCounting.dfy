/** Counting the seconds of a half-open range [from, until) that satisfy a condition. */
module SecondCounting {

  ghost function Count(from: int, until: int, holds: int -> bool): (n: nat)
    ensures n <= if from <= until then until - from else 0
    decreases until - from
  {
    if until <= from then 0
    else Count(from, until - 1, holds) + (if holds(until - 1) then 1 else 0)
  }

  lemma {:induction false} CountSplit(from: int, mid: int, until: int, holds: int -> bool)
    requires from <= mid <= until
    ensures Count(from, until, holds) == Count(from, mid, holds) + Count(mid, until, holds)
    decreases until - mid
  {
    if mid < until { CountSplit(from, mid, until - 1, holds); }
  }

  lemma {:induction false} CountAll(from: int, until: int, holds: int -> bool)
    requires from <= until && forall s :: from <= s < until ==> holds(s)
    ensures Count(from, until, holds) == until - from
    decreases until - from
  {
    if from < until { CountAll(from, until - 1, holds); }
  }

  lemma {:induction false} CountNone(from: int, until: int, holds: int -> bool)
    requires forall s :: from <= s < until ==> !holds(s)
    ensures Count(from, until, holds) == 0
    decreases until - from
  {
    if from < until { CountNone(from, until - 1, holds); }
  }

  lemma {:induction false} CountSame(from: int, until: int, p: int -> bool, q: int -> bool)
    requires forall s :: from <= s < until ==> p(s) == q(s)
    ensures Count(from, until, p) == Count(from, until, q)
    decreases until - from
  {
    if from < until { CountSame(from, until - 1, p, q); }
  }

  lemma {:induction false} CountFewer(from: int, until: int, p: int -> bool, q: int -> bool)
    requires forall s :: from <= s < until && p(s) ==> q(s)
    ensures Count(from, until, p) <= Count(from, until, q)
    decreases until - from
  {
    if from < until { CountFewer(from, until - 1, p, q); }
  }
}
