/** Sums over the rows of a table. A table is a bag; its rows are kept in a sequence. */
module Sums {

  function Sum<T>(rows: seq<T>, f: T -> real): real {
    if rows == [] then 0.0 else f(rows[0]) + Sum(rows[1..], f)
  }

  function Filter<T>(rows: seq<T>, p: T -> bool): (kept: seq<T>)
    ensures forall r | r in kept :: r in rows && p(r)
    ensures forall r | r in rows && p(r) :: r in kept
  {
    if rows == [] then []
    else (if p(rows[0]) then [rows[0]] else []) + Filter(rows[1..], p)
  }

  function Map<S, T>(rows: seq<S>, m: S -> T): (mapped: seq<T>)
    ensures |mapped| == |rows| && forall i | 0 <= i < |rows| :: mapped[i] == m(rows[i])
  {
    seq(|rows|, i requires 0 <= i < |rows| => m(rows[i]))
  }

  predicate Distinct<T(==)>(rows: seq<T>) {
    forall i, j | 0 <= i < j < |rows| :: rows[i] != rows[j]
  }

  lemma {:induction false} SumAppend<T>(a: seq<T>, b: seq<T>, f: T -> real)
    ensures Sum(a + b, f) == Sum(a, f) + Sum(b, f)
  {
    if a == [] {
      assert a + b == b;
    } else {
      assert (a + b)[1..] == a[1..] + b;
      SumAppend(a[1..], b, f);
    }
  }

  lemma {:induction false} SumCongruence<T>(rows: seq<T>, f: T -> real, g: T -> real)
    requires forall r | r in rows :: f(r) == g(r)
    ensures Sum(rows, f) == Sum(rows, g)
  {
    if rows != [] {
      SumCongruence(rows[1..], f, g);
    }
  }

  lemma {:induction false} SumPlus<T>(rows: seq<T>, f: T -> real, g: T -> real, h: T -> real)
    requires forall r | r in rows :: h(r) == f(r) + g(r)
    ensures Sum(rows, h) == Sum(rows, f) + Sum(rows, g)
  {
    if rows != [] {
      SumPlus(rows[1..], f, g, h);
    }
  }

  lemma {:induction false} SumFilter<T>(rows: seq<T>, p: T -> bool, f: T -> real, h: T -> real)
    requires forall r | r in rows :: h(r) == if p(r) then f(r) else 0.0
    ensures Sum(Filter(rows, p), f) == Sum(rows, h)
  {
    if rows != [] {
      SumFilter(rows[1..], p, f, h);
      assert rows[0] in rows;
      SumAppend(if p(rows[0]) then [rows[0]] else [], Filter(rows[1..], p), f);
    }
  }

  lemma {:induction false} SumMap<S, T>(rows: seq<S>, m: S -> T, f: T -> real, h: S -> real)
    requires forall r | r in rows :: h(r) == f(m(r))
    ensures Sum(Map(rows, m), f) == Sum(rows, h)
  {
    if rows != [] {
      assert Map(rows, m)[1..] == Map(rows[1..], m);
      SumMap(rows[1..], m, f, h);
    }
  }

  lemma {:induction false} SumZero<T>(rows: seq<T>, f: T -> real)
    requires forall r | r in rows :: f(r) == 0.0
    ensures Sum(rows, f) == 0.0
  {
    if rows != [] {
      SumZero(rows[1..], f);
    }
  }

  lemma {:induction false} SumMonotone<T>(rows: seq<T>, f: T -> real, g: T -> real)
    requires forall r | r in rows :: f(r) <= g(r)
    ensures Sum(rows, f) <= Sum(rows, g)
  {
    if rows != [] {
      SumMonotone(rows[1..], f, g);
    }
  }

  /** When one summand never exceeds the other, the sums are equal only if every row agrees. */
  lemma {:induction false} SumEqualIff<T>(rows: seq<T>, f: T -> real, g: T -> real)
    requires forall r | r in rows :: f(r) <= g(r)
    ensures Sum(rows, f) == Sum(rows, g) <==> forall r | r in rows :: f(r) == g(r)
  {
    if rows != [] {
      SumEqualIff(rows[1..], f, g);
      SumMonotone(rows[1..], f, g);
      assert forall r :: r in rows <==> r == rows[0] || r in rows[1..];
    }
  }

  lemma {:induction false} FilterAppend<T>(a: seq<T>, b: seq<T>, p: T -> bool)
    ensures Filter(a + b, p) == Filter(a, p) + Filter(b, p)
  {
    if a == [] {
      assert a + b == b;
    } else {
      assert (a + b)[1..] == a[1..] + b;
      FilterAppend(a[1..], b, p);
    }
  }

  lemma {:induction false} FilterFilter<T>(rows: seq<T>, p: T -> bool, q: T -> bool, both: T -> bool)
    requires forall r | r in rows :: both(r) <==> p(r) && q(r)
    ensures Filter(Filter(rows, p), q) == Filter(rows, both)
  {
    if rows != [] {
      FilterFilter(rows[1..], p, q, both);
      var rest := Filter(rows[1..], p);
      FilterAppend(if p(rows[0]) then [rows[0]] else [], rest, q);
    }
  }

  /** The sum of a column that only one row has. */
  lemma {:induction false} OnlyRow<T>(rows: seq<T>, i: int, f: T -> real)
    requires 0 <= i < |rows| && forall j | 0 <= j < |rows| && j != i :: f(rows[j]) == 0.0
    ensures Sum(rows, f) == f(rows[i])
  {
    if i == 0 {
      forall r | r in rows[1..] ensures f(r) == 0.0 {
        var j :| 0 <= j < |rows[1..]| && rows[1..][j] == r;
        assert rows[j + 1] == r;
      }
      SumZero(rows[1..], f);
    } else {
      OnlyRow(rows[1..], i - 1, f);
    }
  }

  lemma {:induction false} FilterCongruence<T>(rows: seq<T>, p: T -> bool, q: T -> bool)
    requires forall r | r in rows :: p(r) == q(r)
    ensures Filter(rows, p) == Filter(rows, q)
  {
    if rows != [] {
      FilterCongruence(rows[1..], p, q);
    }
  }

  /** The tables `part(0)`, ..., `part(n - 1)` appended. */
  function Concat<T>(part: int -> seq<T>, n: nat): seq<T> {
    if n == 0 then [] else Concat(part, n - 1) + part(n - 1)
  }

  function SumTo(s: int -> real, n: nat): real {
    if n == 0 then 0.0 else SumTo(s, n - 1) + s(n - 1)
  }

  lemma {:induction false} SumConcat<T>(part: int -> seq<T>, n: nat, f: T -> real, s: int -> real)
    requires forall i | 0 <= i < n :: s(i) == Sum(part(i), f)
    ensures Sum(Concat(part, n), f) == SumTo(s, n)
  {
    if n > 0 {
      SumConcat(part, n - 1, f, s);
      SumAppend(Concat(part, n - 1), part(n - 1), f);
    }
  }

  lemma {:induction false} InConcat<T>(part: int -> seq<T>, n: nat, r: T) returns (i: int)
    requires r in Concat(part, n)
    ensures 0 <= i < n && r in part(i)
  {
    if r in part(n - 1) {
      i := n - 1;
    } else {
      i := InConcat(part, n - 1, r);
    }
  }

  lemma {:induction false} PartOfConcat<T>(part: int -> seq<T>, n: nat, i: int)
    requires 0 <= i < n
    ensures forall r | r in part(i) :: r in Concat(part, n)
  {
    if i < n - 1 {
      PartOfConcat(part, n - 1, i);
    }
  }

  /** `x` counted `n` times. */
  function Times(x: real, n: nat): real {
    if n == 0 then 0.0 else x + Times(x, n - 1)
  }

  lemma TimesOnce(x: real)
    ensures Times(x, 0) == 0.0 && Times(x, 1) == x
  {
  }

  lemma {:induction false} TimesProduct(x: real, n: nat)
    ensures Times(x, n) == x * (n as real)
  {
    if n > 0 {
      TimesProduct(x, n - 1);
      assert (n - 1) as real == n as real - 1.0;
    }
  }

  lemma {:induction false} TimesPlus(x: real, y: real, n: nat)
    ensures Times(x + y, n) == Times(x, n) + Times(y, n)
  {
    if n > 0 {
      TimesPlus(x, y, n - 1);
    }
  }

  lemma {:induction false} TimesZero(n: nat)
    ensures Times(0.0, n) == 0.0
  {
    if n > 0 {
      TimesZero(n - 1);
    }
  }

  /** Counting a non-negative amount more than once shows unless it is zero. */
  lemma {:induction false} TimesAtLeast(x: real, n: nat)
    requires x >= 0.0 && n >= 1
    ensures x <= Times(x, n)
    ensures Times(x, n) == x <==> x == 0.0 || n == 1
  {
    if n > 1 {
      TimesAtLeast(x, n - 1);
    }
  }

  lemma {:induction false} SumTimes<T>(rows: seq<T>, n: nat, f: T -> real, h: T -> real)
    requires forall r | r in rows :: h(r) == Times(f(r), n)
    ensures Sum(rows, h) == Times(Sum(rows, f), n)
  {
    if rows == [] {
      TimesZero(n);
    } else {
      SumTimes(rows[1..], n, f, h);
      TimesPlus(f(rows[0]), Sum(rows[1..], f), n);
    }
  }

  /** How often a row on the right is matched from the left. */
  function Matched<L, R>(left: seq<L>, r: R, on: (L, R) -> bool): nat {
    |Filter(left, (l: L) => on(l, r))|
  }

  /** The rows on the right that a row on the left matches. */
  function Matches<L, R>(l: L, right: seq<R>, on: (L, R) -> bool): (matches: seq<R>)
    ensures forall r | r in matches :: r in right && on(l, r)
    ensures forall r | r in right && on(l, r) :: r in matches
  {
    Filter(right, (r: R) => on(l, r))
  }

  lemma MatchedStep<L, R>(left: seq<L>, r: R, on: (L, R) -> bool, x: real)
    requires left != []
    ensures Times(x, Matched(left, r, on))
         == (if on(left[0], r) then x else 0.0) + Times(x, Matched(left[1..], r, on))
  {
  }

  lemma {:induction false} SumConstant<T>(rows: seq<T>, c: real, f: T -> real)
    requires forall r | r in rows :: f(r) == c
    ensures Sum(rows, f) == Times(c, |rows|)
  {
    if rows != [] {
      SumConstant(rows[1..], c, f);
    }
  }

  lemma NoRowsMatched<L, R>(right: seq<R>, on: (L, R) -> bool, g: R -> real, perRight: R -> real)
    requires forall r | r in right :: perRight(r) == Times(g(r), Matched([], r, on))
    ensures Sum(right, perRight) == 0.0
  {
    SumZero(right, perRight);
  }

  lemma MatchesSum<L, R>(l: L, right: seq<R>, on: (L, R) -> bool, g: R -> real, h: R -> real)
    requires forall r | r in right :: h(r) == if on(l, r) then g(r) else 0.0
    ensures Sum(Matches(l, right, on), g) == Sum(right, h)
  {
    SumFilter(right, (r: R) => on(l, r), g, h);
  }

  /** Two ways of adding up the pairs of rows that match. */
  lemma {:induction false} SumSwap<L, R>(left: seq<L>, right: seq<R>, on: (L, R) -> bool, g: R -> real,
                                         perLeft: L -> real, perRight: R -> real)
    requires forall l | l in left :: perLeft(l) == Sum(Matches(l, right, on), g)
    requires forall r | r in right :: perRight(r) == Times(g(r), Matched(left, r, on))
    ensures Sum(left, perLeft) == Sum(right, perRight)
  {
    if left == [] {
      NoRowsMatched(right, on, g, perRight);
    } else {
      var tailRight := (r: R) => Times(g(r), Matched(left[1..], r, on));
      var headRight := (r: R) => if on(left[0], r) then g(r) else 0.0;
      SumSwap(left[1..], right, on, g, perLeft, tailRight);
      MatchesSum(left[0], right, on, g, headRight);
      forall r | r in right ensures perRight(r) == headRight(r) + tailRight(r) {
        MatchedStep(left, r, on, g(r));
      }
      SumPlus(right, headRight, tailRight, perRight);
    }
  }

  /** No two rows have the same key. */
  ghost predicate Keyed<T, K>(rows: seq<T>, key: T -> K) {
    forall i, j | 0 <= i < j < |rows| :: key(rows[i]) != key(rows[j])
  }

  lemma {:induction false} KeyedCount<T, K>(rows: seq<T>, key: T -> K, p: T -> bool)
    requires Keyed(rows, key)
    requires forall r, s | r in rows && s in rows && p(r) && p(s) :: key(r) == key(s)
    ensures |Filter(rows, p)| == if exists r | r in rows :: p(r) then 1 else 0
  {
    if rows != [] {
      KeyedCount(rows[1..], key, p);
      assert forall r :: r in rows <==> r == rows[0] || r in rows[1..];
    }
  }

  lemma MatchesKeyed<L, R, K>(l: L, right: seq<R>, on: (L, R) -> bool, key: R -> K)
    requires Keyed(right, key)
    requires forall r, s | r in right && s in right && on(l, r) && on(l, s) :: key(r) == key(s)
    ensures |Matches(l, right, on)| <= 1
  {
    KeyedCount(right, key, (r: R) => on(l, r));
  }

  lemma MatchedCount<L, R, K>(left: seq<L>, r: R, on: (L, R) -> bool, key: L -> K)
    requires Keyed(left, key)
    requires forall l, m | l in left && m in left && on(l, r) && on(m, r) :: key(l) == key(m)
    ensures Matched(left, r, on) == if exists l | l in left :: on(l, r) then 1 else 0
  {
    KeyedCount(left, key, (l: L) => on(l, r));
  }

  lemma MatchedKeyed<L, R, K>(left: seq<L>, r: R, on: (L, R) -> bool, key: L -> K, k: K)
    requires Keyed(left, key)
    requires forall l | l in left :: on(l, r) <==> key(l) == k
    ensures Matched(left, r, on) == if exists l | l in left :: key(l) == k then 1 else 0
  {
    MatchedCount(left, r, on, key);
  }

  lemma {:induction false} KeyedConcat<T, K>(part: int -> seq<T>, n: nat, key: T -> K)
    requires forall i | 0 <= i < n :: Keyed(part(i), key)
    requires forall i, j, r, s | 0 <= i < j < n && r in part(i) && s in part(j) :: key(r) != key(s)
    ensures Keyed(Concat(part, n), key)
  {
    if n > 0 {
      KeyedConcat(part, n - 1, key);
      var earlier, rows := Concat(part, n - 1), Concat(part, n);
      forall i, j | 0 <= i < j < |rows| ensures key(rows[i]) != key(rows[j]) {
        if j < |earlier| {
          assert rows[i] == earlier[i] && rows[j] == earlier[j];
        } else if i < |earlier| {
          var k := InConcat(part, n - 1, rows[i]);
          assert rows[i] in part(k) && rows[j] in part(n - 1);
        } else {
          var last := part(n - 1);
          assert Keyed(last, key);
          assert rows[i] == last[i - |earlier|] && rows[j] == last[j - |earlier|];
        }
      }
    }
  }

  lemma {:induction false} DistinctCount<T>(xs: seq<T>)
    requires Distinct(xs)
    ensures |set x | x in xs| == |xs|
  {
    if xs != [] {
      DistinctCount(xs[1..]);
      assert (set x | x in xs) == {xs[0]} + set x | x in xs[1..];
    }
  }

  lemma {:induction false} ChosenSum<T>(xs: seq<T>, p: T -> bool, c: real, f: T -> real)
    requires forall x | x in xs :: f(x) == if p(x) then c else 0.0
    ensures Sum(xs, f) == Times(c, |Filter(xs, p)|)
  {
    if xs != [] {
      ChosenSum(xs[1..], p, c, f);
    }
  }

  lemma {:induction false} DistinctChosen<T>(xs: seq<T>, p: T -> bool, chosen: set<T>)
    requires Distinct(xs) && forall x :: x in chosen <==> x in xs && p(x)
    ensures |chosen| == |Filter(xs, p)|
  {
    if xs == [] {
      assert chosen == {};
    } else {
      DistinctChosen(xs[1..], p, chosen - {xs[0]});
      assert chosen == if p(xs[0]) then {xs[0]} + (chosen - {xs[0]}) else chosen - {xs[0]};
    }
  }

  lemma {:induction false} KeyedFilter<T, K>(rows: seq<T>, key: T -> K, p: T -> bool)
    requires Keyed(rows, key)
    ensures Keyed(Filter(rows, p), key)
  {
    if rows != [] {
      KeyedFilter(rows[1..], key, p);
      var tail := Filter(rows[1..], p);
      forall i | 0 <= i < |tail| ensures key(tail[i]) != key(rows[0]) {
        assert tail[i] in rows[1..];
      }
    }
  }

  lemma MatchesOfKeyed<L, R, K>(l: L, right: seq<R>, on: (L, R) -> bool, key: R -> K)
    requires Keyed(right, key)
    ensures Keyed(Matches(l, right, on), key)
  {
    KeyedFilter(right, key, (r: R) => on(l, r));
  }
}
