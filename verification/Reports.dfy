/** The SQL that the metering reports are written in: GROUP BY, LEFT JOIN and the hourly first-level report. */
module Reports {
  import opened Wrappers
  import opened Sums

  /** The start of the `i`th hourly window since `base`, in seconds. */
  function HourStart(base: int, i: int): int {
    base + 3600 * i
  }

  /** The start of the hourly window that a time falls into. */
  function HourOf(base: int, time: int): int {
    HourStart(base, (time - base) / 3600)
  }

  /** One row of an imported metric. */
  datatype Sample = Sample(time: int, labels: map<string, string>, amount: real, precision: real)

  const GIB := 1073741824.0

  /** A sample that passed the label filter: its grouping labels and the value summed. */
  datatype Reading<L> = Reading(time: int, labels: L, amount: real)

  /** One row of an hourly report table. */
  datatype HourRow<L> = HourRow(start: int, end: int, labels: L, amount: real)

  /** The filtered and selected rows. `select` is None where a filtered label IS NULL. */
  function Read<L>(samples: seq<Sample>, select: Sample -> Option<L>, scale: real): seq<Reading<L>>
    requires scale > 0.0
  {
    if samples == [] then []
    else
      var labels := select(samples[0]);
      (if labels.Some? then [Reading(samples[0].time, labels.value, samples[0].amount * samples[0].precision / scale)]
       else []) + Read(samples[1..], select, scale)
  }

  /******* GROUP BY *******/

  datatype Group<K, T> = Group(key: K, rows: seq<T>)

  function Keys<T, K(==)>(rows: seq<T>, key: T -> K): (keys: seq<K>)
    ensures Distinct(keys)
  {
    if rows == [] then []
    else
      var keys := Keys(rows[1..], key);
      if key(rows[0]) in keys then keys else [key(rows[0])] + keys
  }

  lemma {:induction false} KeyListed<T, K>(rows: seq<T>, key: T -> K, r: T)
    requires r in rows
    ensures key(r) in Keys(rows, key)
  {
    if r != rows[0] {
      KeyListed(rows[1..], key, r);
    }
  }

  lemma {:induction false} KeyOccurs<T, K>(rows: seq<T>, key: T -> K, k: K) returns (r: T)
    requires k in Keys(rows, key)
    ensures r in rows && key(r) == k
  {
    if key(rows[0]) == k {
      r := rows[0];
    } else {
      r := KeyOccurs(rows[1..], key, k);
    }
  }

  function GroupOf<T, K(==)>(rows: seq<T>, key: T -> K, k: K): Group<K, T> {
    Group(k, Filter(rows, (r: T) => key(r) == k))
  }

  /** One group for each key that occurs; the order of the groups is of no consequence. */
  function GroupBy<T, K(==)>(rows: seq<T>, key: T -> K): seq<Group<K, T>> {
    Map(Keys(rows, key), (k: K) => GroupOf(rows, key, k))
  }

  lemma GroupRows<T, K>(rows: seq<T>, key: T -> K, k: K, p: T -> bool)
    requires forall r | r in rows :: p(r) <==> key(r) == k
    ensures GroupOf(rows, key, k).rows == Filter(rows, p)
  {
    FilterCongruence(rows, (r: T) => key(r) == k, p);
  }

  /** A group for each key that occurs and no two for one key, each with all rows of its key. */
  lemma GroupsExactly<T, K>(rows: seq<T>, key: T -> K)
    ensures forall i, j | 0 <= i < j < |GroupBy(rows, key)| :: GroupBy(rows, key)[i].key != GroupBy(rows, key)[j].key
    ensures forall g | g in GroupBy(rows, key) :: g == GroupOf(rows, key, g.key) && g.rows != []
    ensures forall r | r in rows :: exists g | g in GroupBy(rows, key) :: g.key == key(r)
  {
    var keys, groups := Keys(rows, key), GroupBy(rows, key);
    forall g | g in groups ensures g == GroupOf(rows, key, g.key) && g.rows != [] {
      var i :| 0 <= i < |groups| && groups[i] == g;
      var r := KeyOccurs(rows, key, keys[i]);
      assert r in g.rows;
    }
    forall r | r in rows ensures exists g | g in groups :: g.key == key(r) {
      KeyListed(rows, key, r);
      var i :| 0 <= i < |keys| && keys[i] == key(r);
      assert groups[i] in groups;
    }
  }

  lemma {:induction false} OneKey<K>(keys: seq<K>, k: K, f: K -> real, x: real)
    requires Distinct(keys)
    requires forall key | key in keys :: f(key) == if key == k then x else 0.0
    ensures Sum(keys, f) == if k in keys then x else 0.0
  {
    if keys != [] {
      if keys[0] == k {
        SumZero(keys[1..], f);
      } else {
        OneKey(keys[1..], k, f, x);
      }
    }
  }

  lemma GroupStep<T, K>(rows: seq<T>, key: T -> K, k: K, f: T -> real)
    requires rows != []
    ensures Sum(GroupOf(rows, key, k).rows, f)
         == (if key(rows[0]) == k then f(rows[0]) else 0.0) + Sum(GroupOf(rows[1..], key, k).rows, f)
  {
    var rest := GroupOf(rows[1..], key, k).rows;
    if key(rows[0]) == k {
      assert GroupOf(rows, key, k).rows == [rows[0]] + rest;
    } else {
      assert GroupOf(rows, key, k).rows == [] + rest == rest;
    }
  }

  lemma {:induction false} KeyedSum<T, K>(keys: seq<K>, rows: seq<T>, key: T -> K, f: T -> real, perKey: K -> real)
    requires Distinct(keys)
    requires forall r | r in rows :: key(r) in keys
    requires forall k | k in keys :: perKey(k) == Sum(GroupOf(rows, key, k).rows, f)
    ensures Sum(keys, perKey) == Sum(rows, f)
  {
    if rows == [] {
      SumZero(keys, perKey);
    } else {
      var first := (k: K) => if k == key(rows[0]) then f(rows[0]) else 0.0;
      var rest := (k: K) => Sum(GroupOf(rows[1..], key, k).rows, f);
      KeyedSum(keys, rows[1..], key, f, rest);
      OneKey(keys, key(rows[0]), first, f(rows[0]));
      forall k | k in keys ensures perKey(k) == first(k) + rest(k) {
        GroupStep(rows, key, k, f);
      }
      SumPlus(keys, first, rest, perKey);
    }
  }

  /** Grouping loses nothing: sums over the groups add up to the sum over the rows. */
  lemma GroupedSum<T, K>(rows: seq<T>, key: T -> K, f: T -> real, perGroup: Group<K, T> -> real)
    requires forall g | g in GroupBy(rows, key) :: perGroup(g) == Sum(g.rows, f)
    ensures Sum(GroupBy(rows, key), perGroup) == Sum(rows, f)
  {
    var keys := Keys(rows, key);
    var perKey := (k: K) => Sum(GroupOf(rows, key, k).rows, f);
    forall k | k in keys ensures perKey(k) == perGroup(GroupOf(rows, key, k)) {
      var i :| 0 <= i < |keys| && keys[i] == k;
      assert GroupBy(rows, key)[i] == GroupOf(rows, key, k);
    }
    SumMap(keys, (k: K) => GroupOf(rows, key, k), perGroup, perKey);
    forall r | r in rows ensures key(r) in keys {
      KeyListed(rows, key, r);
    }
    KeyedSum(keys, rows, key, f, perKey);
  }

  /******* The hourly report tables *******/

  function InWindow<L>(raw: seq<Reading<L>>, start: int, end: int): seq<Reading<L>> {
    Filter(raw, (r: Reading<L>) => start <= r.time < end)
  }

  function WindowRow<L>(start: int, end: int, g: Group<L, Reading<L>>): HourRow<L> {
    HourRow(start, end, g.key, Sum(g.rows, (r: Reading<L>) => r.amount))
  }

  /** One run of a first-level query over `[start, end)`. */
  function WindowReport<L(==)>(raw: seq<Reading<L>>, start: int, end: int): seq<HourRow<L>> {
    Map(GroupBy(InWindow(raw, start, end), (r: Reading<L>) => r.labels),
        (g: Group<L, Reading<L>>) => WindowRow(start, end, g))
  }

  function HourRows<L(==)>(raw: seq<Reading<L>>, base: int, i: int): seq<HourRow<L>> {
    WindowReport(raw, HourStart(base, i), HourStart(base, i + 1))
  }

  /** The report table after the first `hours` hourly runs since `base`. */
  function HourlyReport<L(==)>(raw: seq<Reading<L>>, base: int, hours: nat): seq<HourRow<L>> {
    Concat((i: int) => HourRows(raw, base, i), hours)
  }

  lemma WindowConservation<L>(raw: seq<Reading<L>>, start: int, end: int, w: L -> nat,
                              f: HourRow<L> -> real, v: Reading<L> -> real)
    requires forall row | row in WindowReport(raw, start, end) :: f(row) == Times(row.amount, w(row.labels))
    requires forall r | r in InWindow(raw, start, end) :: v(r) == Times(r.amount, w(r.labels))
    ensures Sum(WindowReport(raw, start, end), f) == Sum(InWindow(raw, start, end), v)
  {
    var rows := InWindow(raw, start, end);
    var amount := (r: Reading<L>) => r.amount;
    var groups := GroupBy(rows, (r: Reading<L>) => r.labels);
    var perGroup := (g: Group<L, Reading<L>>) => f(WindowRow(start, end, g));
    forall g | g in groups ensures perGroup(g) == Sum(g.rows, v) {
      var i :| 0 <= i < |groups| && groups[i] == g;
      assert WindowReport(raw, start, end)[i] == WindowRow(start, end, g);
      SumTimes(g.rows, w(g.key), amount, v);
    }
    GroupedSum(rows, (r: Reading<L>) => r.labels, v, perGroup);
    SumMap(groups, (g: Group<L, Reading<L>>) => WindowRow(start, end, g), f, perGroup);
  }

  function HourSum<L>(raw: seq<Reading<L>>, base: int, i: int, v: Reading<L> -> real): real {
    Sum(InWindow(raw, HourStart(base, i), HourStart(base, i + 1)), v)
  }

  lemma HourConservation<L>(raw: seq<Reading<L>>, base: int, i: int, w: (int, L) -> nat,
                            f: HourRow<L> -> real, v: Reading<L> -> real)
    requires forall row | row in HourRows(raw, base, i) :: f(row) == Times(row.amount, w(row.start, row.labels))
    requires forall r | r in raw :: v(r) == Times(r.amount, w(HourOf(base, r.time), r.labels))
    ensures Sum(HourRows(raw, base, i), f) == HourSum(raw, base, i, v)
  {
    var start, end := HourStart(base, i), HourStart(base, i + 1);
    forall r | r in InWindow(raw, start, end) ensures HourOf(base, r.time) == start {
      HourOfWindow(base, i, r.time);
    }
    WindowConservation(raw, start, end, (labels: L) => w(start, labels), f, v);
  }

  /** Adjacent windows split what lies between their outer ends. */
  lemma AdjacentWindows<L>(raw: seq<Reading<L>>, a: int, b: int, c: int, v: Reading<L> -> real)
    requires a <= b <= c
    ensures Sum(InWindow(raw, a, c), v) == Sum(InWindow(raw, a, b), v) + Sum(InWindow(raw, b, c), v)
  {
    var first := (r: Reading<L>) => if a <= r.time < b then v(r) else 0.0;
    var second := (r: Reading<L>) => if b <= r.time < c then v(r) else 0.0;
    var both := (r: Reading<L>) => if a <= r.time < c then v(r) else 0.0;
    SumFilter(raw, (r: Reading<L>) => a <= r.time < b, v, first);
    SumFilter(raw, (r: Reading<L>) => b <= r.time < c, v, second);
    SumFilter(raw, (r: Reading<L>) => a <= r.time < c, v, both);
    SumPlus(raw, first, second, both);
  }

  lemma EmptyWindow<L>(raw: seq<Reading<L>>, a: int, v: Reading<L> -> real)
    ensures Sum(InWindow(raw, a, a), v) == 0.0
  {
    SumZero(InWindow(raw, a, a), v);
  }

  /** Hourly windows partition the time since `base`. */
  lemma {:induction false} HourlyWindows<L>(raw: seq<Reading<L>>, base: int, hours: nat, v: Reading<L> -> real,
                                            s: int -> real)
    requires forall i | 0 <= i < hours :: s(i) == HourSum(raw, base, i, v)
    ensures SumTo(s, hours) == Sum(InWindow(raw, base, HourStart(base, hours)), v)
  {
    if hours == 0 {
      assert HourStart(base, hours) == base;
      EmptyWindow(raw, base, v);
    } else {
      HourlyWindows(raw, base, hours - 1, v, s);
      AdjacentWindows(raw, base, HourStart(base, hours - 1), HourStart(base, hours), v);
    }
  }

  lemma HourOfWindow(base: int, hour: int, time: int)
    requires HourStart(base, hour) <= time < HourStart(base, hour + 1)
    ensures HourOf(base, time) == HourStart(base, hour)
  {
  }

  /** The table counts each reading exactly once, under any weight that depends on its hour and labels. */
  lemma HourlyConservation<L>(raw: seq<Reading<L>>, base: int, hours: nat, w: (int, L) -> nat,
                              f: HourRow<L> -> real, v: Reading<L> -> real)
    requires forall row | row in HourlyReport(raw, base, hours) :: f(row) == Times(row.amount, w(row.start, row.labels))
    requires forall r | r in raw :: v(r) == Times(r.amount, w(HourOf(base, r.time), r.labels))
    ensures Sum(HourlyReport(raw, base, hours), f) == Sum(InWindow(raw, base, HourStart(base, hours)), v)
  {
    var part := (i: int) => HourRows(raw, base, i);
    var s := (i: int) => HourSum(raw, base, i, v);
    forall i | 0 <= i < hours ensures s(i) == Sum(part(i), f) {
      PartOfConcat(part, hours, i);
      HourConservation(raw, base, i, w, f, v);
    }
    SumConcat(part, hours, f, s);
    HourlyWindows(raw, base, hours, v, s);
  }

  /******* Keys of the hourly tables *******/

  function KeyOf<L>(row: HourRow<L>): (int, int, L) {
    (row.start, row.end, row.labels)
  }

  /** Whether some reading with these labels lies in `[start, end)`. */
  ghost predicate Occurs<L>(raw: seq<Reading<L>>, start: int, end: int, labels: L) {
    exists r | r in raw :: start <= r.time < end && r.labels == labels
  }

  function WindowKeys<L(==)>(raw: seq<Reading<L>>, start: int, end: int): seq<L> {
    Keys(InWindow(raw, start, end), (r: Reading<L>) => r.labels)
  }

  lemma WindowRows<L>(raw: seq<Reading<L>>, start: int, end: int)
    ensures |WindowReport(raw, start, end)| == |WindowKeys(raw, start, end)|
    ensures forall i | 0 <= i < |WindowReport(raw, start, end)| ::
              KeyOf(WindowReport(raw, start, end)[i]) == (start, end, WindowKeys(raw, start, end)[i])
  {
  }

  lemma WindowKeysOccur<L>(raw: seq<Reading<L>>, start: int, end: int, labels: L)
    ensures labels in WindowKeys(raw, start, end) <==> Occurs(raw, start, end, labels)
  {
    var rows, labelsOf := InWindow(raw, start, end), (r: Reading<L>) => r.labels;
    if Occurs(raw, start, end, labels) {
      var r :| r in raw && start <= r.time < end && r.labels == labels;
      KeyListed(rows, labelsOf, r);
    }
    if labels in Keys(rows, labelsOf) {
      var r := KeyOccurs(rows, labelsOf, labels);
      assert r in raw;
    }
  }

  lemma WindowKeyed<L>(raw: seq<Reading<L>>, start: int, end: int)
    ensures Keyed(WindowReport(raw, start, end), (row: HourRow<L>) => KeyOf(row))
  {
    WindowRows(raw, start, end);
    var rows, keys := WindowReport(raw, start, end), WindowKeys(raw, start, end);
    forall i, j | 0 <= i < j < |rows| ensures KeyOf(rows[i]) != KeyOf(rows[j]) {
      assert KeyOf(rows[i]).2 == keys[i] && KeyOf(rows[j]).2 == keys[j];
    }
  }

  /** The hourly table has one row for each window and label set. */
  lemma HourlyKeyed<L>(raw: seq<Reading<L>>, base: int, hours: nat)
    ensures Keyed(HourlyReport(raw, base, hours), (row: HourRow<L>) => KeyOf(row))
  {
    var part, key := (i: int) => HourRows(raw, base, i), (row: HourRow<L>) => KeyOf(row);
    forall i | 0 <= i < hours ensures Keyed(part(i), key) {
      WindowKeyed(raw, HourStart(base, i), HourStart(base, i + 1));
    }
    forall i, j, r, s | 0 <= i < j < hours && r in part(i) && s in part(j) ensures key(r) != key(s) {
      WindowRows(raw, HourStart(base, i), HourStart(base, i + 1));
      WindowRows(raw, HourStart(base, j), HourStart(base, j + 1));
    }
    KeyedConcat(part, hours, key);
  }

  /** Its rows are those of the hours that were run, for the labels that occur in them. */
  lemma HourlyRow<L>(raw: seq<Reading<L>>, base: int, hours: nat, row: HourRow<L>) returns (i: int)
    requires row in HourlyReport(raw, base, hours)
    ensures 0 <= i < hours && row.start == HourStart(base, i) && row.end == row.start + 3600
    ensures Occurs(raw, row.start, row.end, row.labels)
  {
    i := InConcat((i: int) => HourRows(raw, base, i), hours, row);
    WindowRows(raw, HourStart(base, i), HourStart(base, i + 1));
    WindowKeysOccur(raw, HourStart(base, i), HourStart(base, i + 1), row.labels);
  }

  lemma HourlyRowExists<L>(raw: seq<Reading<L>>, base: int, hours: nat, i: int, labels: L) returns (row: HourRow<L>)
    requires 0 <= i < hours && Occurs(raw, HourStart(base, i), HourStart(base, i + 1), labels)
    ensures row in HourlyReport(raw, base, hours)
    ensures KeyOf(row) == (HourStart(base, i), HourStart(base, i + 1), labels)
  {
    var start, end := HourStart(base, i), HourStart(base, i + 1);
    WindowKeysOccur(raw, start, end, labels);
    WindowRows(raw, start, end);
    var j :| 0 <= j < |WindowKeys(raw, start, end)| && WindowKeys(raw, start, end)[j] == labels;
    row := WindowReport(raw, start, end)[j];
    PartOfConcat((i: int) => HourRows(raw, base, i), hours, i);
    assert row in HourRows(raw, base, i);
  }

  /******* LEFT JOIN *******/

  function JoinRow<L, R, O>(l: L, matches: seq<R>, combine: (L, Option<R>) -> O): seq<O> {
    if matches == [] then [combine(l, None)] else Map(matches, (r: R) => combine(l, Some(r)))
  }

  /** Each left row once for every right row it matches, and once without a match if there is none. */
  function LeftJoin<L, R, O>(left: seq<L>, right: seq<R>, on: (L, R) -> bool, combine: (L, Option<R>) -> O): seq<O> {
    if left == [] then []
    else JoinRow(left[0], Matches(left[0], right, on), combine) + LeftJoin(left[1..], right, on, combine)
  }

  function Copies(matches: nat): nat {
    if matches == 0 then 1 else matches
  }

  /** A join adds up what each left row is joined to. */
  lemma {:induction false} JoinSum<L, R, O>(left: seq<L>, right: seq<R>, on: (L, R) -> bool,
                                            combine: (L, Option<R>) -> O, f: O -> real, perLeft: L -> real)
    requires forall l | l in left :: perLeft(l) == Sum(JoinRow(l, Matches(l, right, on), combine), f)
    ensures Sum(LeftJoin(left, right, on, combine), f) == Sum(left, perLeft)
  {
    if left != [] {
      JoinSum(left[1..], right, on, combine, f, perLeft);
      SumAppend(JoinRow(left[0], Matches(left[0], right, on), combine), LeftJoin(left[1..], right, on, combine), f);
    }
  }

  lemma JoinRowCopies<L, R, O>(l: L, matches: seq<R>, combine: (L, Option<R>) -> O, f: O -> real, c: real)
    requires f(combine(l, None)) == c
    requires forall r | r in matches :: f(combine(l, Some(r))) == c
    ensures Sum(JoinRow(l, matches, combine), f) == Times(c, Copies(|matches|))
  {
    SumConstant(JoinRow(l, matches, combine), c, f);
  }

  /** A left column is repeated once per match. */
  lemma {:induction false} JoinLeftSum<L, R, O>(left: seq<L>, right: seq<R>, on: (L, R) -> bool,
                                                combine: (L, Option<R>) -> O,
                                                f: O -> real, h: L -> real, perLeft: L -> real)
    requires forall l | l in left :: f(combine(l, None)) == h(l)
    requires forall l, r | l in left && r in right && on(l, r) :: f(combine(l, Some(r))) == h(l)
    requires forall l | l in left :: perLeft(l) == Times(h(l), Copies(|Matches(l, right, on)|))
    ensures Sum(LeftJoin(left, right, on, combine), f) == Sum(left, perLeft)
  {
    forall l | l in left ensures perLeft(l) == Sum(JoinRow(l, Matches(l, right, on), combine), f) {
      JoinRowCopies(l, Matches(l, right, on), combine, f, h(l));
    }
    JoinSum(left, right, on, combine, f, perLeft);
  }

  lemma JoinRowMatches<L, R, O>(l: L, matches: seq<R>, combine: (L, Option<R>) -> O, f: O -> real, g: R -> real)
    requires f(combine(l, None)) == 0.0
    requires forall r | r in matches :: f(combine(l, Some(r))) == g(r)
    ensures Sum(JoinRow(l, matches, combine), f) == Sum(matches, g)
  {
    if matches != [] {
      SumMap(matches, (r: R) => combine(l, Some(r)), f, g);
    }
  }

  /** A right column is counted once for every left row that its row matches; rows that match none are lost. */
  lemma {:induction false} JoinRightSum<L, R, O>(left: seq<L>, right: seq<R>, on: (L, R) -> bool,
                                                 combine: (L, Option<R>) -> O,
                                                 f: O -> real, g: R -> real, perRight: R -> real)
    requires forall l | l in left :: f(combine(l, None)) == 0.0
    requires forall l, r | l in left && r in right && on(l, r) :: f(combine(l, Some(r))) == g(r)
    requires forall r | r in right :: perRight(r) == Times(g(r), Matched(left, r, on))
    ensures Sum(LeftJoin(left, right, on, combine), f) == Sum(right, perRight)
  {
    var perLeft := (l: L) => Sum(Matches(l, right, on), g);
    forall l | l in left ensures perLeft(l) == Sum(JoinRow(l, Matches(l, right, on), combine), f) {
      JoinRowMatches(l, Matches(l, right, on), combine, f, g);
    }
    JoinSum(left, right, on, combine, f, perLeft);
    SumSwap(left, right, on, g, perLeft, perRight);
  }

  /** A join against at most one row each keeps the left rows one for one. */
  lemma {:induction false} UniqueJoinKeys<L, R, O, K>(left: seq<L>, right: seq<R>, on: (L, R) -> bool,
                                                      combine: (L, Option<R>) -> O, lk: L -> K, ok: O -> K)
    requires forall l | l in left :: |Matches(l, right, on)| <= 1
    requires forall l, x | l in left :: ok(combine(l, x)) == lk(l)
    ensures |LeftJoin(left, right, on, combine)| == |left|
    ensures forall i | 0 <= i < |left| :: ok(LeftJoin(left, right, on, combine)[i]) == lk(left[i])
  {
    if left != [] {
      UniqueJoinKeys(left[1..], right, on, combine, lk, ok);
      var row := JoinRow(left[0], Matches(left[0], right, on), combine);
      assert |row| == 1 && ok(row[0]) == lk(left[0]);
    }
  }

  lemma {:induction false} InJoin<L, R, O>(left: seq<L>, right: seq<R>, on: (L, R) -> bool,
                                           combine: (L, Option<R>) -> O, o: O) returns (l: L, x: Option<R>)
    requires o in LeftJoin(left, right, on, combine)
    ensures l in left && o == combine(l, x) && o in JoinRow(l, Matches(l, right, on), combine)
    ensures if x.Some? then x.value in Matches(l, right, on) else Matches(l, right, on) == []
  {
    var row := JoinRow(left[0], Matches(left[0], right, on), combine);
    if o in row {
      l := left[0];
      var k :| 0 <= k < |row| && row[k] == o;
      x := if Matches(l, right, on) == [] then None else Some(Matches(l, right, on)[k]);
    } else {
      l, x := InJoin(left[1..], right, on, combine, o);
    }
  }

  lemma {:induction false} JoinHas<L, R, O>(left: seq<L>, right: seq<R>, on: (L, R) -> bool,
                                            combine: (L, Option<R>) -> O, l: L, o: O)
    requires l in left && o in JoinRow(l, Matches(l, right, on), combine)
    ensures o in LeftJoin(left, right, on, combine)
  {
    if l != left[0] {
      JoinHas(left[1..], right, on, combine, l, o);
    }
  }

  /******* A query run hour by hour over a table *******/

  function HourSlice<T>(rows: seq<T>, start: T -> int, base: int, i: int): seq<T> {
    Filter(rows, (r: T) => HourStart(base, i) <= start(r) < HourStart(base, i + 1))
  }

  function ByHours<T>(rows: seq<T>, start: T -> int, base: int, hours: nat): seq<T> {
    Concat((i: int) => HourSlice(rows, start, base, i), hours)
  }

  lemma {:induction false} SlicesSum<T>(rows: seq<T>, start: T -> int, base: int, n: nat,
                                        f: T -> real, h: T -> real, s: int -> real)
    requires forall i | 0 <= i < n :: s(i) == Sum(HourSlice(rows, start, base, i), f)
    requires forall r | r in rows :: h(r) == if base <= start(r) < HourStart(base, n) then f(r) else 0.0
    ensures SumTo(s, n) == Sum(rows, h)
  {
    if n == 0 {
      SumZero(rows, h);
    } else {
      var earlier := (r: T) => if base <= start(r) < HourStart(base, n - 1) then f(r) else 0.0;
      var last := (r: T) => if HourStart(base, n - 1) <= start(r) < HourStart(base, n) then f(r) else 0.0;
      SlicesSum(rows, start, base, n - 1, f, earlier, s);
      SumFilter(rows, (r: T) => HourStart(base, n - 1) <= start(r) < HourStart(base, n - 1 + 1), f, last);
      SumPlus(rows, earlier, last, h);
    }
  }

  /** Running a query hour by hour neither loses nor repeats the rows of those hours. */
  lemma ByHoursSum<T>(rows: seq<T>, start: T -> int, base: int, hours: nat, f: T -> real)
    requires forall r | r in rows :: base <= start(r) < HourStart(base, hours)
    ensures Sum(ByHours(rows, start, base, hours), f) == Sum(rows, f)
  {
    var s := (i: int) => Sum(HourSlice(rows, start, base, i), f);
    SumConcat((i: int) => HourSlice(rows, start, base, i), hours, f, s);
    SlicesSum(rows, start, base, hours, f, f, s);
  }

  /** A row matches at most one row of an hourly table when matching rows agree on its whole key. */
  lemma HourlyMatches<L, R>(left: seq<R>, raw: seq<Reading<L>>, base: int, hours: nat, on: (R, HourRow<L>) -> bool)
    requires forall l, r, s | l in left && r in HourlyReport(raw, base, hours) && s in HourlyReport(raw, base, hours)
                              && on(l, r) && on(l, s) :: KeyOf(r) == KeyOf(s)
    ensures forall l | l in left :: |Matches(l, HourlyReport(raw, base, hours), on)| <= 1
  {
    HourlyKeyed(raw, base, hours);
    forall l | l in left ensures |Matches(l, HourlyReport(raw, base, hours), on)| <= 1 {
      MatchesKeyed(l, HourlyReport(raw, base, hours), on, (row: HourRow<L>) => KeyOf(row));
    }
  }

  /** A left column passes unchanged through a join against at most one row each. */
  lemma UniqueJoinSum<L, R, O>(left: seq<L>, right: seq<R>, on: (L, R) -> bool, combine: (L, Option<R>) -> O,
                               f: O -> real, h: L -> real)
    requires forall l | l in left :: |Matches(l, right, on)| <= 1
    requires forall l, x | l in left :: f(combine(l, x)) == h(l)
    ensures Sum(LeftJoin(left, right, on, combine), f) == Sum(left, h)
  {
    forall l | l in left ensures h(l) == Times(h(l), Copies(|Matches(l, right, on)|)) {
      TimesOnce(h(l));
    }
    JoinLeftSum(left, right, on, combine, f, h, h);
  }

  lemma ByHoursRows<T>(rows: seq<T>, start: T -> int, base: int, hours: nat)
    requires forall r | r in rows :: base <= start(r) < HourStart(base, hours)
    ensures forall r :: r in ByHours(rows, start, base, hours) <==> r in rows
  {
    var slice := (i: int) => HourSlice(rows, start, base, i);
    forall r | r in rows ensures r in ByHours(rows, start, base, hours) {
      var i := (start(r) - base) / 3600;
      assert r in slice(i);
      PartOfConcat(slice, hours, i);
    }
    forall r | r in ByHours(rows, start, base, hours) ensures r in rows {
      var i := InConcat(slice, hours, r);
      assert r in slice(i);
    }
  }

  /******* Periods of whole hours *******/

  /** The readings of the period from hour `i` to hour `j` that have the chosen labels. */
  function InPeriod<L>(metric: seq<Reading<L>>, base: int, i: nat, j: nat, mine: L -> bool): seq<Reading<L>> {
    Filter(metric, (r: Reading<L>) => HourStart(base, i) <= r.time < HourStart(base, j) && mine(r.labels))
  }

  lemma HourInPeriod(base: int, hours: nat, i: nat, j: nat, time: int)
    requires i <= j <= hours
    ensures base <= time < HourStart(base, hours) && HourStart(base, i) <= HourOf(base, time) < HourStart(base, j)
       <==> HourStart(base, i) <= time < HourStart(base, j)
  {
  }

  lemma InPeriodSum<L>(metric: seq<Reading<L>>, base: int, i: nat, j: nat, mine: L -> bool,
                       x: Reading<L> -> real, h: Reading<L> -> real)
    requires forall r | r in metric ::
      h(r) == if HourStart(base, i) <= r.time < HourStart(base, j) && mine(r.labels) then x(r) else 0.0
    ensures Sum(InPeriod(metric, base, i, j, mine), x) == Sum(metric, h)
  {
    SumFilter(metric, (r: Reading<L>) => HourStart(base, i) <= r.time < HourStart(base, j) && mine(r.labels), x, h);
  }

  lemma NarrowPeriod<L>(metric: seq<Reading<L>>, base: int, i: nat, j: nat, mine: L -> bool,
                        x: Reading<L> -> real, y: Reading<L> -> real)
    requires forall r | r in metric :: x(r) == if mine(r.labels) then y(r) else 0.0
    ensures Sum(InPeriod(metric, base, i, j, (labels: L) => true), x) == Sum(InPeriod(metric, base, i, j, mine), y)
  {
    var h := (r: Reading<L>) =>
      if HourStart(base, i) <= r.time < HourStart(base, j) && mine(r.labels) then y(r) else 0.0;
    InPeriodSum(metric, base, i, j, (labels: L) => true, x, h);
    InPeriodSum(metric, base, i, j, mine, y, h);
  }

  lemma PeriodSum<L>(metric: seq<Reading<L>>, base: int, hours: nat, i: nat, j: nat, mine: L -> bool,
                     v: Reading<L> -> real, x: Reading<L> -> real)
    requires i <= j <= hours
    requires forall r | r in metric ::
      v(r) == if HourStart(base, i) <= HourOf(base, r.time) < HourStart(base, j) && mine(r.labels) then x(r) else 0.0
    ensures Sum(InWindow(metric, base, HourStart(base, hours)), v) == Sum(InPeriod(metric, base, i, j, mine), x)
  {
    var h := (r: Reading<L>) =>
      if HourStart(base, i) <= r.time < HourStart(base, j) && mine(r.labels) then x(r) else 0.0;
    forall r | r in metric ensures h(r) == if base <= r.time < HourStart(base, hours) then v(r) else 0.0 {
      HourInPeriod(base, hours, i, j, r.time);
    }
    SumFilter(metric, (r: Reading<L>) => base <= r.time < HourStart(base, hours), v, h);
    InPeriodSum(metric, base, i, j, mine, x, h);
  }

  /** Adding up the readings is adding up the samples that pass the label filter. */
  lemma {:induction false} ReadSum<L>(samples: seq<Sample>, select: Sample -> Option<L>, scale: real,
                                      f: Reading<L> -> real, h: Sample -> real)
    requires scale > 0.0
    requires forall s | s in samples :: select(s).None? ==> h(s) == 0.0
    requires forall s | s in samples :: select(s).Some? ==>
      h(s) == f(Reading(s.time, select(s).value, s.amount * s.precision / scale))
    ensures Sum(Read(samples, select, scale), f) == Sum(samples, h)
  {
    if samples != [] {
      ReadSum(samples[1..], select, scale, f, h);
      var rest := Read(samples[1..], select, scale);
      if select(samples[0]).None? {
        assert Read(samples, select, scale) == rest;
      }
    }
  }

  /** SQL's `sum` of the rows that count: NULL if there are none. */
  ghost predicate SumOf<T>(x: Option<real>, rows: seq<T>, counts: T -> bool, value: T -> real) {
    && (x.Some? <==> exists r | r in rows :: counts(r))
    && (x.Some? ==> x.value == Sum(rows, (r: T) => if counts(r) then value(r) else 0.0))
  }

  lemma SumOfCell<T>(x: Option<real>, rows: seq<T>, counts: T -> bool, value: T -> real, h: T -> real)
    requires (if x.Some? then x.value else 0.0) == Sum(rows, h) && (x.Some? <==> exists r | r in rows :: counts(r))
    requires forall r | r in rows :: h(r) == if counts(r) then value(r) else 0.0
    ensures SumOf(x, rows, counts, value)
  {
    SumCongruence(rows, h, (r: T) => if counts(r) then value(r) else 0.0);
  }

  lemma SumOfFilter<T>(x: Option<real>, rows: seq<T>, p: T -> bool, counts: T -> bool, value: T -> real,
                       both: T -> bool, total: T -> real)
    requires SumOf(x, Filter(rows, p), counts, value)
    requires forall r | r in rows :: both(r) <==> p(r) && counts(r)
    requires forall r | r in rows && both(r) :: total(r) == value(r)
    ensures SumOf(x, rows, both, total)
  {
    var counted := (r: T) => if counts(r) then value(r) else 0.0;
    SumFilter(rows, p, counted, (r: T) => if both(r) then total(r) else 0.0);
    if r :| r in rows && both(r) {
      assert r in Filter(rows, p);
    }
  }

  predicate ReadAs<L(==)>(s: Sample, select: Sample -> Option<L>, scale: real, r: Reading<L>)
    requires scale > 0.0
  {
    select(s).Some? && r == Reading(s.time, select(s).value, s.amount * s.precision / scale)
  }

  lemma {:induction false} ReadFrom<L>(samples: seq<Sample>, select: Sample -> Option<L>, scale: real, r: Reading<L>)
    requires scale > 0.0
    ensures r in Read(samples, select, scale) <==> exists s | s in samples :: ReadAs(s, select, scale, r)
  {
    hide ReadAs;
    if samples != [] {
      ReadFrom(samples[1..], select, scale, r);
      ReadFirst(samples, select, scale, r);
      assert forall s :: s in samples <==> s == samples[0] || s in samples[1..];
    }
  }

  lemma ReadFirst<L>(samples: seq<Sample>, select: Sample -> Option<L>, scale: real, r: Reading<L>)
    requires scale > 0.0 && samples != []
    ensures r in Read(samples, select, scale)
       <==> ReadAs(samples[0], select, scale, r) || r in Read(samples[1..], select, scale)
  {
  }

  /** A sum of readings is the sum of the samples behind them. */
  lemma SumOfSamples<L>(x: Option<real>, samples: seq<Sample>, select: Sample -> Option<L>, scale: real,
                        kept: Reading<L> -> bool, counts: Sample -> bool, value: Sample -> real)
    requires scale > 0.0 && SumOf(x, Read(samples, select, scale), kept, (r: Reading<L>) => r.amount)
    requires forall s | s in samples :: value(s) == s.amount * s.precision / scale
    requires forall s | s in samples ::
      counts(s) <==> select(s).Some? && kept(Reading(s.time, select(s).value, value(s)))
    ensures SumOf(x, samples, counts, value)
  {
    var readings := Read(samples, select, scale);
    var f := (r: Reading<L>) => if kept(r) then r.amount else 0.0;
    var h := (s: Sample) => if counts(s) then value(s) else 0.0;
    ReadSum(samples, select, scale, f, h);
    SumCongruence(readings, f, (r: Reading<L>) => if kept(r) then ((r: Reading<L>) => r.amount)(r) else 0.0);
    if r :| r in readings && kept(r) {
      ReadFrom(samples, select, scale, r);
      var s :| s in samples && ReadAs(s, select, scale, r);
      assert counts(s);
    }
    if s :| s in samples && counts(s) {
      ReadFrom(samples, select, scale, Reading(s.time, select(s).value, value(s)));
    }
  }
}
