/** What the project report bills, in terms of the readings: requests are repeated once per accelerator,
    everything joined on the right is lost where no CPU request was read. */
module PodTotals {
  import opened Wrappers
  import opened Sums
  import opened Reports
  import opened PodReport

  /** Whether the pod has a CPU request in the hour that begins at `start`. */
  ghost predicate Requested(raw: Readings, start: int, labels: PodLabels) {
    Occurs(raw.cpuRequest, start, start + 3600, labels)
  }

  /** The accelerators that a pod requested in the hour that begins at `start`. */
  function Accelerators(raw: Readings, start: int, labels: PodLabels): set<string> {
    set r | r in raw.gpuRequest && start <= r.time < start + 3600 && r.labels.pod == labels :: r.labels.gpu
  }

  /** How many joined rows a pod has in an hour in which it requested CPU. */
  function FanOut(raw: Readings, start: int, labels: PodLabels): nat {
    Copies(|Accelerators(raw, start, labels)|)
  }

  /******* The joined rows and their keys *******/

  predicate InHour(l: PodRow, start: int, end: int, labels: PodLabels) {
    l.start == start && l.end == end && l.labels == labels
  }

  ghost predicate SameKeys(rows: seq<PodRow>, others: seq<PodRow>) {
    && |rows| == |others|
    && forall i | 0 <= i < |rows| :: PodKey(rows[i]) == PodKey(others[i])
  }

  lemma JoinSameKeys(left: seq<PodRow>, raw: seq<Reading<PodLabels>>, base: int, hours: nat,
                     combine: (PodRow, Option<HourRow<PodLabels>>) -> PodRow)
    requires forall l, x :: PodKey(combine(l, x)) == PodKey(l)
    ensures SameKeys(LeftJoin(left, HourlyReport(raw, base, hours), SameKey, combine), left)
  {
    HourlyMatches(left, raw, base, hours, SameKey);
    UniqueJoinKeys(left, HourlyReport(raw, base, hours), SameKey, combine, PodKey, PodKey);
  }

  /** The three joins against one row per key keep the CPU request rows one for one. */
  lemma StageKeys(raw: Readings, base: int, hours: nat)
    ensures SameKeys(CpuRows(raw, base, hours), RequestRows(raw, base, hours))
    ensures SameKeys(MemoryRequestRows(raw, base, hours), RequestRows(raw, base, hours))
    ensures SameKeys(MemoryRows(raw, base, hours), RequestRows(raw, base, hours))
  {
    JoinSameKeys(RequestRows(raw, base, hours), raw.cpuUsage, base, hours, WithCpuUsage);
    JoinSameKeys(CpuRows(raw, base, hours), raw.memoryRequest, base, hours, WithMemoryRequest);
    JoinSameKeys(MemoryRequestRows(raw, base, hours), raw.memoryUsage, base, hours, WithMemoryUsage);
  }

  lemma RequestKeyed(raw: Readings, base: int, hours: nat, rows: seq<PodRow>)
    requires SameKeys(rows, RequestRows(raw, base, hours))
    ensures Keyed(rows, PodKey)
  {
    var table := HourlyReport(raw.cpuRequest, base, hours);
    HourlyKeyed(raw.cpuRequest, base, hours);
    forall i, j | 0 <= i < j < |rows| ensures PodKey(rows[i]) != PodKey(rows[j]) {
      assert PodKey(rows[i]) == KeyOf(table[i]) && PodKey(rows[j]) == KeyOf(table[j]);
    }
  }

  lemma RequestRowExists(raw: Readings, base: int, hours: nat, rows: seq<PodRow>, i: int, labels: PodLabels)
    requires SameKeys(rows, RequestRows(raw, base, hours)) && 0 <= i < hours
    ensures (exists l | l in rows :: PodKey(l) == (HourStart(base, i), HourStart(base, i) + 3600, labels))
       <==> Requested(raw, HourStart(base, i), labels)
  {
    hide HourlyReport;
    var table := HourlyReport(raw.cpuRequest, base, hours);
    if Requested(raw, HourStart(base, i), labels) {
      var row := HourlyRowExists(raw.cpuRequest, base, hours, i, labels);
      var k :| 0 <= k < |table| && table[k] == row;
      assert rows[k] in rows && PodKey(rows[k]) == KeyOf(row);
    }
    if l :| l in rows && PodKey(l) == (HourStart(base, i), HourStart(base, i) + 3600, labels) {
      var k :| 0 <= k < |rows| && rows[k] == l;
      var _ := HourlyRow(raw.cpuRequest, base, hours, table[k]);
      assert KeyOf(table[k]) == PodKey(l);
    }
  }

  /** A row of a right-hand table is joined once if its pod requested CPU in that hour, and lost otherwise. */
  lemma MatchedOnce<R>(raw: Readings, base: int, hours: nat, rows: seq<PodRow>, on: (PodRow, R) -> bool,
                       r: R, i: int, labels: PodLabels)
    requires SameKeys(rows, RequestRows(raw, base, hours)) && 0 <= i < hours
    requires forall l | l in rows :: on(l, r) <==> InHour(l, HourStart(base, i), HourStart(base, i) + 3600, labels)
    ensures Matched(rows, r, on) == if Requested(raw, HourStart(base, i), labels) then 1 else 0
  {
    RequestKeyed(raw, base, hours, rows);
    RequestRowExists(raw, base, hours, rows, i, labels);
    MatchedKeyed(rows, r, on, PodKey, (HourStart(base, i), HourStart(base, i) + 3600, labels));
  }

  /******* Sums over the joined rows *******/

  /** A left column passes through a join against one row per key unchanged. */
  lemma StageLeft(left: seq<PodRow>, metric: seq<Reading<PodLabels>>, base: int, hours: nat,
                  combine: (PodRow, Option<HourRow<PodLabels>>) -> PodRow, f: PodRow -> real)
    requires forall l, x :: f(combine(l, x)) == f(l)
    ensures Sum(LeftJoin(left, HourlyReport(metric, base, hours), SameKey, combine), f) == Sum(left, f)
  {
    HourlyMatches(left, metric, base, hours, SameKey);
    UniqueJoinSum(left, HourlyReport(metric, base, hours), SameKey, combine, f, f);
  }

  lemma CountedOnce<R>(raw: Readings, base: int, hours: nat, rows: seq<PodRow>, on: (PodRow, R) -> bool,
                       r: R, i: int, labels: PodLabels, x: real)
    requires SameKeys(rows, RequestRows(raw, base, hours)) && 0 <= i < hours
    requires forall l | l in rows :: on(l, r) <==> InHour(l, HourStart(base, i), HourStart(base, i) + 3600, labels)
    requires !Requested(raw, HourStart(base, i), labels) ==> x == 0.0
    ensures x == Times(x, Matched(rows, r, on))
  {
    MatchedOnce(raw, base, hours, rows, on, r, i, labels);
    TimesOnce(x);
  }

  /** The sum of a joined column over the right-hand table: the rows of pods that requested CPU count once. */
  lemma RightTableSum<L>(raw: Readings, base: int, hours: nat, left: seq<PodRow>, metric: seq<Reading<L>>,
                         on: (PodRow, HourRow<L>) -> bool, combine: (PodRow, Option<HourRow<L>>) -> PodRow,
                         pod: L -> PodLabels, f: PodRow -> real, g: HourRow<L> -> real)
    requires SameKeys(left, RequestRows(raw, base, hours))
    requires forall l, r | l in left && r in HourlyReport(metric, base, hours) ::
      on(l, r) <==> InHour(l, r.start, r.end, pod(r.labels))
    requires forall l | l in left :: f(combine(l, None)) == 0.0
    requires forall l, r | l in left && r in HourlyReport(metric, base, hours) && on(l, r) ::
      f(combine(l, Some(r))) == g(r)
    requires forall r | r in HourlyReport(metric, base, hours) && !Requested(raw, r.start, pod(r.labels)) :: g(r) == 0.0
    ensures Sum(LeftJoin(left, HourlyReport(metric, base, hours), on, combine), f)
         == Sum(HourlyReport(metric, base, hours), g)
  {
    var table := HourlyReport(metric, base, hours);
    forall r | r in table ensures g(r) == Times(g(r), Matched(left, r, on)) {
      var i := HourlyRow(metric, base, hours, r);
      CountedOnce(raw, base, hours, left, on, r, i, pod(r.labels), g(r));
    }
    JoinRightSum(left, table, on, combine, f, g, g);
  }

  /******* The accelerator join *******/

  function GpuOf(row: HourRow<GpuLabels>): string {
    row.labels.gpu
  }

  lemma GpuMatchesDistinct(raw: Readings, base: int, hours: nat, l: PodRow)
    ensures Distinct(Map(Matches(l, HourlyReport(raw.gpuRequest, base, hours), SamePod), GpuOf))
  {
    var table, key := HourlyReport(raw.gpuRequest, base, hours), (row: HourRow<GpuLabels>) => KeyOf(row);
    var matches := Matches(l, table, SamePod);
    HourlyKeyed(raw.gpuRequest, base, hours);
    MatchesOfKeyed(l, table, SamePod, key);
    forall a, b | 0 <= a < b < |matches| ensures GpuOf(matches[a]) != GpuOf(matches[b]) {
      assert key(matches[a]) != key(matches[b]);
      assert matches[a] in matches && matches[b] in matches;
    }
  }

  lemma MatchedGpuRequested(raw: Readings, base: int, hours: nat, l: PodRow, gpu: string)
    requires l.end == l.start + 3600
    requires gpu in Map(Matches(l, HourlyReport(raw.gpuRequest, base, hours), SamePod), GpuOf)
    ensures gpu in Accelerators(raw, l.start, l.labels)
  {
    var matches := Matches(l, HourlyReport(raw.gpuRequest, base, hours), SamePod);
    var k :| 0 <= k < |matches| && Map(matches, GpuOf)[k] == gpu;
    assert matches[k] in matches;
    var _ := HourlyRow(raw.gpuRequest, base, hours, matches[k]);
  }

  lemma RequestedGpuMatched(raw: Readings, base: int, hours: nat, l: PodRow, i: int, gpu: string)
    requires 0 <= i < hours && l.start == HourStart(base, i) && l.end == l.start + 3600
    requires gpu in Accelerators(raw, l.start, l.labels)
    ensures gpu in Map(Matches(l, HourlyReport(raw.gpuRequest, base, hours), SamePod), GpuOf)
  {
    hide HourlyReport, Matches;
    var matches := Matches(l, HourlyReport(raw.gpuRequest, base, hours), SamePod);
    assert Occurs(raw.gpuRequest, HourStart(base, i), HourStart(base, i + 1), GpuLabels(l.labels, gpu));
    var row := HourlyRowExists(raw.gpuRequest, base, hours, i, GpuLabels(l.labels, gpu));
    assert row in matches;
    var k :| 0 <= k < |matches| && matches[k] == row;
    assert Map(matches, GpuOf)[k] == gpu;
  }

  lemma GpuNames(raw: Readings, base: int, hours: nat, l: PodRow, i: int, gpus: seq<string>)
    requires 0 <= i < hours && l.start == HourStart(base, i) && l.end == l.start + 3600
    requires gpus == Map(Matches(l, HourlyReport(raw.gpuRequest, base, hours), SamePod), GpuOf)
    ensures Distinct(gpus) && (set gpu | gpu in gpus) == Accelerators(raw, l.start, l.labels)
  {
    GpuMatchesDistinct(raw, base, hours, l);
    forall gpu ensures gpu in gpus <==> gpu in Accelerators(raw, l.start, l.labels) {
      if gpu in gpus {
        MatchedGpuRequested(raw, base, hours, l, gpu);
      }
      if gpu in Accelerators(raw, l.start, l.labels) {
        RequestedGpuMatched(raw, base, hours, l, i, gpu);
      }
    }
  }

  /** A pod's row is joined with one row per accelerator that the pod requested in that hour. */
  lemma GpuMatches(raw: Readings, base: int, hours: nat, l: PodRow, i: int)
    requires 0 <= i < hours && l.start == HourStart(base, i) && l.end == l.start + 3600
    ensures |Matches(l, HourlyReport(raw.gpuRequest, base, hours), SamePod)| == |Accelerators(raw, l.start, l.labels)|
  {
    var gpus := Map(Matches(l, HourlyReport(raw.gpuRequest, base, hours), SamePod), GpuOf);
    GpuNames(raw, base, hours, l, i, gpus);
    DistinctCount(gpus);
  }

  /** What the joined rows of a pod and hour have in their accelerator column. */
  function GpuCells(raw: Readings, start: int, labels: PodLabels): set<Option<string>> {
    if Accelerators(raw, start, labels) == {} then {None}
    else set gpu | gpu in Accelerators(raw, start, labels) :: Some(gpu)
  }

  lemma {:induction false} WrappedCount(gpus: set<string>)
    ensures |set gpu | gpu in gpus :: Some(gpu)| == |gpus|
    decreases gpus
  {
    if gpus != {} {
      var one :| one in gpus;
      WrappedCount(gpus - {one});
      assert (set gpu | gpu in gpus :: Some(gpu)) == {Some(one)} + set gpu | gpu in gpus - {one} :: Some(gpu);
    }
  }

  lemma CellCount(raw: Readings, start: int, labels: PodLabels)
    ensures |GpuCells(raw, start, labels)| == FanOut(raw, start, labels)
  {
    WrappedCount(Accelerators(raw, start, labels));
  }

  lemma CellExactly(raw: Readings, start: int, labels: PodLabels, gpus: seq<string>)
    requires (set gpu | gpu in gpus) == Accelerators(raw, start, labels) != {}
    ensures forall cell :: cell in GpuCells(raw, start, labels) <==> cell.Some? && cell.value in gpus
  {
    assert forall gpu :: gpu in gpus <==> gpu in Accelerators(raw, start, labels);
  }

  function GpuCell(row: PodRow): Option<string> {
    row.gpu
  }

  function JoinedWith(raw: Readings, base: int, hours: nat, l: PodRow): seq<PodRow> {
    JoinRow(l, Matches(l, HourlyReport(raw.gpuRequest, base, hours), SamePod), WithGpu)
  }

  lemma SomeCells(gpus: seq<string>, cells: seq<Option<string>>)
    requires |cells| == |gpus| && forall k | 0 <= k < |gpus| :: cells[k] == Some(gpus[k])
    requires Distinct(gpus)
    ensures Distinct(cells)
    ensures forall cell :: cell in cells <==> cell.Some? && cell.value in gpus
  {
    forall cell: Option<string> | cell.Some? && cell.value in gpus ensures cell in cells {
      var k :| 0 <= k < |gpus| && gpus[k] == cell.value;
      assert cells[k] == cell;
    }
  }

  /** A pod's joined rows have these cells, one row each. */
  lemma JoinedCells(raw: Readings, base: int, hours: nat, l: PodRow, i: int)
    requires 0 <= i < hours && l.start == HourStart(base, i) && l.end == l.start + 3600
    ensures Distinct(Map(JoinedWith(raw, base, hours, l), GpuCell))
    ensures forall gpu ::
              gpu in Map(JoinedWith(raw, base, hours, l), GpuCell) <==> gpu in GpuCells(raw, l.start, l.labels)
  {
    hide HourlyReport, Matches;
    var matches := Matches(l, HourlyReport(raw.gpuRequest, base, hours), SamePod);
    var gpus, cells := Map(matches, GpuOf), Map(JoinedWith(raw, base, hours, l), GpuCell);
    GpuNames(raw, base, hours, l, i, gpus);
    if matches == [] {
      assert gpus == [] && cells == [None];
      assert Accelerators(raw, l.start, l.labels) == {};
    } else {
      forall k | 0 <= k < |matches| ensures cells[k] == Some(gpus[k]) {
        assert JoinedWith(raw, base, hours, l)[k] == WithGpu(l, Some(matches[k]));
      }
      SomeCells(gpus, cells);
      assert gpus[0] in gpus;
      assert gpus[0] in Accelerators(raw, l.start, l.labels);
      CellExactly(raw, l.start, l.labels, gpus);
    }
  }

  /******* What each column of the joined table adds up to *******/

  /** Whether a joined row counts, by its hour, labels and accelerator. */
  type Scope = (int, PodLabels, Option<string>) -> bool

  function Scoped(scope: Scope, col: Column, row: PodRow): real {
    if scope(row.start, row.labels, row.gpu) then OrZero(Cell(row, col)) else 0.0
  }

  function CountedCells(raw: Readings, scope: Scope, start: int, labels: PodLabels): set<Option<string>> {
    set gpu | gpu in GpuCells(raw, start, labels) && scope(start, labels, gpu)
  }

  /** How many joined rows of a pod and hour count. */
  function Repeats(raw: Readings, scope: Scope, start: int, labels: PodLabels): nat {
    |CountedCells(raw, scope, start, labels)|
  }

  /** The weight that hours and pods have. */
  type Weight = (int, PodLabels) -> nat

  function Weighed(w: Weight, col: Column, row: PodRow): real {
    Times(OrZero(Cell(row, col)), w(row.start, row.labels))
  }

  lemma WeighedZero(w: Weight, col: Column, row: PodRow)
    requires Cell(row, col).None?
    ensures Weighed(w, col, row) == 0.0
  {
    TimesZero(w(row.start, row.labels));
  }

  lemma MemoryRowHour(raw: Readings, base: int, hours: nat, l: PodRow) returns (i: int)
    requires l in MemoryRows(raw, base, hours)
    ensures 0 <= i < hours && l.start == HourStart(base, i) && l.end == l.start + 3600
    ensures Requested(raw, l.start, l.labels)
  {
    StageKeys(raw, base, hours);
    var k :| 0 <= k < |MemoryRows(raw, base, hours)| && MemoryRows(raw, base, hours)[k] == l;
    var row := HourlyReport(raw.cpuRequest, base, hours)[k];
    assert PodKey(l) == KeyOf(row);
    i := HourlyRow(raw.cpuRequest, base, hours, row);
  }

  lemma JoinedRowCells(raw: Readings, base: int, hours: nat, l: PodRow, scope: Scope, col: Column, row: PodRow)
    requires !col.GpuRequest? && row in JoinedWith(raw, base, hours, l)
    ensures Scoped(scope, col, row) == if scope(l.start, l.labels, row.gpu) then OrZero(Cell(l, col)) else 0.0
  {
    hide HourlyReport, Matches;
    var rows := JoinedWith(raw, base, hours, l);
    var k :| 0 <= k < |rows| && rows[k] == row;
    var matches := Matches(l, HourlyReport(raw.gpuRequest, base, hours), SamePod);
    var x := if matches == [] then None else Some(matches[k]);
    assert row == WithGpu(l, x);
  }

  lemma JoinedWithSum(raw: Readings, base: int, hours: nat, scope: Scope, col: Column, l: PodRow, i: int)
    requires 0 <= i < hours && l.start == HourStart(base, i) && l.end == l.start + 3600 && !col.GpuRequest?
    ensures Sum(JoinedWith(raw, base, hours, l), (row: PodRow) => Scoped(scope, col, row))
         == Times(OrZero(Cell(l, col)), Repeats(raw, scope, l.start, l.labels))
  {
    hide JoinedWith, Scoped, HourStart;
    var rows, c := JoinedWith(raw, base, hours, l), OrZero(Cell(l, col));
    var p := (gpu: Option<string>) => scope(l.start, l.labels, gpu);
    var f := (row: PodRow) => Scoped(scope, col, row);
    var g := (gpu: Option<string>) => if p(gpu) then c else 0.0;
    var h := (row: PodRow) => g(GpuCell(row));
    var cells := Map(rows, GpuCell);
    forall row | row in rows ensures f(row) == h(row) {
      JoinedRowCells(raw, base, hours, l, scope, col, row);
    }
    SumCongruence(rows, f, h);
    SumMap(rows, GpuCell, g, h);
    ChosenSum(cells, p, c, g);
    JoinedCells(raw, base, hours, l, i);
    DistinctChosen(cells, p, CountedCells(raw, scope, l.start, l.labels));
  }

  /** The accelerator join repeats every other column once for each of the pod's accelerators that counts, and once
      without an accelerator for a pod that has none. */
  lemma GpuFanOut(raw: Readings, base: int, hours: nat, scope: Scope, col: Column, w: Weight)
    requires !col.GpuRequest?
    requires forall start, labels :: w(start, labels) == Repeats(raw, scope, start, labels)
    ensures Sum(JoinedRows(raw, base, hours), (row: PodRow) => Scoped(scope, col, row))
         == Sum(MemoryRows(raw, base, hours), (row: PodRow) => Weighed(w, col, row))
  {
    hide Scoped, MemoryRows;
    var left, table := MemoryRows(raw, base, hours), HourlyReport(raw.gpuRequest, base, hours);
    var f, h := (row: PodRow) => Scoped(scope, col, row), (row: PodRow) => Weighed(w, col, row);
    forall l | l in left ensures h(l) == Sum(JoinRow(l, Matches(l, table, SamePod), WithGpu), f) {
      var i := MemoryRowHour(raw, base, hours, l);
      JoinedWithSum(raw, base, hours, scope, col, l, i);
    }
    JoinSum(left, table, SamePod, WithGpu, f, h);
  }

  /** The CPU request column before the accelerator join. */
  lemma CpuRequestWeighed(raw: Readings, base: int, hours: nat, w: Weight, v: Reading<PodLabels> -> real)
    requires forall r | r in raw.cpuRequest :: v(r) == Times(r.amount, w(HourOf(base, r.time), r.labels))
    ensures Sum(MemoryRows(raw, base, hours), (row: PodRow) => Weighed(w, CpuRequest, row))
         == Sum(InWindow(raw.cpuRequest, base, HourStart(base, hours)), v)
  {
    var f := (row: PodRow) => Weighed(w, CpuRequest, row);
    var table := HourlyReport(raw.cpuRequest, base, hours);
    var perRow := (r: HourRow<PodLabels>) => f(Requesting(r));
    StageLeft(MemoryRequestRows(raw, base, hours), raw.memoryUsage, base, hours, WithMemoryUsage, f);
    StageLeft(CpuRows(raw, base, hours), raw.memoryRequest, base, hours, WithMemoryRequest, f);
    StageLeft(RequestRows(raw, base, hours), raw.cpuUsage, base, hours, WithCpuUsage, f);
    SumMap(table, Requesting, f, perRow);
    HourlyConservation(raw.cpuRequest, base, hours, w, perRow, v);
  }

  /** Every CPU request is billed once for each joined row of its pod and hour that counts. */
  lemma CpuRequestBilled(raw: Readings, base: int, hours: nat, scope: Scope, v: Reading<PodLabels> -> real)
    requires forall r | r in raw.cpuRequest ::
      v(r) == Times(r.amount, Repeats(raw, scope, HourOf(base, r.time), r.labels))
    ensures Sum(JoinedRows(raw, base, hours), (row: PodRow) => Scoped(scope, CpuRequest, row))
         == Sum(InWindow(raw.cpuRequest, base, HourStart(base, hours)), v)
  {
    hide Repeats, JoinedRows, MemoryRows;
    var w := (start: int, labels: PodLabels) => Repeats(raw, scope, start, labels);
    GpuFanOut(raw, base, hours, scope, CpuRequest, w);
    CpuRequestWeighed(raw, base, hours, w, v);
  }

  lemma RequestedRow(raw: Readings, base: int, hours: nat, rows: seq<PodRow>, l: PodRow)
    requires SameKeys(rows, RequestRows(raw, base, hours)) && l in rows
    ensures Requested(raw, l.start, l.labels)
  {
    var k :| 0 <= k < |rows| && rows[k] == l;
    var row := HourlyReport(raw.cpuRequest, base, hours)[k];
    assert PodKey(l) == KeyOf(row);
    var _ := HourlyRow(raw.cpuRequest, base, hours, row);
  }

  /** The weight of a column joined on the right: nothing where the pod requested no CPU. */
  ghost function IfRequested(raw: Readings, start: int, labels: PodLabels, n: nat): nat {
    if Requested(raw, start, labels) then n else 0
  }

  lemma WeighedRow(raw: Readings, w: Weight, col: Column, l: PodRow, r: HourRow<PodLabels>, row: PodRow)
    requires SameKey(l, r) && Requested(raw, l.start, l.labels)
    requires PodKey(row) == PodKey(l) && Cell(row, col) == Some(r.amount)
    ensures Weighed(w, col, row) == Times(r.amount, IfRequested(raw, r.start, r.labels, w(r.start, r.labels)))
  {
  }

  /** A column joined on the right counts where its pod requested CPU in the same hour, and is lost elsewhere. */
  lemma JoinedColumn(raw: Readings, base: int, hours: nat, w: Weight, col: Column,
                     left: seq<PodRow>, metric: seq<Reading<PodLabels>>,
                     combine: (PodRow, Option<HourRow<PodLabels>>) -> PodRow, v: Reading<PodLabels> -> real)
    requires SameKeys(left, RequestRows(raw, base, hours))
    requires forall l, x :: PodKey(combine(l, x)) == PodKey(l) && Cell(combine(l, x), col) == Amount(x)
    requires forall r | r in metric ::
      v(r) == Times(r.amount, IfRequested(raw, HourOf(base, r.time), r.labels, w(HourOf(base, r.time), r.labels)))
    ensures Sum(LeftJoin(left, HourlyReport(metric, base, hours), SameKey, combine),
                (row: PodRow) => Weighed(w, col, row))
         == Sum(InWindow(metric, base, HourStart(base, hours)), v)
  {
    hide HourlyReport, LeftJoin, InWindow, Weighed;
    var table := HourlyReport(metric, base, hours);
    var f := (row: PodRow) => Weighed(w, col, row);
    var kept := (start: int, labels: PodLabels) => IfRequested(raw, start, labels, w(start, labels));
    var g := (r: HourRow<PodLabels>) => Times(r.amount, kept(r.start, r.labels));
    forall l | l in left ensures f(combine(l, None)) == 0.0 {
      WeighedZero(w, col, combine(l, None));
    }
    forall l, r | l in left && r in table && SameKey(l, r) ensures f(combine(l, Some(r))) == g(r) {
      RequestedRow(raw, base, hours, left, l);
      WeighedRow(raw, w, col, l, r, combine(l, Some(r)));
    }
    forall r | r in table && !Requested(raw, r.start, r.labels) ensures g(r) == 0.0 {
      TimesOnce(r.amount);
    }
    RightTableSum(raw, base, hours, left, metric, SameKey, combine, (labels: PodLabels) => labels, f, g);
    HourlyConservation(metric, base, hours, kept, g, v);
  }

  /** The metric behind a column that is joined on the right. */
  function JoinedMetric(raw: Readings, col: Column): seq<Reading<PodLabels>> {
    match col
    case CpuUsage => raw.cpuUsage
    case MemoryRequest => raw.memoryRequest
    case _ => raw.memoryUsage
  }

  lemma CpuUsageWeighed(raw: Readings, base: int, hours: nat, w: Weight, v: Reading<PodLabels> -> real)
    requires forall r | r in raw.cpuUsage ::
      v(r) == Times(r.amount, IfRequested(raw, HourOf(base, r.time), r.labels, w(HourOf(base, r.time), r.labels)))
    ensures Sum(MemoryRows(raw, base, hours), (row: PodRow) => Weighed(w, CpuUsage, row))
         == Sum(InWindow(raw.cpuUsage, base, HourStart(base, hours)), v)
  {
    var f := (row: PodRow) => Weighed(w, CpuUsage, row);
    StageKeys(raw, base, hours);
    StageLeft(MemoryRequestRows(raw, base, hours), raw.memoryUsage, base, hours, WithMemoryUsage, f);
    StageLeft(CpuRows(raw, base, hours), raw.memoryRequest, base, hours, WithMemoryRequest, f);
    JoinedColumn(raw, base, hours, w, CpuUsage, RequestRows(raw, base, hours), raw.cpuUsage, WithCpuUsage, v);
  }

  lemma MemoryRequestWeighed(raw: Readings, base: int, hours: nat, w: Weight, v: Reading<PodLabels> -> real)
    requires forall r | r in raw.memoryRequest ::
      v(r) == Times(r.amount, IfRequested(raw, HourOf(base, r.time), r.labels, w(HourOf(base, r.time), r.labels)))
    ensures Sum(MemoryRows(raw, base, hours), (row: PodRow) => Weighed(w, MemoryRequest, row))
         == Sum(InWindow(raw.memoryRequest, base, HourStart(base, hours)), v)
  {
    hide HourlyReport, LeftJoin, InWindow;
    StageKeys(raw, base, hours);
    StageLeft(MemoryRequestRows(raw, base, hours), raw.memoryUsage, base, hours, WithMemoryUsage,
              (row: PodRow) => Weighed(w, MemoryRequest, row));
    JoinedColumn(raw, base, hours, w, MemoryRequest, CpuRows(raw, base, hours), raw.memoryRequest,
                 WithMemoryRequest, v);
  }

  lemma MemoryUsageWeighed(raw: Readings, base: int, hours: nat, w: Weight, v: Reading<PodLabels> -> real)
    requires forall r | r in raw.memoryUsage ::
      v(r) == Times(r.amount, IfRequested(raw, HourOf(base, r.time), r.labels, w(HourOf(base, r.time), r.labels)))
    ensures Sum(MemoryRows(raw, base, hours), (row: PodRow) => Weighed(w, MemoryUsage, row))
         == Sum(InWindow(raw.memoryUsage, base, HourStart(base, hours)), v)
  {
    hide HourlyReport, InWindow, Weighed;
    StageKeys(raw, base, hours);
    JoinedColumn(raw, base, hours, w, MemoryUsage, MemoryRequestRows(raw, base, hours), raw.memoryUsage,
                 WithMemoryUsage, v);
  }

  /** The other columns are billed in the same way, where their pods requested CPU in the same hour. */
  lemma JoinedBilled(raw: Readings, base: int, hours: nat, col: Column, scope: Scope, v: Reading<PodLabels> -> real)
    requires col.CpuUsage? || col.MemoryRequest? || col.MemoryUsage?
    requires forall r | r in JoinedMetric(raw, col) ::
      v(r) == Times(r.amount, IfRequested(raw, HourOf(base, r.time), r.labels,
                                          Repeats(raw, scope, HourOf(base, r.time), r.labels)))
    ensures Sum(JoinedRows(raw, base, hours), (row: PodRow) => Scoped(scope, col, row))
         == Sum(InWindow(JoinedMetric(raw, col), base, HourStart(base, hours)), v)
  {
    hide Repeats, JoinedRows, MemoryRows, Weighed, Scoped, InWindow;
    var w := (start: int, labels: PodLabels) => Repeats(raw, scope, start, labels);
    GpuFanOut(raw, base, hours, scope, col, w);
    match col
    case CpuUsage => CpuUsageWeighed(raw, base, hours, w, v);
    case MemoryRequest => MemoryRequestWeighed(raw, base, hours, w, v);
    case MemoryUsage => MemoryUsageWeighed(raw, base, hours, w, v);
  }

  lemma ScopedGpu(scope: Scope, l: PodRow, r: HourRow<GpuLabels>)
    requires SamePod(l, r)
    ensures Scoped(scope, GpuRequest, WithGpu(l, Some(r)))
         == if scope(r.start, r.labels.pod, Some(r.labels.gpu)) then r.amount else 0.0
    ensures l.start == r.start && l.labels == r.labels.pod
  {
  }

  ghost function GpuAmount(raw: Readings, scope: Scope, r: HourRow<GpuLabels>): real {
    if scope(r.start, r.labels.pod, Some(r.labels.gpu)) && Requested(raw, r.start, r.labels.pod) then r.amount else 0.0
  }

  lemma NoGpuCell(scope: Scope, l: PodRow)
    ensures Scoped(scope, GpuRequest, WithGpu(l, None)) == 0.0
  {
  }

  lemma GpuRowAmount(raw: Readings, base: int, hours: nat, scope: Scope, l: PodRow, r: HourRow<GpuLabels>)
    requires l in MemoryRows(raw, base, hours) && SamePod(l, r)
    ensures Scoped(scope, GpuRequest, WithGpu(l, Some(r))) == GpuAmount(raw, scope, r)
  {
    var _ := MemoryRowHour(raw, base, hours, l);
    ScopedGpu(scope, l, r);
  }

  lemma GpuTableSum(raw: Readings, base: int, hours: nat, scope: Scope)
    ensures Sum(JoinedRows(raw, base, hours), (row: PodRow) => Scoped(scope, GpuRequest, row))
         == Sum(HourlyReport(raw.gpuRequest, base, hours), (r: HourRow<GpuLabels>) => GpuAmount(raw, scope, r))
  {
    var left, table := MemoryRows(raw, base, hours), HourlyReport(raw.gpuRequest, base, hours);
    var f := (row: PodRow) => Scoped(scope, GpuRequest, row);
    var g := (r: HourRow<GpuLabels>) => GpuAmount(raw, scope, r);
    StageKeys(raw, base, hours);
    forall l | l in left ensures f(WithGpu(l, None)) == 0.0 {
      NoGpuCell(scope, l);
    }
    forall l, r | l in left && r in table && SamePod(l, r) ensures f(WithGpu(l, Some(r))) == g(r) {
      GpuRowAmount(raw, base, hours, scope, l, r);
    }
    RightTableSum(raw, base, hours, left, raw.gpuRequest, SamePod, WithGpu, (labels: GpuLabels) => labels.pod, f, g);
  }

  /** Accelerator requests are billed once where their pod requested CPU in the same hour, and lost elsewhere. */
  lemma GpuRequestBilled(raw: Readings, base: int, hours: nat, scope: Scope, v: Reading<GpuLabels> -> real)
    requires forall r | r in raw.gpuRequest ::
      v(r) == if scope(HourOf(base, r.time), r.labels.pod, Some(r.labels.gpu))
                 && Requested(raw, HourOf(base, r.time), r.labels.pod)
              then r.amount else 0.0
    ensures Sum(JoinedRows(raw, base, hours), (row: PodRow) => Scoped(scope, GpuRequest, row))
         == Sum(InWindow(raw.gpuRequest, base, HourStart(base, hours)), v)
  {
    var w := (start: int, labels: GpuLabels) =>
      if scope(start, labels.pod, Some(labels.gpu)) && Requested(raw, start, labels.pod) then 1 else 0;
    var g := (r: HourRow<GpuLabels>) => GpuAmount(raw, scope, r);
    GpuTableSum(raw, base, hours, scope);
    forall r | r in HourlyReport(raw.gpuRequest, base, hours) ensures g(r) == Times(r.amount, w(r.start, r.labels)) {
      TimesOnce(r.amount);
    }
    forall r | r in raw.gpuRequest ensures v(r) == Times(r.amount, w(HourOf(base, r.time), r.labels)) {
      TimesOnce(r.amount);
    }
    HourlyConservation(raw.gpuRequest, base, hours, w, g, v);
  }
}
