/** The project report row by row: which rows it has and what is in each cell. */
module ReportRows {
  import opened Wrappers
  import opened Sums
  import opened Reports
  import opened PodReport
  import opened PodTotals
  import opened ProjectBilling

  /******* From the joined rows *******/

  /** Whether a joined row belongs to a row of the report. */
  predicate Belongs(row: ProjectRow, r: PodRow) {
    row.start <= r.start && r.end <= row.end && r.labels.project == row.project && r.gpu == row.gpu
  }

  function Kept(rows: seq<PodRow>, start: int, end: int): seq<PodRow> {
    Filter(rows, (row: PodRow) => start <= row.start && row.end <= end)
  }

  function Rows(groups: seq<Group<(string, Option<string>), PodRow>>, start: int, end: int): seq<ProjectRow> {
    Map(groups, (g: Group<(string, Option<string>), PodRow>) => Roll(start, end, g))
  }

  lemma FromGroups(rows: seq<PodRow>, start: int, end: int)
    ensures ByProject(rows, start, end) == Rows(GroupBy(Kept(rows, start, end), ProjectAndGpu), start, end)
  {
  }

  lemma RolledKey(start: int, end: int, g: Group<(string, Option<string>), PodRow>)
    ensures var row := Roll(start, end, g);
            row.start == start && row.end == end && row.project == g.key.0 && row.gpu == g.key.1
  {
  }

  /** The report never has two rows for one project and accelerator. */
  lemma OneRowPerPair(rows: seq<PodRow>, start: int, end: int)
    ensures var report := ByProject(rows, start, end);
            forall a, b | 0 <= a < b < |report| ::
              report[a].project != report[b].project || report[a].gpu != report[b].gpu
  {
    hide GroupBy, ByProject, Roll;
    GroupsExactly(Kept(rows, start, end), ProjectAndGpu);
    FromGroups(rows, start, end);
    var groups := GroupBy(Kept(rows, start, end), ProjectAndGpu);
    var report := Rows(groups, start, end);
    forall a, b | 0 <= a < b < |report|
      ensures report[a].project != report[b].project || report[a].gpu != report[b].gpu
    {
      RolledKey(start, end, groups[a]);
      RolledKey(start, end, groups[b]);
    }
  }

  lemma PairRolled(rows: seq<PodRow>, start: int, end: int, r: PodRow) returns (row: ProjectRow)
    requires r in rows && start <= r.start && r.end <= end
    ensures row in ByProject(rows, start, end) && row.project == r.labels.project && row.gpu == r.gpu
  {
    hide GroupBy, ByProject, Roll;
    var groups := GroupBy(Kept(rows, start, end), ProjectAndGpu);
    GroupsExactly(Kept(rows, start, end), ProjectAndGpu);
    FromGroups(rows, start, end);
    assert r in Kept(rows, start, end);
    var g :| g in groups && g.key == ProjectAndGpu(r);
    var k :| 0 <= k < |groups| && groups[k] == g;
    row := Rows(groups, start, end)[k];
    RolledKey(start, end, g);
  }

  lemma RolledFrom(rows: seq<PodRow>, start: int, end: int, row: ProjectRow)
    returns (g: Group<(string, Option<string>), PodRow>)
    requires row in ByProject(rows, start, end)
    ensures row == Roll(start, end, g) && g == GroupOf(Kept(rows, start, end), ProjectAndGpu, g.key) && g.rows != []
  {
    hide GroupBy, ByProject, Roll, Kept;
    var groups := GroupBy(Kept(rows, start, end), ProjectAndGpu);
    GroupsExactly(Kept(rows, start, end), ProjectAndGpu);
    FromGroups(rows, start, end);
    var k :| 0 <= k < |groups| && Rows(groups, start, end)[k] == row;
    g := groups[k];
    assert g in groups;
  }

  lemma PairFound(rows: seq<PodRow>, start: int, end: int, row: ProjectRow) returns (r: PodRow)
    requires row in ByProject(rows, start, end)
    ensures r in rows && start <= r.start && r.end <= end && r.labels.project == row.project && r.gpu == row.gpu
  {
    hide ByProject, Roll;
    var g := RolledFrom(rows, start, end, row);
    RolledKey(start, end, g);
    r := g.rows[0];
    assert r in g.rows && ProjectAndGpu(r) == g.key;
  }

  /** It has one for a project and accelerator exactly if a joined row of the period has them. */
  lemma PairListed(rows: seq<PodRow>, start: int, end: int, project: string, gpu: Option<string>)
    ensures (exists row | row in ByProject(rows, start, end) :: row.project == project && row.gpu == gpu)
       <==> exists r | r in rows :: start <= r.start && r.end <= end && r.labels.project == project && r.gpu == gpu
  {
    hide ByProject;
    if r :| r in rows && start <= r.start && r.end <= end && r.labels.project == project && r.gpu == gpu {
      var _ := PairRolled(rows, start, end, r);
    }
    if row :| row in ByProject(rows, start, end) && row.project == project && row.gpu == gpu {
      var _ := PairFound(rows, start, end, row);
    }
  }

  lemma NullSumExactly(rows: seq<PodRow>, col: Column, has: PodRow -> bool, amount: PodRow -> real)
    requires forall row | row in rows :: (has(row) <==> Cell(row, col).Some?) && amount(row) == OrZero(Cell(row, col))
    ensures SumOf(NullSum(rows, col), rows, has, amount)
  {
    NullSumValue(rows, col);
    SumCongruence(rows, (row: PodRow) => OrZero(Cell(row, col)),
                  (row: PodRow) => if has(row) then amount(row) else 0.0);
  }

  lemma ColumnExactly(rows: seq<PodRow>, start: int, end: int, key: (string, Option<string>), col: Column,
                      counts: PodRow -> bool, value: PodRow -> real)
    requires forall r | r in rows ::
      counts(r) <==> start <= r.start && r.end <= end && ProjectAndGpu(r) == key && Cell(r, col).Some?
    requires forall r | r in rows && counts(r) :: value(r) == Cell(r, col).value
    ensures SumOf(NullSum(GroupOf(Kept(rows, start, end), ProjectAndGpu, key).rows, col), rows, counts, value)
  {
    hide Cell, SumOf, NullSum;
    var toKey := ProjectAndGpu;
    var ofKey := (r: PodRow) => toKey(r) == key;
    var has, amount := (r: PodRow) => Cell(r, col).Some?, (r: PodRow) => OrZero(Cell(r, col));
    var hasKey := (r: PodRow) => ofKey(r) && has(r);
    var mine := GroupOf(Kept(rows, start, end), toKey, key).rows;
    GroupRows(Kept(rows, start, end), toKey, key, ofKey);
    NullSumExactly(mine, col, has, amount);
    SumOfFilter(NullSum(mine, col), Kept(rows, start, end), ofKey, has, amount, hasKey, amount);
    SumOfFilter(NullSum(mine, col), rows, (r: PodRow) => start <= r.start && r.end <= end, hasKey, amount,
                counts, value);
  }

  /** Its cells are SQL sums of the joined rows that belong to it, column by column. */
  lemma RowExactly(rows: seq<PodRow>, start: int, end: int, row: ProjectRow)
    requires row in ByProject(rows, start, end)
    ensures row.start == start && row.end == end
    ensures SumOf(row.cpuRequest, rows, (r: PodRow) => Belongs(row, r) && r.cpuRequest.Some?,
                  (r: PodRow) => if r.cpuRequest.Some? then r.cpuRequest.value else 0.0)
    ensures SumOf(row.cpuUsage, rows, (r: PodRow) => Belongs(row, r) && r.cpuUsage.Some?,
                  (r: PodRow) => if r.cpuUsage.Some? then r.cpuUsage.value else 0.0)
    ensures SumOf(row.memoryRequest, rows, (r: PodRow) => Belongs(row, r) && r.memoryRequest.Some?,
                  (r: PodRow) => if r.memoryRequest.Some? then r.memoryRequest.value else 0.0)
    ensures SumOf(row.memoryUsage, rows, (r: PodRow) => Belongs(row, r) && r.memoryUsage.Some?,
                  (r: PodRow) => if r.memoryUsage.Some? then r.memoryUsage.value else 0.0)
    ensures SumOf(row.gpuRequest, rows, (r: PodRow) => Belongs(row, r) && r.gpuRequest.Some?,
                  (r: PodRow) => if r.gpuRequest.Some? then r.gpuRequest.value else 0.0)
  {
    hide GroupOf, ByProject, SumOf, NullSum, Kept;
    var g := RolledFrom(rows, start, end, row);
    var key := g.key;
    ColumnExactly(rows, start, end, key, CpuRequest, (r: PodRow) => Belongs(row, r) && r.cpuRequest.Some?,
                  (r: PodRow) => if r.cpuRequest.Some? then r.cpuRequest.value else 0.0);
    ColumnExactly(rows, start, end, key, CpuUsage, (r: PodRow) => Belongs(row, r) && r.cpuUsage.Some?,
                  (r: PodRow) => if r.cpuUsage.Some? then r.cpuUsage.value else 0.0);
    ColumnExactly(rows, start, end, key, MemoryRequest, (r: PodRow) => Belongs(row, r) && r.memoryRequest.Some?,
                  (r: PodRow) => if r.memoryRequest.Some? then r.memoryRequest.value else 0.0);
    ColumnExactly(rows, start, end, key, MemoryUsage, (r: PodRow) => Belongs(row, r) && r.memoryUsage.Some?,
                  (r: PodRow) => if r.memoryUsage.Some? then r.memoryUsage.value else 0.0);
    ColumnExactly(rows, start, end, key, GpuRequest, (r: PodRow) => Belongs(row, r) && r.gpuRequest.Some?,
                  (r: PodRow) => if r.gpuRequest.Some? then r.gpuRequest.value else 0.0);
  }

  /******* The joined rows from the readings *******/

  /** The joined table has a row for a pod, an hour and an accelerator exactly if the pod requested CPU in that hour and
      the accelerator, or none of them. */
  lemma JoinedRowListed(raw: Readings, base: int, hours: nat, h: int, labels: PodLabels, gpu: Option<string>)
    requires 0 <= h < hours
    ensures (exists row | row in JoinedRows(raw, base, hours) ::
               row.start == HourStart(base, h) && row.labels == labels && row.gpu == gpu)
       <==> Requested(raw, HourStart(base, h), labels) && gpu in GpuCells(raw, HourStart(base, h), labels)
  {
    hide HourlyReport, GpuCells, HourStart, JoinedRows;
    if Requested(raw, HourStart(base, h), labels) && gpu in GpuCells(raw, HourStart(base, h), labels) {
      var _ := JoinedRowExists(raw, base, hours, h, labels, gpu);
    }
    if row :| row in JoinedRows(raw, base, hours)
              && row.start == HourStart(base, h) && row.labels == labels && row.gpu == gpu {
      var _ := JoinedRowFrom(raw, base, hours, row);
    }
  }

  lemma JoinedRowExists(raw: Readings, base: int, hours: nat, h: int, labels: PodLabels, gpu: Option<string>)
    returns (row: PodRow)
    requires 0 <= h < hours
    requires Requested(raw, HourStart(base, h), labels) && gpu in GpuCells(raw, HourStart(base, h), labels)
    ensures row in JoinedRows(raw, base, hours)
    ensures row.start == HourStart(base, h) && row.labels == labels && row.gpu == gpu
  {
    hide HourlyReport, GpuCells, HourStart, LeftJoin;
    var left := MemoryRows(raw, base, hours);
    StageKeys(raw, base, hours);
    RequestRowExists(raw, base, hours, left, h, labels);
    var l :| l in left && PodKey(l) == (HourStart(base, h), HourStart(base, h) + 3600, labels);
    var rows := JoinedWith(raw, base, hours, l);
    JoinedCells(raw, base, hours, l, h);
    var k :| 0 <= k < |rows| && Map(rows, GpuCell)[k] == gpu;
    row := rows[k];
    JoinHas(left, HourlyReport(raw.gpuRequest, base, hours), SamePod, WithGpu, l, row);
    JoinedWithKey(raw, base, hours, l, row);
  }

  lemma JoinedWithKey(raw: Readings, base: int, hours: nat, l: PodRow, row: PodRow)
    requires row in JoinedWith(raw, base, hours, l)
    ensures PodKey(row) == PodKey(l)
    ensures row.cpuRequest == l.cpuRequest && row.cpuUsage == l.cpuUsage
    ensures row.memoryRequest == l.memoryRequest && row.memoryUsage == l.memoryUsage
    ensures row.gpuRequest.Some? <==> row.gpu.Some?
  {
    hide HourlyReport, Matches;
    var rows := JoinedWith(raw, base, hours, l);
    var k :| 0 <= k < |rows| && rows[k] == row;
    var matches := Matches(l, HourlyReport(raw.gpuRequest, base, hours), SamePod);
    assert row == WithGpu(l, if matches == [] then None else Some(matches[k]));
  }

  lemma JoinedRowFrom(raw: Readings, base: int, hours: nat, row: PodRow) returns (l: PodRow)
    requires row in JoinedRows(raw, base, hours)
    ensures l in MemoryRows(raw, base, hours) && row in JoinedWith(raw, base, hours, l)
    ensures Requested(raw, row.start, row.labels) && row.gpu in GpuCells(raw, row.start, row.labels)
  {
    hide HourlyReport, GpuCells, LeftJoin, MemoryRows;
    var left, table := MemoryRows(raw, base, hours), HourlyReport(raw.gpuRequest, base, hours);
    var x;
    l, x := InJoin(left, table, SamePod, WithGpu, row);
    var rows := JoinedWith(raw, base, hours, l);
    JoinedWithKey(raw, base, hours, l, row);
    var h := MemoryRowHour(raw, base, hours, l);
    JoinedCells(raw, base, hours, l, h);
    var k :| 0 <= k < |rows| && rows[k] == row;
    assert Map(rows, GpuCell)[k] == row.gpu;
  }

  /** A joined cell is NULL exactly if the metric has no reading of the pod in the hour. */
  lemma StageCell(left: seq<PodRow>, metric: seq<Reading<PodLabels>>, base: int, hours: nat,
                  combine: (PodRow, Option<HourRow<PodLabels>>) -> PodRow, o: PodRow)
    returns (l: PodRow, x: Option<HourRow<PodLabels>>)
    requires o in LeftJoin(left, HourlyReport(metric, base, hours), SameKey, combine)
    requires forall l, x :: PodKey(combine(l, x)) == PodKey(l)
    requires exists h | 0 <= h < hours :: o.start == HourStart(base, h) && o.end == o.start + 3600
    ensures l in left && o == combine(l, x)
    ensures x.Some? <==> Occurs(metric, o.start, o.end, o.labels)
  {
    hide HourlyReport, LeftJoin, Matches;
    var table := HourlyReport(metric, base, hours);
    l, x := InJoin(left, table, SameKey, combine, o);
    if x.Some? {
      var _ := HourlyRow(metric, base, hours, x.value);
      assert PodKey(l) == KeyOf(x.value);
    }
    if Occurs(metric, o.start, o.end, o.labels) {
      var h :| 0 <= h < hours && o.start == HourStart(base, h) && o.end == o.start + 3600;
      var row := HourlyRowExists(metric, base, hours, h, o.labels);
      assert SameKey(l, row);
    }
  }

  lemma JoinedNulls(raw: Readings, base: int, hours: nat, row: PodRow)
    requires row in JoinedRows(raw, base, hours)
    ensures row.cpuRequest.Some? && (row.gpuRequest.Some? <==> row.gpu.Some?)
    ensures row.cpuUsage.Some? <==> Occurs(raw.cpuUsage, row.start, row.end, row.labels)
    ensures row.memoryRequest.Some? <==> Occurs(raw.memoryRequest, row.start, row.end, row.labels)
    ensures row.memoryUsage.Some? <==> Occurs(raw.memoryUsage, row.start, row.end, row.labels)
  {
    hide HourlyReport, LeftJoin, JoinedRows, JoinedWith, Occurs, RequestRows;
    var l := JoinedRowFrom(raw, base, hours, row);
    JoinedWithKey(raw, base, hours, l, row);
    var h := MemoryRowHour(raw, base, hours, l);
    var l2, x2 := StageCell(MemoryRequestRows(raw, base, hours), raw.memoryUsage, base, hours, WithMemoryUsage, l);
    var l1, x1 := StageCell(CpuRows(raw, base, hours), raw.memoryRequest, base, hours, WithMemoryRequest, l2);
    var l0, x0 := StageCell(RequestRows(raw, base, hours), raw.cpuUsage, base, hours, WithCpuUsage, l1);
    RequestRowCells(raw, base, hours, l0);
  }

  lemma RequestRowCells(raw: Readings, base: int, hours: nat, l: PodRow)
    requires l in RequestRows(raw, base, hours)
    ensures l.cpuRequest.Some?
  {
    hide HourlyReport;
    var k :| 0 <= k < |RequestRows(raw, base, hours)| && RequestRows(raw, base, hours)[k] == l;
  }

  lemma PodHourlyRows(raw: Readings, base: int, hours: nat)
    ensures forall row :: row in PodHourly(raw, base, hours) <==> row in JoinedRows(raw, base, hours)
  {
    hide JoinedRows;
    var rows := JoinedRows(raw, base, hours);
    forall row | row in rows ensures base <= row.start < HourStart(base, hours) {
      var i := JoinedRowHour(raw, base, hours, row);
    }
    ByHoursRows(rows, PodStart, base, hours);
  }

  /******* The report from the readings *******/

  /** Whether a reading with this time and these labels is one for a row of the report. */
  predicate ReadFor(raw: Readings, base: int, i: nat, j: nat, row: ProjectRow, time: int, labels: PodLabels) {
    && HourStart(base, i) <= time < HourStart(base, j)
    && labels.project == row.project
    && row.gpu in GpuCells(raw, HourOf(base, time), labels)
  }

  /** The hour of a joined row that belongs to a row of the report from hour `i` to hour `j`. */
  lemma BelongsHour(raw: Readings, base: int, hours: nat, i: nat, j: nat, row: ProjectRow, r: PodRow) returns (h: nat)
    requires row.start == HourStart(base, i) && row.end == HourStart(base, j)
    requires r in PodHourly(raw, base, hours) && Belongs(row, r)
    ensures i <= h < j && h < hours && r.start == HourStart(base, h) && r.end == r.start + 3600
    ensures r in JoinedRows(raw, base, hours)
  {
    hide PodHourly, JoinedRows;
    PodHourlyRows(raw, base, hours);
    h := JoinedRowHour(raw, base, hours, r);
  }

  lemma ReadingHour(base: int, i: nat, j: nat, time: int) returns (h: nat)
    requires HourStart(base, i) <= time < HourStart(base, j)
    ensures i <= h < j && HourStart(base, h) == HourOf(base, time) <= time < HourStart(base, h) + 3600
  {
    h := (time - base) / 3600;
  }

  /** A joined row that belongs to the report's row for a reading of a pod that requested CPU in that hour. */
  lemma JoinedRowFor(raw: Readings, base: int, hours: nat, i: nat, j: nat, row: ProjectRow, time: int,
                     labels: PodLabels) returns (r: PodRow)
    requires j <= hours && row.start == HourStart(base, i) && row.end == HourStart(base, j)
    requires ReadFor(raw, base, i, j, row, time, labels) && Requested(raw, HourOf(base, time), labels)
    ensures r in PodHourly(raw, base, hours) && r in JoinedRows(raw, base, hours) && Belongs(row, r)
    ensures r.start <= time < r.end && r.labels == labels
  {
    hide PodHourly, JoinedRows, GpuCells;
    var h := ReadingHour(base, i, j, time);
    r := JoinedRowExists(raw, base, hours, h, labels, row.gpu);
    PodHourlyRows(raw, base, hours);
    var _ := JoinedRowHour(raw, base, hours, r);
  }

  lemma CellSome(rows: seq<PodRow>, start: int, end: int, row: ProjectRow, col: Column)
    requires row in ByProject(rows, start, end)
    ensures row.start == start && row.end == end
    ensures ProjectCell(row, col).Some? <==> exists r | r in rows :: Belongs(row, r) && Cell(r, col).Some?
  {
    hide ByProject, Belongs;
    RowExactly(rows, start, end, row);
  }

  lemma {:induction false} CpuRequestNull(raw: Readings, base: int, hours: nat, i: nat, j: nat, row: ProjectRow)
    requires i <= j <= hours && row in ProjectReport(raw, base, hours, i, j)
    ensures row.cpuRequest.Some?
  {
    hide PodHourly, JoinedRows, ByProject;
    var rows := PodHourly(raw, base, hours);
    CellSome(rows, HourStart(base, i), HourStart(base, j), row, CpuRequest);
    var r := PairFound(rows, HourStart(base, i), HourStart(base, j), row);
    var _ := BelongsHour(raw, base, hours, i, j, row, r);
    JoinedNulls(raw, base, hours, r);
    assert Cell(r, CpuRequest).Some?;
  }

  lemma JoinedCellSome(raw: Readings, base: int, hours: nat, row: PodRow, col: Column)
    requires row in JoinedRows(raw, base, hours) && (col.CpuUsage? || col.MemoryRequest? || col.MemoryUsage?)
    ensures Cell(row, col).Some? <==> Occurs(JoinedMetric(raw, col), row.start, row.end, row.labels)
  {
    hide Occurs, JoinedRows;
    JoinedNulls(raw, base, hours, row);
  }

  lemma JoinedNull(raw: Readings, base: int, hours: nat, i: nat, j: nat, row: ProjectRow, col: Column)
    requires i <= j <= hours && row in ProjectReport(raw, base, hours, i, j)
    requires col.CpuUsage? || col.MemoryRequest? || col.MemoryUsage?
    ensures ProjectCell(row, col).Some? <==> exists r | r in JoinedMetric(raw, col) ::
              ReadFor(raw, base, i, j, row, r.time, r.labels) && Requested(raw, HourOf(base, r.time), r.labels)
  {
    hide PodHourly, JoinedRows, ByProject, JoinedMetric, GpuCells, Requested, ProjectCell, Cell;
    var rows := PodHourly(raw, base, hours);
    CellSome(rows, HourStart(base, i), HourStart(base, j), row, col);
    if r :| r in rows && Belongs(row, r) && Cell(r, col).Some? {
      var h := BelongsHour(raw, base, hours, i, j, row, r);
      JoinedCellSome(raw, base, hours, r, col);
      var t :| t in JoinedMetric(raw, col) && r.start <= t.time < r.end && t.labels == r.labels;
      HourOfWindow(base, h, t.time);
      var _ := JoinedRowFrom(raw, base, hours, r);
      assert ReadFor(raw, base, i, j, row, t.time, t.labels) && Requested(raw, HourOf(base, t.time), t.labels);
    }
    if t :| t in JoinedMetric(raw, col) && ReadFor(raw, base, i, j, row, t.time, t.labels)
            && Requested(raw, HourOf(base, t.time), t.labels) {
      var r := JoinedRowFor(raw, base, hours, i, j, row, t.time, t.labels);
      JoinedCellSome(raw, base, hours, r, col);
      assert Occurs(JoinedMetric(raw, col), r.start, r.end, r.labels);
    }
  }

  /** A cell is the total of the row's own project and accelerator. */
  lemma RowTotal(raw: Readings, base: int, hours: nat, i: nat, j: nat, row: ProjectRow, col: Column)
    requires row in ProjectReport(raw, base, hours, i, j)
    ensures OrZero(ProjectCell(row, col))
         == ReportTotal(raw, base, hours, i, j,
                        (p: string, g: Option<string>) => p == row.project && g == row.gpu, col)
  {
    hide PodHourly, ByProject;
    var report := ProjectReport(raw, base, hours, i, j);
    var q := (p: string, g: Option<string>) => p == row.project && g == row.gpu;
    var k :| 0 <= k < |report| && report[k] == row;
    OneRowPerPair(PodHourly(raw, base, hours), HourStart(base, i), HourStart(base, j));
    OnlyRow(report, k, (r: ProjectRow) => Rolled(q, col, r));
  }

  lemma PairShare(raw: Readings, q: Groups, project: string, gpu: Option<string>, base: int, r: Reading<PodLabels>)
    requires forall p, g :: q(p, g) <==> p == project && g == gpu
    ensures SharedAmount(raw, q, base, r)
         == if r.labels.project == project && gpu in GpuCells(raw, HourOf(base, r.time), r.labels)
            then r.amount else 0.0
  {
    var cells := GpuCells(raw, HourOf(base, r.time), r.labels);
    var mine := set g | g in cells && q(r.labels.project, g);
    TimesOnce(r.amount);
    if r.labels.project == project && gpu in cells {
      assert mine == {gpu};
    } else {
      assert mine == {};
    }
  }

  lemma CpuRequestCell(raw: Readings, base: int, hours: nat, i: nat, j: nat, row: ProjectRow)
    requires i <= j <= hours && row in ProjectReport(raw, base, hours, i, j)
    ensures OrZero(row.cpuRequest)
         == Sum(raw.cpuRequest, (r: Reading<PodLabels>) =>
                if ReadFor(raw, base, i, j, row, r.time, r.labels) then r.amount else 0.0)
  {
    hide ProjectReport, ReportTotal, GpuCells, SharedAmount;
    var q := (p: string, g: Option<string>) => p == row.project && g == row.gpu;
    var x := (r: Reading<PodLabels>) => SharedAmount(raw, q, base, r);
    var h := (r: Reading<PodLabels>) => if ReadFor(raw, base, i, j, row, r.time, r.labels) then r.amount else 0.0;
    RowTotal(raw, base, hours, i, j, row, CpuRequest);
    CpuRequestGroups(raw, base, hours, i, j, q);
    forall r | r in raw.cpuRequest
      ensures h(r) == if HourStart(base, i) <= r.time < HourStart(base, j) then x(r) else 0.0
    {
      PairShare(raw, q, row.project, row.gpu, base, r);
    }
    InPeriodSum(raw.cpuRequest, base, i, j, (labels: PodLabels) => true, x, h);
  }

  lemma JoinedCell(raw: Readings, base: int, hours: nat, i: nat, j: nat, row: ProjectRow, col: Column)
    requires i <= j <= hours && row in ProjectReport(raw, base, hours, i, j)
    requires col.CpuUsage? || col.MemoryRequest? || col.MemoryUsage?
    ensures OrZero(ProjectCell(row, col))
         == Sum(JoinedMetric(raw, col), (r: Reading<PodLabels>) =>
                if ReadFor(raw, base, i, j, row, r.time, r.labels) && Requested(raw, HourOf(base, r.time), r.labels)
                then r.amount else 0.0)
  {
    hide ProjectReport, ReportTotal, GpuCells, SharedAmount, JoinedMetric, Requested, ProjectCell;
    var q := (p: string, g: Option<string>) => p == row.project && g == row.gpu;
    var x := (r: Reading<PodLabels>) => SharedIfRequested(raw, q, base, r);
    var h := (r: Reading<PodLabels>) =>
      if ReadFor(raw, base, i, j, row, r.time, r.labels) && Requested(raw, HourOf(base, r.time), r.labels)
      then r.amount else 0.0;
    RowTotal(raw, base, hours, i, j, row, col);
    JoinedGroups(raw, base, hours, i, j, q, col);
    forall r | r in JoinedMetric(raw, col)
      ensures h(r) == if HourStart(base, i) <= r.time < HourStart(base, j) then x(r) else 0.0
    {
      PairShare(raw, q, row.project, row.gpu, base, r);
    }
    InPeriodSum(JoinedMetric(raw, col), base, i, j, (labels: PodLabels) => true, x, h);
  }

  /** Whether an accelerator reading is one for a row of the report. */
  ghost predicate GpuReadFor(raw: Readings, base: int, i: nat, j: nat, row: ProjectRow, r: Reading<GpuLabels>) {
    && HourStart(base, i) <= r.time < HourStart(base, j)
    && r.labels.pod.project == row.project
    && row.gpu == Some(r.labels.gpu)
    && Requested(raw, HourOf(base, r.time), r.labels.pod)
  }

  lemma GpuRequestCell(raw: Readings, base: int, hours: nat, i: nat, j: nat, row: ProjectRow)
    requires i <= j <= hours && row in ProjectReport(raw, base, hours, i, j)
    ensures OrZero(row.gpuRequest)
         == Sum(raw.gpuRequest, (r: Reading<GpuLabels>) =>
                if GpuReadFor(raw, base, i, j, row, r) then r.amount else 0.0)
  {
    hide ProjectReport, ReportTotal, Requested;
    var q := (p: string, g: Option<string>) => p == row.project && g == row.gpu;
    var mine := (labels: GpuLabels) => q(labels.pod.project, Some(labels.gpu));
    var x := (r: Reading<GpuLabels>) => GpuReadingAmount(raw, base, r);
    var h := (r: Reading<GpuLabels>) => if GpuReadFor(raw, base, i, j, row, r) then r.amount else 0.0;
    RowTotal(raw, base, hours, i, j, row, GpuRequest);
    GpuRequestGroups(raw, base, hours, i, j, q);
    InPeriodSum(raw.gpuRequest, base, i, j, (labels: GpuLabels) => q(labels.pod.project, Some(labels.gpu)), x, h);
  }

  lemma GpuReadingCell(raw: Readings, base: int, t: Reading<GpuLabels>)
    requires t in raw.gpuRequest
    ensures Some(t.labels.gpu) in GpuCells(raw, HourOf(base, t.time), t.labels.pod)
  {
    assert t.labels.gpu in Accelerators(raw, HourOf(base, t.time), t.labels.pod);
  }

  lemma GpuReadingOf(raw: Readings, base: int, hours: nat, r: PodRow, h: int) returns (t: Reading<GpuLabels>)
    requires r in JoinedRows(raw, base, hours) && r.gpu.Some? && r.start == HourStart(base, h)
    ensures t in raw.gpuRequest && t.labels.pod == r.labels && r.gpu == Some(t.labels.gpu)
    ensures r.start <= t.time < r.start + 3600 && HourOf(base, t.time) == r.start
    ensures Requested(raw, r.start, r.labels)
  {
    hide JoinedRows, Requested;
    var _ := JoinedRowFrom(raw, base, hours, r);
    t :| t in raw.gpuRequest && r.start <= t.time < r.start + 3600 && t.labels.pod == r.labels
         && t.labels.gpu == r.gpu.value;
    HourOfWindow(base, h, t.time);
  }

  lemma GpuRequestNull(raw: Readings, base: int, hours: nat, i: nat, j: nat, row: ProjectRow)
    requires i <= j <= hours && row in ProjectReport(raw, base, hours, i, j)
    ensures row.gpuRequest.Some? <==> exists r | r in raw.gpuRequest :: GpuReadFor(raw, base, i, j, row, r)
  {
    hide PodHourly, JoinedRows, ByProject, Requested, GpuCells;
    var rows := PodHourly(raw, base, hours);
    CellSome(rows, HourStart(base, i), HourStart(base, j), row, GpuRequest);
    if r :| r in rows && Belongs(row, r) && Cell(r, GpuRequest).Some? {
      var h := BelongsHour(raw, base, hours, i, j, row, r);
      JoinedNulls(raw, base, hours, r);
      var t := GpuReadingOf(raw, base, hours, r, h);
      assert GpuReadFor(raw, base, i, j, row, t);
    }
    if t :| t in raw.gpuRequest && GpuReadFor(raw, base, i, j, row, t) {
      GpuReadingCell(raw, base, t);
      var r := JoinedRowFor(raw, base, hours, i, j, row, t.time, t.labels.pod);
      JoinedNulls(raw, base, hours, r);
      assert Cell(r, GpuRequest).Some?;
    }
  }

  /** The report has a row for a project and an accelerator, or none, exactly if one of the project's CPU requests of
      the period is by a pod with that accelerator, or none, in that hour. */
  lemma ReportListed(raw: Readings, base: int, hours: nat, i: nat, j: nat, project: string, gpu: Option<string>)
    requires i <= j <= hours
    ensures (exists row | row in ProjectReport(raw, base, hours, i, j) :: row.project == project && row.gpu == gpu)
       <==> exists r | r in raw.cpuRequest ::
              HourStart(base, i) <= r.time < HourStart(base, j) && r.labels.project == project
              && gpu in GpuCells(raw, HourOf(base, r.time), r.labels)
  {
    hide PodHourly, JoinedRows, ByProject, GpuCells;
    var rows, start, end := PodHourly(raw, base, hours), HourStart(base, i), HourStart(base, j);
    PairListed(rows, start, end, project, gpu);
    var row := ProjectRow(start, end, project, None, None, None, None, gpu, None);
    if r :| r in rows && start <= r.start && r.end <= end && r.labels.project == project && r.gpu == gpu {
      var h := BelongsHour(raw, base, hours, i, j, row, r);
      var _ := JoinedRowFrom(raw, base, hours, r);
      var t :| t in raw.cpuRequest && r.start <= t.time < r.start + 3600 && t.labels == r.labels;
      HourOfWindow(base, h, t.time);
      assert HourStart(base, i) <= t.time < HourStart(base, j);
    }
    if t :| t in raw.cpuRequest && HourStart(base, i) <= t.time < HourStart(base, j) && t.labels.project == project
            && gpu in GpuCells(raw, HourOf(base, t.time), t.labels) {
      RequestedBy(raw, base, t);
      var r := JoinedRowFor(raw, base, hours, i, j, row, t.time, t.labels);
    }
  }

  lemma RequestedBy(raw: Readings, base: int, t: Reading<PodLabels>)
    requires t in raw.cpuRequest
    ensures Requested(raw, HourOf(base, t.time), t.labels)
  {
  }

  lemma RowPeriod(raw: Readings, base: int, hours: nat, i: nat, j: nat, row: ProjectRow)
    requires row in ProjectReport(raw, base, hours, i, j)
    ensures row.start == HourStart(base, i) && row.end == HourStart(base, j)
  {
    hide ByProject, PodHourly;
    CellSome(PodHourly(raw, base, hours), HourStart(base, i), HourStart(base, j), row, CpuRequest);
  }

  lemma CpuRequestRead(raw: Readings, base: int, hours: nat, i: nat, j: nat, row: ProjectRow)
    requires i <= j <= hours && row in ProjectReport(raw, base, hours, i, j)
    ensures exists r | r in raw.cpuRequest :: ReadFor(raw, base, i, j, row, r.time, r.labels)
  {
    hide ProjectReport, GpuCells;
    ReportListed(raw, base, hours, i, j, row.project, row.gpu);
    var r :| r in raw.cpuRequest && HourStart(base, i) <= r.time < HourStart(base, j)
             && r.labels.project == row.project && row.gpu in GpuCells(raw, HourOf(base, r.time), r.labels);
    assert ReadFor(raw, base, i, j, row, r.time, r.labels);
  }
}
