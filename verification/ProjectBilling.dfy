/** What a project is billed over a period of whole hours, from the raw metrics to the project report. */
module ProjectBilling {
  import opened Wrappers
  import opened Sums
  import opened Reports
  import opened PodReport
  import opened PodTotals

  /******* The roll-up *******/

  /** Which groups of the project report are added up. */
  type Groups = (string, Option<string>) -> bool

  function Rolled(q: Groups, col: Column, row: ProjectRow): real {
    if q(row.project, row.gpu) then OrZero(ProjectCell(row, col)) else 0.0
  }

  function Unrolled(q: Groups, col: Column, start: int, end: int, row: PodRow): real {
    if start <= row.start && row.end <= end && q(row.labels.project, row.gpu) then OrZero(Cell(row, col)) else 0.0
  }

  lemma NullSumValue(rows: seq<PodRow>, col: Column)
    ensures OrZero(NullSum(rows, col)) == Sum(rows, (row: PodRow) => OrZero(Cell(row, col)))
  {
    if forall row | row in rows :: Cell(row, col).None? {
      SumZero(rows, (row: PodRow) => OrZero(Cell(row, col)));
    }
  }

  lemma RolledGroup(rows: seq<PodRow>, start: int, end: int, q: Groups, col: Column,
                    g: Group<(string, Option<string>), PodRow>)
    requires forall row | row in g.rows :: ProjectAndGpu(row) == g.key
    ensures Rolled(q, col, Roll(start, end, g))
         == Sum(g.rows, (row: PodRow) => if q(row.labels.project, row.gpu) then OrZero(Cell(row, col)) else 0.0)
  {
    var cell := (row: PodRow) => OrZero(Cell(row, col));
    var counted := (row: PodRow) => if q(row.labels.project, row.gpu) then OrZero(Cell(row, col)) else 0.0;
    NullSumValue(g.rows, col);
    if q(g.key.0, g.key.1) {
      SumCongruence(g.rows, cell, counted);
    } else {
      SumZero(g.rows, counted);
    }
  }

  /** Grouping by project and accelerator conserves every column over any choice of groups. */
  lemma RollUp(rows: seq<PodRow>, start: int, end: int, q: Groups, col: Column)
    ensures Sum(ByProject(rows, start, end), (row: ProjectRow) => Rolled(q, col, row))
         == Sum(rows, (row: PodRow) => Unrolled(q, col, start, end, row))
  {
    var inPeriod := (row: PodRow) => start <= row.start && row.end <= end;
    var kept := Filter(rows, inPeriod);
    var counted := (row: PodRow) => if q(row.labels.project, row.gpu) then OrZero(Cell(row, col)) else 0.0;
    var roll := (g: Group<(string, Option<string>), PodRow>) => Roll(start, end, g);
    var perGroup := (g: Group<(string, Option<string>), PodRow>) => Rolled(q, col, Roll(start, end, g));
    var groups := GroupBy(kept, ProjectAndGpu);
    forall g | g in groups ensures perGroup(g) == Sum(g.rows, counted) {
      RolledGroup(rows, start, end, q, col, g);
    }
    SumMap(groups, roll, (row: ProjectRow) => Rolled(q, col, row), perGroup);
    GroupedSum(kept, ProjectAndGpu, counted, perGroup);
    SumFilter(rows, inPeriod, counted, (row: PodRow) => Unrolled(q, col, start, end, row));
  }

  /******* The joined report table *******/

  lemma JoinedRowHour(raw: Readings, base: int, hours: nat, row: PodRow) returns (i: int)
    requires row in JoinedRows(raw, base, hours)
    ensures 0 <= i < hours && row.start == HourStart(base, i) && row.end == row.start + 3600
  {
    var l, x := InJoin(MemoryRows(raw, base, hours), HourlyReport(raw.gpuRequest, base, hours), SamePod, WithGpu, row);
    i := MemoryRowHour(raw, base, hours, l);
  }

  /** The hourly runs of the joining query split the joined rows without loss or repetition. */
  lemma PodHourlySum(raw: Readings, base: int, hours: nat, f: PodRow -> real)
    ensures Sum(PodHourly(raw, base, hours), f) == Sum(JoinedRows(raw, base, hours), f)
  {
    var rows := JoinedRows(raw, base, hours);
    forall row | row in rows ensures base <= row.start < HourStart(base, hours) {
      var i := JoinedRowHour(raw, base, hours, row);
    }
    ByHoursSum(rows, PodStart, base, hours, f);
  }

  /** Every column of the project report, over any groups, is the sum over the joined rows of the period. */
  lemma ProjectReportSum(raw: Readings, base: int, hours: nat, i: nat, j: nat, q: Groups, col: Column)
    ensures Sum(ProjectReport(raw, base, hours, i, j), (row: ProjectRow) => Rolled(q, col, row))
         == Sum(JoinedRows(raw, base, hours),
                (row: PodRow) => Unrolled(q, col, HourStart(base, i), HourStart(base, j), row))
  {
    var start, end := HourStart(base, i), HourStart(base, j);
    RollUp(PodHourly(raw, base, hours), start, end, q, col);
    PodHourlySum(raw, base, hours, (row: PodRow) => Unrolled(q, col, start, end, row));
  }

  /******* Adjacent periods *******/

  function ReportTotal(raw: Readings, base: int, hours: nat, i: nat, j: nat, q: Groups, col: Column): real {
    Sum(ProjectReport(raw, base, hours, i, j), (row: ProjectRow) => Rolled(q, col, row))
  }

  lemma UnrolledAdjacent(q: Groups, col: Column, base: int, i: nat, j: nat, k: nat, h: int, row: PodRow)
    requires i <= j <= k && row.start == HourStart(base, h) && row.end == row.start + 3600
    ensures Unrolled(q, col, HourStart(base, i), HourStart(base, k), row)
         == Unrolled(q, col, HourStart(base, i), HourStart(base, j), row)
          + Unrolled(q, col, HourStart(base, j), HourStart(base, k), row)
  {
    assert row.end <= HourStart(base, j) <==> h < j;
    assert HourStart(base, j) <= row.start <==> j <= h;
  }

  /** Adjacent reports add up, for every column and every group. */
  lemma AdjacentReports(raw: Readings, base: int, hours: nat, i: nat, j: nat, k: nat, q: Groups, col: Column)
    requires i <= j <= k
    ensures ReportTotal(raw, base, hours, i, k, q, col)
         == ReportTotal(raw, base, hours, i, j, q, col) + ReportTotal(raw, base, hours, j, k, q, col)
  {
    var a, b, c := HourStart(base, i), HourStart(base, j), HourStart(base, k);
    var rows := JoinedRows(raw, base, hours);
    var first, second := (row: PodRow) => Unrolled(q, col, a, b, row), (row: PodRow) => Unrolled(q, col, b, c, row);
    var both := (row: PodRow) => Unrolled(q, col, a, c, row);
    ProjectReportSum(raw, base, hours, i, j, q, col);
    ProjectReportSum(raw, base, hours, j, k, q, col);
    ProjectReportSum(raw, base, hours, i, k, q, col);
    forall row | row in rows ensures both(row) == first(row) + second(row) {
      var h := JoinedRowHour(raw, base, hours, row);
      UnrolledAdjacent(q, col, base, i, j, k, h, row);
    }
    SumPlus(rows, first, second, both);
  }

  lemma NextDay(raw: Readings, base: int, hours: nat, i: nat, days: nat, q: Groups, col: Column)
    ensures ReportTotal(raw, base, hours, i, i, q, col) == 0.0
    ensures ReportTotal(raw, base, hours, i, i + 24 * (days + 1), q, col)
         == ReportTotal(raw, base, hours, i, i + 24 * days, q, col)
          + ReportTotal(raw, base, hours, i + 24 * days, i + 24 * days + 24, q, col)
  {
    hide ReportTotal;
    AdjacentReports(raw, base, hours, i, i, i, q, col);
    AdjacentReports(raw, base, hours, i, i + 24 * days, i + 24 * days + 24, q, col);
    assert i + 24 * (days + 1) == i + 24 * days + 24;
  }

  /** The daily reports of the `days` days from hour `i` add up to the report of all of them, project by project and
      accelerator by accelerator. */
  lemma {:induction false} DailyReportsAddUp(raw: Readings, base: int, hours: nat, i: nat, days: nat,
                                             q: Groups, col: Column, daily: int -> real)
    requires forall d: nat | d < days ::
      daily(d) == ReportTotal(raw, base, hours, i + 24 * d, i + 24 * d + 24, q, col)
    ensures SumTo(daily, days) == ReportTotal(raw, base, hours, i, i + 24 * days, q, col)
  {
    hide ReportTotal;
    if days == 0 {
      NextDay(raw, base, hours, i, 0, q, col);
    } else {
      DailyReportsAddUp(raw, base, hours, i, days - 1, q, col, daily);
      NextDay(raw, base, hours, i, days - 1, q, col);
    }
  }

  /******* What any groups of the report are billed *******/

  predicate InGroups(base: int, i: nat, j: nat, q: Groups, start: int, labels: PodLabels, gpu: Option<string>) {
    HourStart(base, i) <= start < HourStart(base, j) && q(labels.project, gpu)
  }

  lemma UnrolledScoped(base: int, i: nat, j: nat, q: Groups, col: Column, h: int, row: PodRow)
    requires row.start == HourStart(base, h) && row.end == row.start + 3600
    ensures Unrolled(q, col, HourStart(base, i), HourStart(base, j), row)
         == Scoped((s: int, l: PodLabels, g: Option<string>) => InGroups(base, i, j, q, s, l, g), col, row)
  {
    assert row.end <= HourStart(base, j) <==> row.start < HourStart(base, j);
  }

  lemma GroupScope(raw: Readings, base: int, hours: nat, i: nat, j: nat, q: Groups, col: Column, scope: Scope)
    requires forall s, l, g :: scope(s, l, g) <==> InGroups(base, i, j, q, s, l, g)
    ensures ReportTotal(raw, base, hours, i, j, q, col)
         == Sum(JoinedRows(raw, base, hours), (row: PodRow) => Scoped(scope, col, row))
  {
    var start, end := HourStart(base, i), HourStart(base, j);
    var rows := JoinedRows(raw, base, hours);
    ProjectReportSum(raw, base, hours, i, j, q, col);
    forall row | row in rows ensures Unrolled(q, col, start, end, row) == Scoped(scope, col, row) {
      var h := JoinedRowHour(raw, base, hours, row);
      UnrolledScoped(base, i, j, q, col, h, row);
    }
    SumCongruence(rows, (row: PodRow) => Unrolled(q, col, start, end, row), (row: PodRow) => Scoped(scope, col, row));
  }

  /** In how many rows of these groups an amount of a pod and hour appears. */
  function Share(raw: Readings, q: Groups, start: int, labels: PodLabels): nat {
    |set gpu | gpu in GpuCells(raw, start, labels) && q(labels.project, gpu)|
  }

  lemma ScopeRepeats(raw: Readings, base: int, i: nat, j: nat, q: Groups, scope: Scope, start: int, labels: PodLabels)
    requires forall s, l, g :: scope(s, l, g) <==> InGroups(base, i, j, q, s, l, g)
    ensures Repeats(raw, scope, start, labels)
         == if HourStart(base, i) <= start < HourStart(base, j) then Share(raw, q, start, labels) else 0
  {
    if HourStart(base, i) <= start < HourStart(base, j) {
      assert CountedCells(raw, scope, start, labels)
          == set gpu | gpu in GpuCells(raw, start, labels) && q(labels.project, gpu);
    } else {
      assert CountedCells(raw, scope, start, labels) == {};
    }
  }

  function SharedAmount(raw: Readings, q: Groups, base: int, r: Reading<PodLabels>): real {
    Times(r.amount, Share(raw, q, HourOf(base, r.time), r.labels))
  }

  /** Whatever groups of the report are chosen, a CPU request is billed once for each of them that the pod is in in that
      hour: one for each of its accelerators, and the one without an accelerator if it has none. */
  lemma CpuRequestGroups(raw: Readings, base: int, hours: nat, i: nat, j: nat, q: Groups)
    requires i <= j <= hours
    ensures ReportTotal(raw, base, hours, i, j, q, CpuRequest)
         == Sum(InPeriod(raw.cpuRequest, base, i, j, (labels: PodLabels) => true),
                (r: Reading<PodLabels>) => SharedAmount(raw, q, base, r))
  {
    hide ReportTotal, Repeats;
    var scope := (s: int, l: PodLabels, g: Option<string>) => InGroups(base, i, j, q, s, l, g);
    var v := (r: Reading<PodLabels>) => Times(r.amount, Repeats(raw, scope, HourOf(base, r.time), r.labels));
    GroupScope(raw, base, hours, i, j, q, CpuRequest, scope);
    CpuRequestBilled(raw, base, hours, scope, v);
    forall r | r in raw.cpuRequest
      ensures v(r) == if HourStart(base, i) <= HourOf(base, r.time) < HourStart(base, j)
                      then SharedAmount(raw, q, base, r) else 0.0
    {
      ScopeRepeats(raw, base, i, j, q, scope, HourOf(base, r.time), r.labels);
      TimesOnce(r.amount);
    }
    PeriodSum(raw.cpuRequest, base, hours, i, j, (labels: PodLabels) => true, v,
              (r: Reading<PodLabels>) => SharedAmount(raw, q, base, r));
  }

  ghost function SharedIfRequested(raw: Readings, q: Groups, base: int, r: Reading<PodLabels>): real {
    if Requested(raw, HourOf(base, r.time), r.labels) then SharedAmount(raw, q, base, r) else 0.0
  }

  /** CPU usage and memory are billed in the same way where the pod requested CPU in the same hour. */
  lemma JoinedGroups(raw: Readings, base: int, hours: nat, i: nat, j: nat, q: Groups, col: Column)
    requires i <= j <= hours && (col.CpuUsage? || col.MemoryRequest? || col.MemoryUsage?)
    ensures ReportTotal(raw, base, hours, i, j, q, col)
         == Sum(InPeriod(JoinedMetric(raw, col), base, i, j, (labels: PodLabels) => true),
                (r: Reading<PodLabels>) => SharedIfRequested(raw, q, base, r))
  {
    hide ReportTotal, Repeats, JoinedMetric;
    var metric := JoinedMetric(raw, col);
    var scope := (s: int, l: PodLabels, g: Option<string>) => InGroups(base, i, j, q, s, l, g);
    var v := (r: Reading<PodLabels>) =>
      Times(r.amount, IfRequested(raw, HourOf(base, r.time), r.labels,
                                  Repeats(raw, scope, HourOf(base, r.time), r.labels)));
    GroupScope(raw, base, hours, i, j, q, col, scope);
    JoinedBilled(raw, base, hours, col, scope, v);
    forall r | r in metric
      ensures v(r) == if HourStart(base, i) <= HourOf(base, r.time) < HourStart(base, j)
                      then SharedIfRequested(raw, q, base, r) else 0.0
    {
      ScopeRepeats(raw, base, i, j, q, scope, HourOf(base, r.time), r.labels);
      TimesOnce(r.amount);
    }
    PeriodSum(metric, base, hours, i, j, (labels: PodLabels) => true, v,
              (r: Reading<PodLabels>) => SharedIfRequested(raw, q, base, r));
  }

  ghost function GpuReadingAmount(raw: Readings, base: int, r: Reading<GpuLabels>): real {
    if Requested(raw, HourOf(base, r.time), r.labels.pod) then r.amount else 0.0
  }

  /** An accelerator request is billed once, in the group of its accelerator, where the pod requested CPU in the same
      hour. */
  lemma GpuRequestGroups(raw: Readings, base: int, hours: nat, i: nat, j: nat, q: Groups)
    requires i <= j <= hours
    ensures ReportTotal(raw, base, hours, i, j, q, GpuRequest)
         == Sum(InPeriod(raw.gpuRequest, base, i, j, (labels: GpuLabels) => q(labels.pod.project, Some(labels.gpu))),
                (r: Reading<GpuLabels>) => GpuReadingAmount(raw, base, r))
  {
    hide ReportTotal;
    var scope := (s: int, l: PodLabels, g: Option<string>) => InGroups(base, i, j, q, s, l, g);
    var x := (r: Reading<GpuLabels>) => GpuReadingAmount(raw, base, r);
    var v := (r: Reading<GpuLabels>) =>
      if scope(HourOf(base, r.time), r.labels.pod, Some(r.labels.gpu)) then x(r) else 0.0;
    GroupScope(raw, base, hours, i, j, q, GpuRequest, scope);
    GpuRequestBilled(raw, base, hours, scope, v);
    PeriodSum(raw.gpuRequest, base, hours, i, j, (labels: GpuLabels) => q(labels.pod.project, Some(labels.gpu)), v, x);
  }

  /******* What a project is billed *******/

  /** The total of a column over a project's rows in the report from hour `i` to hour `j`. */
  function ProjectTotal(raw: Readings, base: int, hours: nat, i: nat, j: nat, project: string, col: Column): real {
    ReportTotal(raw, base, hours, i, j, (p: string, gpu: Option<string>) => p == project, col)
  }

  function ProjectReadings(metric: seq<Reading<PodLabels>>, base: int, i: nat, j: nat, project: string)
    : seq<Reading<PodLabels>>
  {
    InPeriod(metric, base, i, j, (labels: PodLabels) => labels.project == project)
  }

  lemma ProjectShare(raw: Readings, q: Groups, project: string, base: int, r: Reading<PodLabels>)
    requires forall p, gpu :: q(p, gpu) <==> p == project
    ensures SharedAmount(raw, q, base, r)
         == if r.labels.project == project then Times(r.amount, FanOut(raw, HourOf(base, r.time), r.labels)) else 0.0
  {
    var cells := GpuCells(raw, HourOf(base, r.time), r.labels);
    CellCount(raw, HourOf(base, r.time), r.labels);
    TimesOnce(r.amount);
    if r.labels.project == project {
      assert (set gpu | gpu in cells && q(r.labels.project, gpu)) == cells;
    } else {
      assert (set gpu | gpu in cells && q(r.labels.project, gpu)) == {};
    }
  }

  /** A project is billed each of its CPU requests, once for every accelerator of the requesting pod in that hour. */
  lemma CpuRequestTotal(raw: Readings, base: int, hours: nat, i: nat, j: nat, project: string)
    requires i <= j <= hours
    ensures ProjectTotal(raw, base, hours, i, j, project, CpuRequest)
         == Sum(ProjectReadings(raw.cpuRequest, base, i, j, project),
                (r: Reading<PodLabels>) => Times(r.amount, FanOut(raw, HourOf(base, r.time), r.labels)))
  {
    hide ReportTotal, SharedAmount, FanOut;
    var q := (p: string, gpu: Option<string>) => p == project;
    var x := (r: Reading<PodLabels>) => SharedAmount(raw, q, base, r);
    var y := (r: Reading<PodLabels>) => Times(r.amount, FanOut(raw, HourOf(base, r.time), r.labels));
    CpuRequestGroups(raw, base, hours, i, j, q);
    forall r | r in raw.cpuRequest ensures x(r) == if r.labels.project == project then y(r) else 0.0 {
      ProjectShare(raw, q, project, base, r);
    }
    NarrowPeriod(raw.cpuRequest, base, i, j, (labels: PodLabels) => labels.project == project, x, y);
  }

  function BilledHourRow(raw: Readings, base: int, i: nat, j: nat, project: string, row: HourRow<PodLabels>): real {
    if HourStart(base, i) <= row.start < HourStart(base, j) && row.labels.project == project
    then Times(row.amount, FanOut(raw, row.start, row.labels))
    else 0.0
  }

  lemma ProjectRepeats(raw: Readings, base: int, i: nat, j: nat, project: string, scope: Scope, start: int,
                       labels: PodLabels)
    requires forall s, l, g :: scope(s, l, g) <==> HourStart(base, i) <= s < HourStart(base, j) && l.project == project
    ensures Repeats(raw, scope, start, labels)
         == if HourStart(base, i) <= start < HourStart(base, j) && labels.project == project
            then FanOut(raw, start, labels) else 0
  {
    CellCount(raw, start, labels);
    if HourStart(base, i) <= start < HourStart(base, j) && labels.project == project {
      assert CountedCells(raw, scope, start, labels) == GpuCells(raw, start, labels);
    } else {
      assert CountedCells(raw, scope, start, labels) == {};
    }
  }

  /** The same over the rows of the hourly request table. */
  lemma CpuRequestTotalByHour(raw: Readings, base: int, hours: nat, i: nat, j: nat, project: string)
    ensures ProjectTotal(raw, base, hours, i, j, project, CpuRequest)
         == Sum(HourlyReport(raw.cpuRequest, base, hours),
                (row: HourRow<PodLabels>) => BilledHourRow(raw, base, i, j, project, row))
  {
    hide ReportTotal, Repeats, HourlyReport, FanOut;
    var q := (p: string, gpu: Option<string>) => p == project;
    var scope := (s: int, l: PodLabels, g: Option<string>) => InGroups(base, i, j, q, s, l, g);
    var w := (s: int, l: PodLabels) => Repeats(raw, scope, s, l);
    var v := (r: Reading<PodLabels>) => Times(r.amount, Repeats(raw, scope, HourOf(base, r.time), r.labels));
    var f := (row: HourRow<PodLabels>) => BilledHourRow(raw, base, i, j, project, row);
    GroupScope(raw, base, hours, i, j, q, CpuRequest, scope);
    CpuRequestBilled(raw, base, hours, scope, v);
    forall row | row in HourlyReport(raw.cpuRequest, base, hours)
      ensures f(row) == Times(row.amount, w(row.start, row.labels))
    {
      ProjectRepeats(raw, base, i, j, project, scope, row.start, row.labels);
      TimesOnce(row.amount);
    }
    HourlyConservation(raw.cpuRequest, base, hours, w, f, v);
  }

  /** What a usage or memory reading is billed: nothing unless its pod requested CPU in the same hour. */
  ghost function JoinedAmount(raw: Readings, base: int, r: Reading<PodLabels>): real {
    if Requested(raw, HourOf(base, r.time), r.labels) then Times(r.amount, FanOut(raw, HourOf(base, r.time), r.labels))
    else 0.0
  }

  /** A project is billed its CPU usage, memory requests and memory usage where its pods requested CPU. */
  lemma JoinedTotal(raw: Readings, base: int, hours: nat, i: nat, j: nat, project: string, col: Column)
    requires i <= j <= hours && (col.CpuUsage? || col.MemoryRequest? || col.MemoryUsage?)
    ensures ProjectTotal(raw, base, hours, i, j, project, col)
         == Sum(ProjectReadings(JoinedMetric(raw, col), base, i, j, project),
                (r: Reading<PodLabels>) => JoinedAmount(raw, base, r))
  {
    hide ReportTotal, SharedAmount, FanOut, JoinedMetric;
    var q := (p: string, gpu: Option<string>) => p == project;
    var x := (r: Reading<PodLabels>) => SharedIfRequested(raw, q, base, r);
    var y := (r: Reading<PodLabels>) => JoinedAmount(raw, base, r);
    JoinedGroups(raw, base, hours, i, j, q, col);
    forall r | r in JoinedMetric(raw, col) ensures x(r) == if r.labels.project == project then y(r) else 0.0 {
      ProjectShare(raw, q, project, base, r);
    }
    NarrowPeriod(JoinedMetric(raw, col), base, i, j, (labels: PodLabels) => labels.project == project, x, y);
  }

  /** A project is billed its accelerator requests once, where the pod requested CPU in the same hour. */
  lemma GpuRequestTotal(raw: Readings, base: int, hours: nat, i: nat, j: nat, project: string)
    requires i <= j <= hours
    ensures ProjectTotal(raw, base, hours, i, j, project, GpuRequest)
         == Sum(InPeriod(raw.gpuRequest, base, i, j, (labels: GpuLabels) => labels.pod.project == project),
                (r: Reading<GpuLabels>) => GpuReadingAmount(raw, base, r))
  {
    hide ReportTotal;
    var q := (p: string, gpu: Option<string>) => p == project;
    GpuRequestGroups(raw, base, hours, i, j, q);
    var x := (r: Reading<GpuLabels>) => GpuReadingAmount(raw, base, r);
    var h := (r: Reading<GpuLabels>) =>
      if HourStart(base, i) <= r.time < HourStart(base, j) && r.labels.pod.project == project then x(r) else 0.0;
    InPeriodSum(raw.gpuRequest, base, i, j, (labels: GpuLabels) => q(labels.pod.project, Some(labels.gpu)), x, h);
    InPeriodSum(raw.gpuRequest, base, i, j, (labels: GpuLabels) => labels.pod.project == project, x, h);
  }

  /******* When the bill is exact *******/

  /** What the project's samples of the period add up to. */
  function RawTotal(metric: seq<Reading<PodLabels>>, base: int, i: nat, j: nat, project: string): real {
    Sum(ProjectReadings(metric, base, i, j, project), (r: Reading<PodLabels>) => r.amount)
  }

  ghost predicate NonNegative(readings: seq<Reading<PodLabels>>) {
    forall r | r in readings :: r.amount >= 0.0
  }

  predicate OneAccelerator(raw: Readings, base: int, r: Reading<PodLabels>) {
    |Accelerators(raw, HourOf(base, r.time), r.labels)| <= 1
  }

  /** The billed CPU request is never below the raw total, and equals it exactly when no pod with a positive
      request in the period had more than one accelerator in the hour of that request. */
  lemma CpuRequestExact(raw: Readings, base: int, hours: nat, i: nat, j: nat, project: string)
    requires i <= j <= hours && NonNegative(ProjectReadings(raw.cpuRequest, base, i, j, project))
    ensures ProjectTotal(raw, base, hours, i, j, project, CpuRequest) >= RawTotal(raw.cpuRequest, base, i, j, project)
    ensures ProjectTotal(raw, base, hours, i, j, project, CpuRequest) == RawTotal(raw.cpuRequest, base, i, j, project)
       <==> forall r | r in ProjectReadings(raw.cpuRequest, base, i, j, project) && r.amount > 0.0 ::
              OneAccelerator(raw, base, r)
  {
    var readings := ProjectReadings(raw.cpuRequest, base, i, j, project);
    var amount := (r: Reading<PodLabels>) => r.amount;
    var billed := (r: Reading<PodLabels>) => Times(r.amount, FanOut(raw, HourOf(base, r.time), r.labels));
    CpuRequestTotal(raw, base, hours, i, j, project);
    forall r | r in readings
      ensures amount(r) <= billed(r) && (amount(r) == billed(r) <==> r.amount == 0.0 || OneAccelerator(raw, base, r))
    {
      TimesAtLeast(r.amount, FanOut(raw, HourOf(base, r.time), r.labels));
    }
    SumMonotone(readings, amount, billed);
    SumEqualIff(readings, amount, billed);
  }

  /** One request by a pod with two accelerators in that hour. */
  function TwoAcceleratorPod(amount: real): Readings {
    var labels := PodLabels("pod", "node", "namespace", "project");
    Readings([Reading(0, labels, amount)], [], [], [],
             [Reading(0, GpuLabels(labels, "a"), 1.0), Reading(0, GpuLabels(labels, "b"), 1.0)])
  }

  lemma TwoAcceleratorBill(amount: real)
    requires amount >= 0.0
    ensures var raw := TwoAcceleratorPod(amount);
            && !OneAccelerator(raw, 0, raw.cpuRequest[0])
            && (ProjectTotal(raw, 0, 1, 0, 1, "project", CpuRequest) == RawTotal(raw.cpuRequest, 0, 0, 1, "project")
                <==> amount == 0.0)
  {
    hide ProjectTotal, RawTotal;
    var raw := TwoAcceleratorPod(amount);
    var r := raw.cpuRequest[0];
    TwoAccelerators(raw, 0, r, raw.gpuRequest[0], raw.gpuRequest[1]);
    ProjectReading(raw.cpuRequest, r);
    CpuRequestExact(raw, 0, 1, 0, 1, "project");
  }

  /** A positive request by a pod with two accelerators is billed more than once. */
  lemma DoubleBillExample()
    ensures var raw := TwoAcceleratorPod(1.0);
            ProjectTotal(raw, 0, 1, 0, 1, "project", CpuRequest) != RawTotal(raw.cpuRequest, 0, 0, 1, "project")
  {
    hide ProjectTotal, RawTotal;
    TwoAcceleratorBill(1.0);
  }

  /** A request of zero is not billed twice: several accelerators alone do not make the bill inexact. */
  lemma {:induction false} ZeroRequestExample() returns (raw: Readings, r: Reading<PodLabels>)
    ensures r in ProjectReadings(raw.cpuRequest, 0, 0, 1, r.labels.project) && !OneAccelerator(raw, 0, r)
    ensures ProjectTotal(raw, 0, 1, 0, 1, r.labels.project, CpuRequest)
         == RawTotal(raw.cpuRequest, 0, 0, 1, r.labels.project)
  {
    hide ProjectTotal, RawTotal;
    raw := TwoAcceleratorPod(0.0);
    r := raw.cpuRequest[0];
    TwoAcceleratorBill(0.0);
    ProjectReading(raw.cpuRequest, r);
  }

  lemma ProjectReading(metric: seq<Reading<PodLabels>>, r: Reading<PodLabels>)
    requires metric == [r] && r.time == 0
    ensures r in ProjectReadings(metric, 0, 0, 1, r.labels.project)
    ensures forall x | x in ProjectReadings(metric, 0, 0, 1, r.labels.project) :: x == r
  {
    assert HourStart(0, 0) <= r.time < HourStart(0, 1);
    assert metric[0] in metric;
  }

  lemma TwoAccelerators(raw: Readings, base: int, r: Reading<PodLabels>, a: Reading<GpuLabels>, b: Reading<GpuLabels>)
    requires a in raw.gpuRequest && b in raw.gpuRequest && a.time == b.time == r.time
    requires a.labels.pod == b.labels.pod == r.labels && a.labels.gpu != b.labels.gpu
    ensures !OneAccelerator(raw, base, r)
  {
    var gpus := Accelerators(raw, HourOf(base, r.time), r.labels);
    assert a.labels.gpu in gpus && b.labels.gpu in gpus;
    assert {a.labels.gpu, b.labels.gpu} + (gpus - {a.labels.gpu, b.labels.gpu}) == gpus;
  }

  ghost function KeptAmount(raw: Readings, base: int, r: Reading<PodLabels>): real {
    if Requested(raw, HourOf(base, r.time), r.labels) then r.amount else 0.0
  }

  lemma BilledOnce(raw: Readings, base: int, r: Reading<PodLabels>)
    requires OneAccelerator(raw, base, r)
    ensures JoinedAmount(raw, base, r) == KeptAmount(raw, base, r)
  {
    TimesOnce(r.amount);
  }

  /** With at most one accelerator per pod and hour, a joined column bills the raw readings of the hours in which
      the pod requested CPU. */
  lemma JoinedKept(raw: Readings, base: int, hours: nat, i: nat, j: nat, project: string, col: Column)
    requires i <= j <= hours && (col.CpuUsage? || col.MemoryRequest? || col.MemoryUsage?)
    requires forall r | r in ProjectReadings(JoinedMetric(raw, col), base, i, j, project) ::
      OneAccelerator(raw, base, r)
    ensures ProjectTotal(raw, base, hours, i, j, project, col)
         == Sum(ProjectReadings(JoinedMetric(raw, col), base, i, j, project),
                (r: Reading<PodLabels>) => KeptAmount(raw, base, r))
  {
    var readings := ProjectReadings(JoinedMetric(raw, col), base, i, j, project);
    var kept := (r: Reading<PodLabels>) => KeptAmount(raw, base, r);
    var billed := (r: Reading<PodLabels>) => JoinedAmount(raw, base, r);
    JoinedTotal(raw, base, hours, i, j, project, col);
    forall r | r in readings ensures billed(r) == kept(r) {
      BilledOnce(raw, base, r);
    }
    SumCongruence(readings, billed, kept);
  }

  /** That never exceeds the raw total, and is all of it exactly when no positive reading lacks such a request. */
  lemma JoinedExact(raw: Readings, base: int, hours: nat, i: nat, j: nat, project: string, col: Column,
                    readings: seq<Reading<PodLabels>>)
    requires i <= j <= hours && (col.CpuUsage? || col.MemoryRequest? || col.MemoryUsage?)
    requires readings == ProjectReadings(JoinedMetric(raw, col), base, i, j, project) && NonNegative(readings)
    requires forall r | r in readings :: OneAccelerator(raw, base, r)
    ensures ProjectTotal(raw, base, hours, i, j, project, col) <= RawTotal(JoinedMetric(raw, col), base, i, j, project)
    ensures ProjectTotal(raw, base, hours, i, j, project, col) == RawTotal(JoinedMetric(raw, col), base, i, j, project)
       <==> forall r | r in readings && r.amount > 0.0 :: Requested(raw, HourOf(base, r.time), r.labels)
  {
    hide ProjectTotal;
    var amount := (r: Reading<PodLabels>) => r.amount;
    var kept := (r: Reading<PodLabels>) => KeptAmount(raw, base, r);
    JoinedKept(raw, base, hours, i, j, project, col);
    SumMonotone(readings, kept, amount);
    SumEqualIff(readings, kept, amount);
  }

  /** A sample's share of the raw total, read off its labels. */
  function SampleAmount(s: Sample, scale: real, start: int, end: int, project: string): real
    requires scale > 0.0
  {
    if && start <= s.time < end && "pod" in s.labels && "node" in s.labels && "namespace" in s.labels
       && "label_field_cattle_io_projectId" in s.labels && s.labels["label_field_cattle_io_projectId"] == project
    then s.amount * s.precision / scale
    else 0.0
  }

  /** The raw total is the sum over the samples in the period that carry all four labels and this project. */
  lemma RawTotalOfSamples(samples: seq<Sample>, scale: real, base: int, i: nat, j: nat, project: string,
                          h: Sample -> real)
    requires scale > 0.0
    requires forall s | s in samples :: h(s) == SampleAmount(s, scale, HourStart(base, i), HourStart(base, j), project)
    ensures RawTotal(Read(samples, SelectPod, scale), base, i, j, project) == Sum(samples, h)
  {
    var metric := Read(samples, SelectPod, scale);
    var f := (r: Reading<PodLabels>) =>
      if HourStart(base, i) <= r.time < HourStart(base, j) && r.labels.project == project then r.amount else 0.0;
    InPeriodSum(metric, base, i, j, (labels: PodLabels) => labels.project == project,
                (r: Reading<PodLabels>) => r.amount, f);
    ReadSum(samples, SelectPod, scale, f, h);
  }

  /** From the raw samples: a project is billed exactly what its samples of the period requested if and only if none
      of its pods with a positive request in the period had more than one accelerator in that hour. */
  lemma CpuRequestOfSamples(m: Metrics, base: int, hours: nat, i: nat, j: nat, project: string)
    requires i <= j <= hours && forall s | s in m.cpuRequest :: s.amount * s.precision >= 0.0
    ensures ProjectTotal(ReadMetrics(m), base, hours, i, j, project, CpuRequest)
         == Sum(m.cpuRequest, (s: Sample) => SampleAmount(s, 1.0, HourStart(base, i), HourStart(base, j), project))
       <==> forall r | r in ProjectReadings(ReadMetrics(m).cpuRequest, base, i, j, project) && r.amount > 0.0 ::
              OneAccelerator(ReadMetrics(m), base, r)
  {
    hide ProjectTotal, RawTotal, OneAccelerator;
    var raw := ReadMetrics(m);
    ReadNonNegative(m.cpuRequest, SelectPod);
    CpuRequestExact(raw, base, hours, i, j, project);
    RawTotalOfSamples(m.cpuRequest, 1.0, base, i, j, project,
                      (s: Sample) => SampleAmount(s, 1.0, HourStart(base, i), HourStart(base, j), project));
  }

  lemma {:induction false} ReadNonNegative(samples: seq<Sample>, select: Sample -> Option<PodLabels>)
    requires forall s | s in samples :: s.amount * s.precision >= 0.0
    ensures NonNegative(Read(samples, select, 1.0))
  {
    if samples != [] {
      ReadNonNegative(samples[1..], select);
      assert samples[0] in samples;
    }
  }
}
