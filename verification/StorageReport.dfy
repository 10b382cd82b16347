/** The storage reports: hourly requests LEFT JOINed to hourly usage on all seven columns, rolled up by
    project and storage class. */
module StorageReport {
  import opened Wrappers
  import opened Sums
  import opened Reports

  /** `volume` is None where the volume name IS NULL, which the request query lets through. */
  datatype PvcLabels = PvcLabels(claim: string, volume: Option<string>, namespace: string,
                                 storageClass: string, project: string)

  function Label(s: Sample, name: string): Option<string> {
    if name in s.labels then Some(s.labels[name]) else None
  }

  function SelectRequest(s: Sample): Option<PvcLabels> {
    var claim, namespace := Label(s, "persistentvolumeclaim"), Label(s, "namespace");
    var storageClass, project := Label(s, "storageclass"), Label(s, "label_field_cattle_io_projectId");
    if claim.Some? && namespace.Some? && storageClass.Some? && project.Some?
    then Some(PvcLabels(claim.value, Label(s, "volumename"), namespace.value, storageClass.value, project.value))
    else None
  }

  function SelectUsage(s: Sample): Option<PvcLabels> {
    var labels := SelectRequest(s);
    if labels.Some? && labels.value.volume.Some? then labels else None
  }

  datatype PvcRow = PvcRow(start: int, end: int, labels: PvcLabels, request: real, usage: Option<real>)

  /** Equality of all joined columns; a NULL volume name equals nothing. */
  predicate SameVolume(l: PvcRow, r: HourRow<PvcLabels>) {
    l.start == r.start && l.end == r.end && l.labels == r.labels && l.labels.volume.Some?
  }

  function Requesting(r: HourRow<PvcLabels>): PvcRow {
    PvcRow(r.start, r.end, r.labels, r.amount, None)
  }

  function WithUsage(l: PvcRow, r: Option<HourRow<PvcLabels>>): PvcRow {
    l.(usage := if r.Some? then Some(r.value.amount) else None)
  }

  function RequestRows(requests: seq<Reading<PvcLabels>>, base: int, hours: nat): seq<PvcRow> {
    Map(HourlyReport(requests, base, hours), Requesting)
  }

  function JoinedRows(requests: seq<Reading<PvcLabels>>, usages: seq<Reading<PvcLabels>>, base: int,
                      hours: nat): seq<PvcRow> {
    LeftJoin(RequestRows(requests, base, hours), HourlyReport(usages, base, hours), SameVolume, WithUsage)
  }

  function PvcStart(row: PvcRow): int {
    row.start
  }

  function PvcHourly(requests: seq<Reading<PvcLabels>>, usages: seq<Reading<PvcLabels>>, base: int,
                     hours: nat): seq<PvcRow> {
    ByHours(JoinedRows(requests, usages, base, hours), PvcStart, base, hours)
  }

  datatype StorageRow = StorageRow(start: int, end: int, storageClass: string, project: string,
                                   request: Option<real>, usage: Option<real>)

  function Usage(row: PvcRow): real {
    if row.usage.Some? then row.usage.value else 0.0
  }

  function Roll(start: int, end: int, g: Group<(string, string), PvcRow>): StorageRow {
    StorageRow(start, end, g.key.1, g.key.0,
               Some(Sum(g.rows, (row: PvcRow) => row.request)),
               if exists row | row in g.rows :: row.usage.Some? then Some(Sum(g.rows, Usage)) else None)
  }

  function ProjectAndClass(row: PvcRow): (string, string) {
    (row.labels.project, row.labels.storageClass)
  }

  function ByProject(rows: seq<PvcRow>, start: int, end: int): seq<StorageRow> {
    Map(GroupBy(Filter(rows, (row: PvcRow) => start <= row.start < end), ProjectAndClass),
        (g: Group<(string, string), PvcRow>) => Roll(start, end, g))
  }

  /** The report from hour `i` to hour `j`. */
  function ProjectStorage(requests: seq<Reading<PvcLabels>>, usages: seq<Reading<PvcLabels>>, base: int, hours: nat,
                         i: nat, j: nat): seq<StorageRow> {
    ByProject(PvcHourly(requests, usages, base, hours), HourStart(base, i), HourStart(base, j))
  }

  /******* The roll-up and the hourly runs *******/

  /** Which groups of the report are added up: by project and storage class. */
  type Groups = (string, string) -> bool

  function RequestCell(q: Groups, row: StorageRow): real {
    if q(row.project, row.storageClass) && row.request.Some? then row.request.value else 0.0
  }

  function UsageCell(q: Groups, row: StorageRow): real {
    if q(row.project, row.storageClass) && row.usage.Some? then row.usage.value else 0.0
  }

  function Mine(q: Groups, labels: PvcLabels): bool {
    q(labels.project, labels.storageClass)
  }

  function MyRequest(q: Groups, row: PvcRow): real {
    if Mine(q, row.labels) then row.request else 0.0
  }

  function MyUsage(q: Groups, row: PvcRow): real {
    if Mine(q, row.labels) then Usage(row) else 0.0
  }

  lemma RolledRequest(start: int, end: int, q: Groups, g: Group<(string, string), PvcRow>)
    requires forall row | row in g.rows :: ProjectAndClass(row) == g.key
    ensures RequestCell(q, Roll(start, end, g)) == Sum(g.rows, (row: PvcRow) => MyRequest(q, row))
  {
    if q(g.key.0, g.key.1) {
      SumCongruence(g.rows, (row: PvcRow) => row.request, (row: PvcRow) => MyRequest(q, row));
    } else {
      SumZero(g.rows, (row: PvcRow) => MyRequest(q, row));
    }
  }

  lemma RolledUsage(start: int, end: int, q: Groups, g: Group<(string, string), PvcRow>)
    requires forall row | row in g.rows :: ProjectAndClass(row) == g.key
    ensures UsageCell(q, Roll(start, end, g)) == Sum(g.rows, (row: PvcRow) => MyUsage(q, row))
  {
    if !q(g.key.0, g.key.1) || forall row | row in g.rows :: row.usage.None? {
      SumZero(g.rows, (row: PvcRow) => MyUsage(q, row));
    } else {
      SumCongruence(g.rows, Usage, (row: PvcRow) => MyUsage(q, row));
    }
  }

  /** Rolling up conserves any column that each group's cell adds up. */
  lemma RollUp(rows: seq<PvcRow>, start: int, end: int, cell: StorageRow -> real, f: PvcRow -> real, h: PvcRow -> real)
    requires forall g: Group<(string, string), PvcRow>
      | (forall row | row in g.rows :: ProjectAndClass(row) == g.key) ::
      cell(Roll(start, end, g)) == Sum(g.rows, f)
    requires forall row | row in rows :: h(row) == if start <= row.start < end then f(row) else 0.0
    ensures Sum(ByProject(rows, start, end), cell) == Sum(rows, h)
  {
    var inPeriod := (row: PvcRow) => start <= row.start < end;
    var kept := Filter(rows, inPeriod);
    var perGroup := (g: Group<(string, string), PvcRow>) => cell(Roll(start, end, g));
    GroupedSum(kept, ProjectAndClass, f, perGroup);
    SumMap(GroupBy(kept, ProjectAndClass), (g: Group<(string, string), PvcRow>) => Roll(start, end, g), cell, perGroup);
    SumFilter(rows, inPeriod, f, h);
  }

  /******* What the report adds up to *******/

  lemma JoinedRowHour(requests: seq<Reading<PvcLabels>>, usages: seq<Reading<PvcLabels>>, base: int, hours: nat,
                      row: PvcRow)
    returns (i: int)
    requires row in JoinedRows(requests, usages, base, hours)
    ensures 0 <= i < hours && row.start == HourStart(base, i) && row.end == row.start + 3600
  {
    var l, x := InJoin(RequestRows(requests, base, hours), HourlyReport(usages, base, hours), SameVolume, WithUsage,
                       row);
    var k :| 0 <= k < |RequestRows(requests, base, hours)| && RequestRows(requests, base, hours)[k] == l;
    i := HourlyRow(requests, base, hours, HourlyReport(requests, base, hours)[k]);
  }

  lemma ReportSum(requests: seq<Reading<PvcLabels>>, usages: seq<Reading<PvcLabels>>, base: int, hours: nat,
                  i: nat, j: nat, cell: StorageRow -> real, f: PvcRow -> real, h: PvcRow -> real)
    requires forall start, end, g: Group<(string, string), PvcRow> |
      (forall row | row in g.rows :: ProjectAndClass(row) == g.key) :: cell(Roll(start, end, g)) == Sum(g.rows, f)
    requires forall row :: h(row) == if HourStart(base, i) <= row.start < HourStart(base, j) then f(row) else 0.0
    ensures Sum(ProjectStorage(requests, usages, base, hours, i, j), cell)
         == Sum(JoinedRows(requests, usages, base, hours), h)
  {
    var rows := JoinedRows(requests, usages, base, hours);
    RollUp(PvcHourly(requests, usages, base, hours), HourStart(base, i), HourStart(base, j), cell, f, h);
    forall row | row in rows ensures base <= row.start < HourStart(base, hours) {
      var _ := JoinedRowHour(requests, usages, base, hours, row);
    }
    ByHoursSum(rows, PvcStart, base, hours, h);
  }

  /** Whether an hour's amount counts. */
  function Counts(q: Groups, base: int, i: nat, j: nat, start: int, labels: PvcLabels): nat {
    if HourStart(base, i) <= start < HourStart(base, j) && Mine(q, labels) then 1 else 0
  }

  lemma RequestsBilled(requests: seq<Reading<PvcLabels>>, usages: seq<Reading<PvcLabels>>, base: int, hours: nat,
                       w: (int, PvcLabels) -> nat, h: PvcRow -> real, v: Reading<PvcLabels> -> real)
    requires forall row :: h(row) == Times(row.request, w(row.start, row.labels))
    requires forall r | r in requests :: v(r) == Times(r.amount, w(HourOf(base, r.time), r.labels))
    ensures Sum(JoinedRows(requests, usages, base, hours), h)
         == Sum(InWindow(requests, base, HourStart(base, hours)), v)
  {
    var rows := RequestRows(requests, base, hours);
    var f := (r: HourRow<PvcLabels>) => h(Requesting(r));
    HourlyMatches(rows, usages, base, hours, SameVolume);
    UniqueJoinSum(rows, HourlyReport(usages, base, hours), SameVolume, WithUsage, h, h);
    SumMap(HourlyReport(requests, base, hours), Requesting, h, f);
    HourlyConservation(requests, base, hours, w, f, v);
  }

  function ReportTotal(requests: seq<Reading<PvcLabels>>, usages: seq<Reading<PvcLabels>>, base: int, hours: nat,
                       i: nat, j: nat, cell: StorageRow -> real): real {
    Sum(ProjectStorage(requests, usages, base, hours, i, j), cell)
  }

  lemma CountedRequest(q: Groups, base: int, i: nat, j: nat, start: int, labels: PvcLabels, x: real)
    ensures Times(x, Counts(q, base, i, j, start, labels))
         == if HourStart(base, i) <= start < HourStart(base, j) && Mine(q, labels) then x else 0.0
  {
    TimesOnce(x);
  }

  /** Storage requests are conserved: no join against usage repeats or loses a request, whatever the groups. */
  lemma {:induction false} RequestTotal(requests: seq<Reading<PvcLabels>>, usages: seq<Reading<PvcLabels>>, base: int,
                     hours: nat, i: nat, j: nat, q: Groups)
    requires i <= j <= hours
    ensures ReportTotal(requests, usages, base, hours, i, j, (row: StorageRow) => RequestCell(q, row))
         == Sum(InPeriod(requests, base, i, j, (labels: PvcLabels) => Mine(q, labels)),
                (r: Reading<PvcLabels>) => r.amount)
  {
    var w := (start: int, labels: PvcLabels) => Counts(q, base, i, j, start, labels);
    var f := (row: PvcRow) => MyRequest(q, row);
    var h := (row: PvcRow) => Times(row.request, w(row.start, row.labels));
    var v := (r: Reading<PvcLabels>) => Times(r.amount, w(HourOf(base, r.time), r.labels));
    forall start, end, g: Group<(string, string), PvcRow> | forall row | row in g.rows :: ProjectAndClass(row) == g.key
      ensures RequestCell(q, Roll(start, end, g)) == Sum(g.rows, f)
    {
      RolledRequest(start, end, q, g);
    }
    forall row: PvcRow ensures h(row) == if HourStart(base, i) <= row.start < HourStart(base, j) then f(row) else 0.0 {
      CountedRequest(q, base, i, j, row.start, row.labels, row.request);
    }
    ReportSum(requests, usages, base, hours, i, j, (row: StorageRow) => RequestCell(q, row), f, h);
    RequestsBilled(requests, usages, base, hours, w, h, v);
    forall r | r in requests
      ensures v(r) == if HourStart(base, i) <= HourOf(base, r.time) < HourStart(base, j) && Mine(q, r.labels)
                      then r.amount else 0.0
    {
      CountedRequest(q, base, i, j, HourOf(base, r.time), r.labels, r.amount);
    }
    PeriodSum(requests, base, hours, i, j, (labels: PvcLabels) => Mine(q, labels), v,
              (r: Reading<PvcLabels>) => r.amount);
  }

  /** The same from the raw samples: those of the period with the four labels the request query requires. */
  lemma {:induction false} RequestTotalOfSamples(samples: seq<Sample>, usages: seq<Reading<PvcLabels>>, base: int,
                              hours: nat, i: nat, j: nat, q: Groups, h: Sample -> real)
    requires i <= j <= hours
    requires forall s | s in samples ::
      h(s) == if HourStart(base, i) <= s.time < HourStart(base, j) && SelectRequest(s).Some?
                 && Mine(q, SelectRequest(s).value)
              then s.amount * s.precision / GIB else 0.0
    ensures ReportTotal(Read(samples, SelectRequest, GIB), usages, base, hours, i, j,
                        (row: StorageRow) => RequestCell(q, row)) == Sum(samples, h)
  {
    var requests := Read(samples, SelectRequest, GIB);
    var f := (r: Reading<PvcLabels>) =>
      if HourStart(base, i) <= r.time < HourStart(base, j) && Mine(q, r.labels) then r.amount else 0.0;
    RequestTotal(requests, usages, base, hours, i, j, q);
    InPeriodSum(requests, base, i, j, (labels: PvcLabels) => Mine(q, labels), (r: Reading<PvcLabels>) => r.amount, f);
    ReadSum(samples, SelectRequest, GIB, f, h);
  }

  /** Whether a claim's usage finds its request: same hour, same labels, and a volume name that is not NULL. */
  ghost predicate Claimed(requests: seq<Reading<PvcLabels>>, start: int, labels: PvcLabels) {
    labels.volume.Some? && Occurs(requests, start, start + 3600, labels)
  }

  lemma ClaimMatches(requests: seq<Reading<PvcLabels>>, base: int, hours: nat, r: HourRow<PvcLabels>, i: int)
    requires 0 <= i < hours && r.start == HourStart(base, i) && r.end == r.start + 3600
    ensures (exists l | l in RequestRows(requests, base, hours) :: SameVolume(l, r))
       <==> Claimed(requests, r.start, r.labels)
  {
    var table, rows := HourlyReport(requests, base, hours), RequestRows(requests, base, hours);
    if Claimed(requests, r.start, r.labels) {
      var row := HourlyRowExists(requests, base, hours, i, r.labels);
      var k :| 0 <= k < |table| && table[k] == row;
      assert rows[k] in rows && SameVolume(rows[k], r);
    }
    if l :| l in rows && SameVolume(l, r) {
      var k :| 0 <= k < |rows| && rows[k] == l;
      var _ := HourlyRow(requests, base, hours, table[k]);
    }
  }

  lemma ClaimCount(requests: seq<Reading<PvcLabels>>, base: int, hours: nat, r: HourRow<PvcLabels>, i: int)
    requires 0 <= i < hours && r.start == HourStart(base, i) && r.end == r.start + 3600
    ensures Matched(RequestRows(requests, base, hours), r, SameVolume)
         == if Claimed(requests, r.start, r.labels) then 1 else 0
  {
    var table, rows := HourlyReport(requests, base, hours), RequestRows(requests, base, hours);
    var key := (row: PvcRow) => (row.start, row.end, row.labels);
    HourlyKeyed(requests, base, hours);
    forall a, b | 0 <= a < b < |rows| ensures key(rows[a]) != key(rows[b]) {
      assert key(rows[a]) == KeyOf(table[a]) && key(rows[b]) == KeyOf(table[b]);
    }
    ClaimMatches(requests, base, hours, r, i);
    MatchedCount(rows, r, SameVolume, key);
  }

  ghost function IfClaimed(requests: seq<Reading<PvcLabels>>, start: int, labels: PvcLabels, n: nat): nat {
    if Claimed(requests, start, labels) then n else 0
  }

  lemma UsageMatched(requests: seq<Reading<PvcLabels>>, usages: seq<Reading<PvcLabels>>, base: int, hours: nat,
                     r: HourRow<PvcLabels>, n: nat)
    requires r in HourlyReport(usages, base, hours)
    ensures Times(r.amount, IfClaimed(requests, r.start, r.labels, n))
         == Times(Times(r.amount, n), Matched(RequestRows(requests, base, hours), r, SameVolume))
  {
    var i := HourlyRow(usages, base, hours, r);
    ClaimCount(requests, base, hours, r, i);
    TimesOnce(Times(r.amount, n));
    TimesOnce(r.amount);
  }

  lemma UsagesBilled(requests: seq<Reading<PvcLabels>>, usages: seq<Reading<PvcLabels>>, base: int, hours: nat,
                     w: (int, PvcLabels) -> nat, h: PvcRow -> real, v: Reading<PvcLabels> -> real)
    requires forall row :: h(row) == Times(Usage(row), w(row.start, row.labels))
    requires forall r | r in usages ::
      v(r) == Times(r.amount, IfClaimed(requests, HourOf(base, r.time), r.labels, w(HourOf(base, r.time), r.labels)))
    ensures Sum(JoinedRows(requests, usages, base, hours), h) == Sum(InWindow(usages, base, HourStart(base, hours)), v)
  {
    var rows, table := RequestRows(requests, base, hours), HourlyReport(usages, base, hours);
    var kept := (start: int, labels: PvcLabels) => IfClaimed(requests, start, labels, w(start, labels));
    var g := (r: HourRow<PvcLabels>) => Times(r.amount, w(r.start, r.labels));
    var perRight := (r: HourRow<PvcLabels>) => Times(r.amount, kept(r.start, r.labels));
    forall r | r in table ensures perRight(r) == Times(g(r), Matched(rows, r, SameVolume)) {
      UsageMatched(requests, usages, base, hours, r, w(r.start, r.labels));
    }
    forall l | l in rows ensures h(WithUsage(l, None)) == 0.0 {
      TimesZero(w(l.start, l.labels));
    }
    JoinRightSum(rows, table, SameVolume, WithUsage, h, g, perRight);
    HourlyConservation(usages, base, hours, kept, perRight, v);
  }

  ghost function ClaimedAmount(requests: seq<Reading<PvcLabels>>, base: int, r: Reading<PvcLabels>): real {
    if Claimed(requests, HourOf(base, r.time), r.labels) then r.amount else 0.0
  }

  lemma CountedUsage(requests: seq<Reading<PvcLabels>>, q: Groups, base: int, i: nat, j: nat, r: Reading<PvcLabels>)
    ensures Times(r.amount, IfClaimed(requests, HourOf(base, r.time), r.labels,
                                      Counts(q, base, i, j, HourOf(base, r.time), r.labels)))
         == if HourStart(base, i) <= HourOf(base, r.time) < HourStart(base, j) && Mine(q, r.labels)
            then ClaimedAmount(requests, base, r) else 0.0
  {
    CountedRequest(q, base, i, j, HourOf(base, r.time), r.labels, r.amount);
    TimesOnce(r.amount);
  }

  /** Storage usage is billed where the same claim, volume, class and project had a request in the same hour. */
  lemma UsageTotal(requests: seq<Reading<PvcLabels>>, usages: seq<Reading<PvcLabels>>, base: int, hours: nat,
                   i: nat, j: nat, q: Groups)
    requires i <= j <= hours
    ensures ReportTotal(requests, usages, base, hours, i, j, (row: StorageRow) => UsageCell(q, row))
         == Sum(InPeriod(usages, base, i, j, (labels: PvcLabels) => Mine(q, labels)),
                (r: Reading<PvcLabels>) => ClaimedAmount(requests, base, r))
  {
    var w := (start: int, labels: PvcLabels) => Counts(q, base, i, j, start, labels);
    var f := (row: PvcRow) => MyUsage(q, row);
    var h := (row: PvcRow) => Times(Usage(row), w(row.start, row.labels));
    var v := (r: Reading<PvcLabels>) =>
      Times(r.amount, IfClaimed(requests, HourOf(base, r.time), r.labels, w(HourOf(base, r.time), r.labels)));
    forall start, end, g: Group<(string, string), PvcRow> | forall row | row in g.rows :: ProjectAndClass(row) == g.key
      ensures UsageCell(q, Roll(start, end, g)) == Sum(g.rows, f)
    {
      RolledUsage(start, end, q, g);
    }
    forall row: PvcRow ensures h(row) == if HourStart(base, i) <= row.start < HourStart(base, j) then f(row) else 0.0 {
      CountedRequest(q, base, i, j, row.start, row.labels, Usage(row));
    }
    ReportSum(requests, usages, base, hours, i, j, (row: StorageRow) => UsageCell(q, row), f, h);
    UsagesBilled(requests, usages, base, hours, w, h, v);
    forall r | r in usages
      ensures v(r) == if HourStart(base, i) <= HourOf(base, r.time) < HourStart(base, j) && Mine(q, r.labels)
                      then ClaimedAmount(requests, base, r) else 0.0
    {
      CountedUsage(requests, q, base, i, j, r);
    }
    PeriodSum(usages, base, hours, i, j, (labels: PvcLabels) => Mine(q, labels), v,
              (r: Reading<PvcLabels>) => ClaimedAmount(requests, base, r));
  }

  /** For usage that is not negative the bill never exceeds the raw usage, and is all of it exactly when no positive
      reading lacks a request. */
  lemma UsageExact(requests: seq<Reading<PvcLabels>>, usages: seq<Reading<PvcLabels>>, base: int, hours: nat,
                   i: nat, j: nat, q: Groups, mine: seq<Reading<PvcLabels>>)
    requires i <= j <= hours
    requires mine == InPeriod(usages, base, i, j, (labels: PvcLabels) => Mine(q, labels))
    requires forall r | r in mine :: r.amount >= 0.0
    ensures ReportTotal(requests, usages, base, hours, i, j, (row: StorageRow) => UsageCell(q, row))
         <= Sum(mine, (r: Reading<PvcLabels>) => r.amount)
    ensures ReportTotal(requests, usages, base, hours, i, j, (row: StorageRow) => UsageCell(q, row))
         == Sum(mine, (r: Reading<PvcLabels>) => r.amount)
       <==> forall r | r in mine && r.amount > 0.0 :: Claimed(requests, HourOf(base, r.time), r.labels)
  {
    hide ReportTotal;
    var amount := (r: Reading<PvcLabels>) => r.amount;
    var billed := (r: Reading<PvcLabels>) => ClaimedAmount(requests, base, r);
    UsageTotal(requests, usages, base, hours, i, j, q);
    SumMonotone(mine, billed, amount);
    SumEqualIff(mine, billed, amount);
  }

  /** A usage sample's share of the bill. */
  ghost function SampleUsage(requests: seq<Reading<PvcLabels>>, q: Groups, base: int, i: nat, j: nat, s: Sample): real {
    if HourStart(base, i) <= s.time < HourStart(base, j) && SelectUsage(s).Some? && Mine(q, SelectUsage(s).value)
       && Claimed(requests, HourOf(base, s.time), SelectUsage(s).value)
    then s.amount * s.precision / GIB
    else 0.0
  }

  /** The same from the raw samples: those with all five labels, for claims with a request in the same hour. */
  lemma {:induction false} UsageTotalOfSamples(requests: seq<Reading<PvcLabels>>, samples: seq<Sample>, base: int,
                            hours: nat, i: nat, j: nat, q: Groups)
    requires i <= j <= hours
    ensures ReportTotal(requests, Read(samples, SelectUsage, GIB), base, hours, i, j,
                        (row: StorageRow) => UsageCell(q, row))
         == Sum(samples, (s: Sample) => SampleUsage(requests, q, base, i, j, s))
  {
    var usages, x := Read(samples, SelectUsage, GIB), (r: Reading<PvcLabels>) => ClaimedAmount(requests, base, r);
    var f := (r: Reading<PvcLabels>) =>
      if HourStart(base, i) <= r.time < HourStart(base, j) && Mine(q, r.labels) then x(r) else 0.0;
    UsageTotal(requests, usages, base, hours, i, j, q);
    InPeriodSum(usages, base, i, j, (labels: PvcLabels) => Mine(q, labels), x, f);
    ReadSum(samples, SelectUsage, GIB, f, (s: Sample) => SampleUsage(requests, q, base, i, j, s));
  }

  /******* The two ways of filtering a period *******/

  /** `period_start < E`, as here, and `period_end <= E`, as in the CPU report, select the same rows
      exactly when no row's window lies across the end of the period. */
  lemma FiltersAgree(rows: seq<PvcRow>, start: int, end: int)
    requires forall row | row in rows :: row.start < row.end
    ensures Filter(rows, (row: PvcRow) => start <= row.start < end)
         == Filter(rows, (row: PvcRow) => start <= row.start && row.end <= end)
       <==> !exists row | row in rows :: start <= row.start < end < row.end
  {
    var byStart := (row: PvcRow) => start <= row.start < end;
    var byEnd := (row: PvcRow) => start <= row.start && row.end <= end;
    if row :| row in rows && start <= row.start < end < row.end {
      assert row in Filter(rows, byStart) && row !in Filter(rows, byEnd);
    } else {
      FilterCongruence(rows, byStart, byEnd);
    }
  }

  lemma WholeHours(base: int, h: int, j: int)
    ensures !(HourStart(base, h) < HourStart(base, j) < HourStart(base, h) + 3600)
  {
  }

  /** A period of whole hours never cuts a row's window, so there the two filters always agree. */
  lemma AlignedFilters(requests: seq<Reading<PvcLabels>>, usages: seq<Reading<PvcLabels>>, base: int, hours: nat,
                       i: nat, j: nat)
    ensures Filter(JoinedRows(requests, usages, base, hours),
                   (row: PvcRow) => HourStart(base, i) <= row.start < HourStart(base, j))
         == Filter(JoinedRows(requests, usages, base, hours),
                   (row: PvcRow) => HourStart(base, i) <= row.start && row.end <= HourStart(base, j))
  {
    var rows := JoinedRows(requests, usages, base, hours);
    forall row | row in rows ensures row.end == row.start + 3600 && !(row.start < HourStart(base, j) < row.end) {
      var h := JoinedRowHour(requests, usages, base, hours, row);
      WholeHours(base, h, j);
    }
    FiltersAgree(rows, HourStart(base, i), HourStart(base, j));
  }
}
