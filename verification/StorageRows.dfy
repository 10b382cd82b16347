/** The storage report row by row, from the raw samples. */
module StorageRows {
  import opened Wrappers
  import opened Sums
  import opened Reports
  import opened StorageReport

  /******* From the joined rows *******/

  type PvcGroup = Group<(string, string), PvcRow>

  /** Whether a joined row belongs to a row of the report. */
  predicate Belongs(row: StorageRow, r: PvcRow) {
    row.start <= r.start < row.end && r.labels.project == row.project && r.labels.storageClass == row.storageClass
  }

  function Kept(rows: seq<PvcRow>, start: int, end: int): seq<PvcRow> {
    Filter(rows, (row: PvcRow) => start <= row.start < end)
  }

  function Rows(groups: seq<PvcGroup>, start: int, end: int): seq<StorageRow> {
    Map(groups, (g: PvcGroup) => Roll(start, end, g))
  }

  lemma FromGroups(rows: seq<PvcRow>, start: int, end: int)
    ensures ByProject(rows, start, end) == Rows(GroupBy(Kept(rows, start, end), ProjectAndClass), start, end)
  {
  }

  lemma RolledKey(start: int, end: int, g: PvcGroup)
    ensures var row := Roll(start, end, g);
            row.start == start && row.end == end && row.project == g.key.0 && row.storageClass == g.key.1
  {
  }

  /** The report never has two rows for one project and storage class. */
  lemma OneRowPerPair(rows: seq<PvcRow>, start: int, end: int)
    ensures var report := ByProject(rows, start, end);
            forall a, b | 0 <= a < b < |report| ::
              report[a].project != report[b].project || report[a].storageClass != report[b].storageClass
  {
    hide GroupBy, ByProject, Roll;
    GroupsExactly(Kept(rows, start, end), ProjectAndClass);
    FromGroups(rows, start, end);
    var groups := GroupBy(Kept(rows, start, end), ProjectAndClass);
    var report := Rows(groups, start, end);
    forall a, b | 0 <= a < b < |report|
      ensures report[a].project != report[b].project || report[a].storageClass != report[b].storageClass
    {
      RolledKey(start, end, groups[a]);
      RolledKey(start, end, groups[b]);
    }
  }

  lemma PairRolled(rows: seq<PvcRow>, start: int, end: int, r: PvcRow) returns (row: StorageRow)
    requires r in rows && start <= r.start < end
    ensures row in ByProject(rows, start, end)
    ensures row.project == r.labels.project && row.storageClass == r.labels.storageClass
  {
    hide GroupBy, ByProject, Roll;
    var groups := GroupBy(Kept(rows, start, end), ProjectAndClass);
    GroupsExactly(Kept(rows, start, end), ProjectAndClass);
    FromGroups(rows, start, end);
    assert r in Kept(rows, start, end);
    var g :| g in groups && g.key == ProjectAndClass(r);
    var k :| 0 <= k < |groups| && groups[k] == g;
    row := Rows(groups, start, end)[k];
    RolledKey(start, end, g);
  }

  lemma RolledFrom(rows: seq<PvcRow>, start: int, end: int, row: StorageRow) returns (g: PvcGroup)
    requires row in ByProject(rows, start, end)
    ensures row == Roll(start, end, g) && g == GroupOf(Kept(rows, start, end), ProjectAndClass, g.key) && g.rows != []
  {
    hide GroupBy, ByProject, Roll, Kept;
    var groups := GroupBy(Kept(rows, start, end), ProjectAndClass);
    GroupsExactly(Kept(rows, start, end), ProjectAndClass);
    FromGroups(rows, start, end);
    var k :| 0 <= k < |groups| && Rows(groups, start, end)[k] == row;
    g := groups[k];
    assert g in groups;
  }

  lemma PairFound(rows: seq<PvcRow>, start: int, end: int, row: StorageRow) returns (r: PvcRow)
    requires row in ByProject(rows, start, end)
    ensures r in rows && row.start == start && row.end == end && Belongs(row, r)
  {
    hide ByProject, Roll;
    var g := RolledFrom(rows, start, end, row);
    RolledKey(start, end, g);
    r := g.rows[0];
    assert r in g.rows && ProjectAndClass(r) == g.key;
  }

  /** It has one for a project and storage class exactly if a joined row of the period has them. */
  lemma PairListed(rows: seq<PvcRow>, start: int, end: int, project: string, storageClass: string)
    ensures (exists row | row in ByProject(rows, start, end) ::
               row.project == project && row.storageClass == storageClass)
       <==> exists r | r in rows ::
              start <= r.start < end && r.labels.project == project && r.labels.storageClass == storageClass
  {
    hide ByProject;
    if r :| r in rows && start <= r.start < end
            && r.labels.project == project && r.labels.storageClass == storageClass {
      var _ := PairRolled(rows, start, end, r);
    }
    if row :| row in ByProject(rows, start, end) && row.project == project && row.storageClass == storageClass {
      var _ := PairFound(rows, start, end, row);
    }
  }

  lemma UsageExactly(start: int, end: int, g: PvcGroup, has: PvcRow -> bool)
    requires forall row | row in g.rows :: has(row) <==> row.usage.Some?
    ensures SumOf(Roll(start, end, g).usage, g.rows, has, Usage)
  {
    var u := Usage;
    SumCongruence(g.rows, u, (row: PvcRow) => if has(row) then u(row) else 0.0);
  }

  lemma RequestExactly(start: int, end: int, g: PvcGroup, all: PvcRow -> bool, amount: PvcRow -> real)
    requires g.rows != [] && forall row | row in g.rows :: all(row) && amount(row) == row.request
    ensures SumOf(Roll(start, end, g).request, g.rows, all, amount)
  {
    assert g.rows[0] in g.rows;
    SumCongruence(g.rows, (row: PvcRow) => row.request, (row: PvcRow) => if all(row) then amount(row) else 0.0);
  }

  lemma ColumnExactly(rows: seq<PvcRow>, start: int, end: int, key: (string, string), x: Option<real>,
                      has: PvcRow -> bool, amount: PvcRow -> real, counts: PvcRow -> bool, value: PvcRow -> real)
    requires SumOf(x, GroupOf(Kept(rows, start, end), ProjectAndClass, key).rows, has, amount)
    requires forall r | r in rows ::
      counts(r) <==> start <= r.start < end && ProjectAndClass(r) == key && has(r)
    requires forall r | r in rows && counts(r) :: value(r) == amount(r)
    ensures SumOf(x, rows, counts, value)
  {
    hide SumOf;
    var toKey := ProjectAndClass;
    var ofKey := (r: PvcRow) => toKey(r) == key;
    var hasKey := (r: PvcRow) => ofKey(r) && has(r);
    GroupRows(Kept(rows, start, end), toKey, key, ofKey);
    SumOfFilter(x, Kept(rows, start, end), ofKey, has, amount, hasKey, amount);
    SumOfFilter(x, rows, (r: PvcRow) => start <= r.start < end, hasKey, amount, counts, value);
  }

  /** Its cells are SQL sums of the joined rows that belong to it. */
  lemma RowExactly(rows: seq<PvcRow>, start: int, end: int, row: StorageRow)
    requires row in ByProject(rows, start, end)
    ensures row.start == start && row.end == end
    ensures SumOf(row.request, rows, (r: PvcRow) => Belongs(row, r), (r: PvcRow) => r.request)
    ensures SumOf(row.usage, rows, (r: PvcRow) => Belongs(row, r) && r.usage.Some?,
                  (r: PvcRow) => if r.usage.Some? then r.usage.value else 0.0)
  {
    hide GroupOf, ByProject, SumOf, Kept, Roll;
    var g := RolledFrom(rows, start, end, row);
    RolledKey(start, end, g);
    var all, has := (r: PvcRow) => true, (r: PvcRow) => r.usage.Some?;
    var amount := (r: PvcRow) => r.request;
    RequestExactly(start, end, g, all, amount);
    ColumnExactly(rows, start, end, g.key, row.request, all, amount, (r: PvcRow) => Belongs(row, r), amount);
    UsageExactly(start, end, g, has);
    ColumnExactly(rows, start, end, g.key, row.usage, has, Usage,
                  (r: PvcRow) => Belongs(row, r) && r.usage.Some?,
                  (r: PvcRow) => if r.usage.Some? then r.usage.value else 0.0);
  }

  /******* The joined rows from the readings *******/

  type PvcReadings = seq<Reading<PvcLabels>>

  lemma JoinedRowExists(requests: PvcReadings, usages: PvcReadings, base: int, hours: nat, h: int, labels: PvcLabels)
    returns (row: PvcRow)
    requires 0 <= h < hours && Occurs(requests, HourStart(base, h), HourStart(base, h + 1), labels)
    ensures row in JoinedRows(requests, usages, base, hours)
    ensures row.start == HourStart(base, h) && row.labels == labels
  {
    hide HourlyReport, Occurs, LeftJoin, Matches;
    var table, left := HourlyReport(requests, base, hours), RequestRows(requests, base, hours);
    var right := HourlyReport(usages, base, hours);
    var r := HourlyRowExists(requests, base, hours, h, labels);
    var k :| 0 <= k < |table| && table[k] == r;
    var l := left[k];
    var matches := Matches(l, right, SameVolume);
    row := WithUsage(l, if matches == [] then None else Some(matches[0]));
    assert row == JoinRow(l, matches, WithUsage)[0];
    JoinHas(left, right, SameVolume, WithUsage, l, row);
  }

  lemma JoinedRowFrom(requests: PvcReadings, usages: PvcReadings, base: int, hours: nat, row: PvcRow)
    returns (h: int)
    requires row in JoinedRows(requests, usages, base, hours)
    ensures 0 <= h < hours && row.start == HourStart(base, h) && row.end == HourStart(base, h + 1)
    ensures Occurs(requests, row.start, row.end, row.labels)
    ensures row.usage.Some? <==> row.labels.volume.Some? && Occurs(usages, row.start, row.end, row.labels)
  {
    hide HourlyReport, Occurs, LeftJoin, Matches;
    var table, left := HourlyReport(requests, base, hours), RequestRows(requests, base, hours);
    var right := HourlyReport(usages, base, hours);
    var l, x := InJoin(left, right, SameVolume, WithUsage, row);
    var k :| 0 <= k < |left| && left[k] == l;
    h := HourlyRow(requests, base, hours, table[k]);
    if x.Some? {
      var _ := HourlyRow(usages, base, hours, x.value);
    }
    if row.labels.volume.Some? && Occurs(usages, row.start, row.end, row.labels) {
      var r := HourlyRowExists(usages, base, hours, h, row.labels);
      assert SameVolume(l, r);
    }
  }

  lemma PvcHourlyRows(requests: PvcReadings, usages: PvcReadings, base: int, hours: nat)
    ensures forall row ::
      row in PvcHourly(requests, usages, base, hours) <==> row in JoinedRows(requests, usages, base, hours)
  {
    hide JoinedRows;
    var rows := JoinedRows(requests, usages, base, hours);
    forall row | row in rows ensures base <= row.start < HourStart(base, hours) {
      var i := JoinedRowHour(requests, usages, base, hours, row);
    }
    ByHoursRows(rows, PvcStart, base, hours);
  }

  /******* The report from the readings *******/

  /** Whether a reading with this time and these labels is one for a row of the report. */
  predicate ReadFor(base: int, i: nat, j: nat, row: StorageRow, time: int, labels: PvcLabels) {
    && HourStart(base, i) <= time < HourStart(base, j)
    && labels.project == row.project && labels.storageClass == row.storageClass
  }

  /** A joined row that belongs to the report's row for a request. */
  lemma JoinedRowFor(requests: PvcReadings, usages: PvcReadings, base: int, hours: nat, i: nat, j: nat, row: StorageRow,
                     t: Reading<PvcLabels>) returns (r: PvcRow)
    requires j <= hours && row.start == HourStart(base, i) && row.end == HourStart(base, j)
    requires t in requests && ReadFor(base, i, j, row, t.time, t.labels)
    ensures r in PvcHourly(requests, usages, base, hours) && r in JoinedRows(requests, usages, base, hours)
    ensures Belongs(row, r) && r.start == HourOf(base, t.time) && r.labels == t.labels
  {
    hide PvcHourly, JoinedRows;
    var h := (t.time - base) / 3600;
    assert Occurs(requests, HourStart(base, h), HourStart(base, h + 1), t.labels);
    r := JoinedRowExists(requests, usages, base, hours, h, t.labels);
    PvcHourlyRows(requests, usages, base, hours);
  }

  /** A joined row that belongs to a row of the report is for a request of its period. */
  lemma BelongsHour(requests: PvcReadings, usages: PvcReadings, base: int, hours: nat, i: nat, j: nat, row: StorageRow,
                    r: PvcRow) returns (h: int)
    requires row.start == HourStart(base, i) && row.end == HourStart(base, j)
    requires r in PvcHourly(requests, usages, base, hours) && Belongs(row, r)
    ensures i <= h < j && h < hours && r.start == HourStart(base, h) && r.end == HourStart(base, h + 1)
    ensures r in JoinedRows(requests, usages, base, hours) && Occurs(requests, r.start, r.end, r.labels)
  {
    hide PvcHourly, JoinedRows;
    PvcHourlyRows(requests, usages, base, hours);
    h := JoinedRowFrom(requests, usages, base, hours, r);
  }

  /** The report has a row for a project and storage class exactly if the period has such a request. */
  lemma ReportListed(requests: PvcReadings, usages: PvcReadings, base: int, hours: nat, i: nat, j: nat,
                     project: string, storageClass: string)
    requires i <= j <= hours
    ensures (exists row | row in ProjectStorage(requests, usages, base, hours, i, j) ::
               row.project == project && row.storageClass == storageClass)
       <==> exists r | r in requests ::
              HourStart(base, i) <= r.time < HourStart(base, j)
              && r.labels.project == project && r.labels.storageClass == storageClass
  {
    hide PvcHourly, JoinedRows, ByProject;
    var rows, start, end := PvcHourly(requests, usages, base, hours), HourStart(base, i), HourStart(base, j);
    PairListed(rows, start, end, project, storageClass);
    var row := StorageRow(start, end, storageClass, project, None, None);
    if r :| r in rows && start <= r.start < end
            && r.labels.project == project && r.labels.storageClass == storageClass {
      var h := BelongsHour(requests, usages, base, hours, i, j, row, r);
      var t :| t in requests && r.start <= t.time < r.end && t.labels == r.labels;
      assert start <= t.time < end;
    }
    if t :| t in requests && start <= t.time < end && t.labels.project == project
            && t.labels.storageClass == storageClass {
      var r := JoinedRowFor(requests, usages, base, hours, i, j, row, t);
    }
  }

  /** What counts towards the usage of a row. */
  ghost predicate UsageReadFor(requests: PvcReadings, base: int, i: nat, j: nat, row: StorageRow,
                               r: Reading<PvcLabels>) {
    ReadFor(base, i, j, row, r.time, r.labels) && Claimed(requests, HourOf(base, r.time), r.labels)
  }

  lemma UsageNull(requests: PvcReadings, usages: PvcReadings, base: int, hours: nat, i: nat, j: nat, row: StorageRow)
    requires i <= j <= hours && row in ProjectStorage(requests, usages, base, hours, i, j)
    ensures row.usage.Some? <==> exists r | r in usages :: UsageReadFor(requests, base, i, j, row, r)
  {
    hide PvcHourly, JoinedRows, ByProject;
    var rows := PvcHourly(requests, usages, base, hours);
    RowExactly(rows, HourStart(base, i), HourStart(base, j), row);
    if r :| r in rows && Belongs(row, r) && r.usage.Some? {
      var h := BelongsHour(requests, usages, base, hours, i, j, row, r);
      var _ := JoinedRowFrom(requests, usages, base, hours, r);
      var t :| t in usages && r.start <= t.time < r.end && t.labels == r.labels;
      HourOfWindow(base, h, t.time);
      assert UsageReadFor(requests, base, i, j, row, t);
    }
    if t :| t in usages && UsageReadFor(requests, base, i, j, row, t) {
      var start := HourOf(base, t.time);
      var q :| q in requests && start <= q.time < start + 3600 && q.labels == t.labels;
      var _ := UsageJoined(requests, usages, base, hours, i, j, row, q, t);
    }
  }

  lemma UsageJoined(requests: PvcReadings, usages: PvcReadings, base: int, hours: nat, i: nat, j: nat, row: StorageRow,
                    q: Reading<PvcLabels>, t: Reading<PvcLabels>) returns (r: PvcRow)
    requires j <= hours && row.start == HourStart(base, i) && row.end == HourStart(base, j)
    requires q in requests && t in usages && ReadFor(base, i, j, row, t.time, t.labels)
    requires HourOf(base, t.time) <= q.time < HourOf(base, t.time) + 3600 && q.labels == t.labels
    requires t.labels.volume.Some?
    ensures r in PvcHourly(requests, usages, base, hours) && Belongs(row, r) && r.usage.Some?
  {
    hide PvcHourly, JoinedRows, Belongs;
    r := JoinedRowFor(requests, usages, base, hours, i, j, row, q);
    var h := JoinedRowFrom(requests, usages, base, hours, r);
    assert r.start <= t.time < r.end;
    assert Occurs(usages, r.start, r.end, r.labels);
  }

  lemma RowTotal(requests: PvcReadings, usages: PvcReadings, base: int, hours: nat, i: nat, j: nat, row: StorageRow,
                 q: Groups)
    requires row in ProjectStorage(requests, usages, base, hours, i, j)
    requires forall p, c :: q(p, c) <==> p == row.project && c == row.storageClass
    ensures ReportTotal(requests, usages, base, hours, i, j, (r: StorageRow) => RequestCell(q, r))
         == if row.request.Some? then row.request.value else 0.0
    ensures ReportTotal(requests, usages, base, hours, i, j, (r: StorageRow) => UsageCell(q, r))
         == if row.usage.Some? then row.usage.value else 0.0
  {
    hide PvcHourly, ByProject;
    var report := ProjectStorage(requests, usages, base, hours, i, j);
    var k :| 0 <= k < |report| && report[k] == row;
    OneRowPerPair(PvcHourly(requests, usages, base, hours), HourStart(base, i), HourStart(base, j));
    OnlyRow(report, k, (r: StorageRow) => RequestCell(q, r));
    OnlyRow(report, k, (r: StorageRow) => UsageCell(q, r));
  }

  lemma RequestRead(requests: PvcReadings, usages: PvcReadings, base: int, hours: nat, i: nat, j: nat, row: StorageRow)
    requires i <= j <= hours && row in ProjectStorage(requests, usages, base, hours, i, j)
    ensures row.start == HourStart(base, i) && row.end == HourStart(base, j) && row.request.Some?
    ensures exists r | r in requests :: ReadFor(base, i, j, row, r.time, r.labels)
  {
    hide PvcHourly, ByProject;
    var rows := PvcHourly(requests, usages, base, hours);
    RowExactly(rows, HourStart(base, i), HourStart(base, j), row);
    var _ := PairFound(rows, HourStart(base, i), HourStart(base, j), row);
    ReportListed(requests, usages, base, hours, i, j, row.project, row.storageClass);
    var r :| r in requests && HourStart(base, i) <= r.time < HourStart(base, j)
             && r.labels.project == row.project && r.labels.storageClass == row.storageClass;
    assert ReadFor(base, i, j, row, r.time, r.labels);
  }

  lemma RequestOfReadings(requests: PvcReadings, usages: PvcReadings, base: int, hours: nat, i: nat, j: nat,
                          row: StorageRow, kept: Reading<PvcLabels> -> bool)
    requires i <= j <= hours && row in ProjectStorage(requests, usages, base, hours, i, j)
    requires forall r :: kept(r) <==> ReadFor(base, i, j, row, r.time, r.labels)
    ensures SumOf(row.request, requests, kept, (r: Reading<PvcLabels>) => r.amount)
  {
    hide ProjectStorage, ReportTotal;
    var q := (p: string, c: string) => p == row.project && c == row.storageClass;
    var mine, amount := (labels: PvcLabels) => Mine(q, labels), (r: Reading<PvcLabels>) => r.amount;
    var h := (r: Reading<PvcLabels>) =>
      if HourStart(base, i) <= r.time < HourStart(base, j) && mine(r.labels) then r.amount else 0.0;
    RequestRead(requests, usages, base, hours, i, j, row);
    RowTotal(requests, usages, base, hours, i, j, row, q);
    RequestTotal(requests, usages, base, hours, i, j, q);
    InPeriodSum(requests, base, i, j, (labels: PvcLabels) => Mine(q, labels), amount, h);
    SumOfCell(row.request, requests, kept, amount, h);
  }

  lemma UsageOfReadings(requests: PvcReadings, usages: PvcReadings, base: int, hours: nat, i: nat, j: nat,
                        row: StorageRow, kept: Reading<PvcLabels> -> bool)
    requires i <= j <= hours && row in ProjectStorage(requests, usages, base, hours, i, j)
    requires forall r :: kept(r) <==> UsageReadFor(requests, base, i, j, row, r)
    ensures SumOf(row.usage, usages, kept, (r: Reading<PvcLabels>) => r.amount)
  {
    hide ProjectStorage, ReportTotal, Claimed;
    var q := (p: string, c: string) => p == row.project && c == row.storageClass;
    var mine := (labels: PvcLabels) => Mine(q, labels);
    var x := (r: Reading<PvcLabels>) => ClaimedAmount(requests, base, r);
    var h := (r: Reading<PvcLabels>) =>
      if HourStart(base, i) <= r.time < HourStart(base, j) && mine(r.labels) then x(r) else 0.0;
    UsageNull(requests, usages, base, hours, i, j, row);
    RowTotal(requests, usages, base, hours, i, j, row, q);
    UsageTotal(requests, usages, base, hours, i, j, q);
    InPeriodSum(usages, base, i, j, (labels: PvcLabels) => Mine(q, labels), x, h);
    SumOfCell(row.usage, usages, kept, (r: Reading<PvcLabels>) => r.amount, h);
  }

  /******* The report from the samples *******/

  /** A sample with the four labels that the request query requires; it lets a missing volume name through. */
  predicate Labelled(s: Sample) {
    "persistentvolumeclaim" in s.labels && "namespace" in s.labels && "storageclass" in s.labels
    && "label_field_cattle_io_projectId" in s.labels
  }

  /** A sample of the period for a row's project and storage class. */
  predicate InRow(base: int, i: nat, j: nat, project: string, storageClass: string, s: Sample) {
    base + 3600 * i <= s.time < base + 3600 * j && Labelled(s)
    && s.labels["label_field_cattle_io_projectId"] == project && s.labels["storageclass"] == storageClass
  }

  /** Two samples of one claim, volume, namespace, class and project in one hour. */
  predicate SameClaim(base: int, s: Sample, t: Sample) {
    && Labelled(s) && Labelled(t) && "volumename" in s.labels && "volumename" in t.labels
    && s.labels["persistentvolumeclaim"] == t.labels["persistentvolumeclaim"]
    && s.labels["volumename"] == t.labels["volumename"] && s.labels["namespace"] == t.labels["namespace"]
    && s.labels["storageclass"] == t.labels["storageclass"]
    && s.labels["label_field_cattle_io_projectId"] == t.labels["label_field_cattle_io_projectId"]
    && (s.time - base) / 3600 == (t.time - base) / 3600
  }

  /** What counts towards the usage of a row: samples whose claim and volume had a request in the same hour. */
  ghost predicate UsageBilled(requests: seq<Sample>, base: int, i: nat, j: nat, row: StorageRow, s: Sample) {
    InRow(base, i, j, row.project, row.storageClass, s) && exists t | t in requests :: SameClaim(base, s, t)
  }

  function Requests(samples: seq<Sample>): PvcReadings {
    Read(samples, SelectRequest, GIB)
  }

  function Usages(samples: seq<Sample>): PvcReadings {
    Read(samples, SelectUsage, GIB)
  }

  function Report(requests: seq<Sample>, usages: seq<Sample>, base: int, hours: nat, i: nat, j: nat): seq<StorageRow> {
    ProjectStorage(Requests(requests), Usages(usages), base, hours, i, j)
  }

  lemma SampleReadFor(base: int, i: nat, j: nat, row: StorageRow, s: Sample)
    ensures SelectRequest(s).Some? && ReadFor(base, i, j, row, s.time, SelectRequest(s).value)
       <==> InRow(base, i, j, row.project, row.storageClass, s)
  {
  }

  lemma SelectedClaim(base: int, s: Sample, t: Sample)
    ensures SameClaim(base, s, t)
       <==> SelectUsage(s).Some? && SelectRequest(t) == SelectUsage(s)
            && HourOf(base, s.time) <= t.time < HourOf(base, s.time) + 3600
  {
  }

  lemma ClaimedSample(requests: seq<Sample>, base: int, s: Sample)
    ensures SelectUsage(s).Some? && Claimed(Requests(requests), HourOf(base, s.time), SelectUsage(s).value)
       <==> exists t | t in requests :: SameClaim(base, s, t)
  {
    hide SelectUsage, SelectRequest, HourOf, Read, SameClaim;
    var raw, start := Requests(requests), HourOf(base, s.time);
    UsageSelected(s);
    if SelectUsage(s).Some? && Claimed(raw, start, SelectUsage(s).value) {
      var r :| r in raw && start <= r.time < start + 3600 && r.labels == SelectUsage(s).value;
      ReadFrom(requests, SelectRequest, GIB, r);
      var t :| t in requests && ReadAs(t, SelectRequest, GIB, r);
      SelectedClaim(base, s, t);
    }
    if t :| t in requests && SameClaim(base, s, t) {
      SelectedClaim(base, s, t);
      var r := Reading(t.time, SelectUsage(s).value, t.amount * t.precision / GIB);
      assert ReadAs(t, SelectRequest, GIB, r);
      ReadFrom(requests, SelectRequest, GIB, r);
    }
  }

  lemma UsageSelected(s: Sample)
    ensures SelectUsage(s).Some? ==> SelectUsage(s).value.volume.Some? && SelectRequest(s) == SelectUsage(s)
  {
  }

  lemma SampleBilled(requests: seq<Sample>, base: int, i: nat, j: nat, row: StorageRow, s: Sample, amount: real)
    ensures UsageBilled(requests, base, i, j, row, s)
       <==> SelectUsage(s).Some?
            && UsageReadFor(Requests(requests), base, i, j, row, Reading(s.time, SelectUsage(s).value, amount))
  {
    hide SelectUsage, SelectRequest, ReadFor, InRow, Claimed, SameClaim, Requests, HourOf;
    ClaimedSample(requests, base, s);
    UsageSelected(s);
    SampleReadFor(base, i, j, row, s);
  }

  /** Any two rows of the report differ in project or storage class. */
  lemma RowsDiffer(requests: seq<Sample>, usages: seq<Sample>, base: int, hours: nat, i: nat, j: nat)
    ensures var report := Report(requests, usages, base, hours, i, j);
            forall a, b | 0 <= a < b < |report| ::
              report[a].project != report[b].project || report[a].storageClass != report[b].storageClass
  {
    OneRowPerPair(PvcHourly(Requests(requests), Usages(usages), base, hours), HourStart(base, i), HourStart(base, j));
  }

  /** There is a row for a project and a storage class exactly if the period has a request sample of theirs. */
  lemma RowsListed(requests: seq<Sample>, usages: seq<Sample>, base: int, hours: nat, i: nat, j: nat,
                   project: string, storageClass: string)
    requires i <= j <= hours
    ensures (exists row | row in Report(requests, usages, base, hours, i, j) ::
               row.project == project && row.storageClass == storageClass)
       <==> exists s | s in requests :: InRow(base, i, j, project, storageClass, s)
  {
    hide ProjectStorage, SelectRequest, Read, InRow, HourOf;
    var raw := Requests(requests);
    var row := StorageRow(0, 0, storageClass, project, None, None);
    ReportListed(raw, Usages(usages), base, hours, i, j, project, storageClass);
    if r :| r in raw && ReadFor(base, i, j, row, r.time, r.labels) {
      ReadFrom(requests, SelectRequest, GIB, r);
      var s :| s in requests && ReadAs(s, SelectRequest, GIB, r);
      SampleReadFor(base, i, j, row, s);
    }
    if s :| s in requests && InRow(base, i, j, project, storageClass, s) {
      SampleReadFor(base, i, j, row, s);
      var r := Reading(s.time, SelectRequest(s).value, s.amount * s.precision / GIB);
      assert ReadAs(s, SelectRequest, GIB, r);
      ReadFrom(requests, SelectRequest, GIB, r);
    }
  }

  /** A row of the report is for its period, and its request in GiB is the sum of its request samples. */
  lemma RowRequest(requests: seq<Sample>, usages: seq<Sample>, base: int, hours: nat, i: nat, j: nat, row: StorageRow)
    requires i <= j <= hours && row in Report(requests, usages, base, hours, i, j)
    ensures row.start == base + 3600 * i && row.end == base + 3600 * j && row.request.Some?
    ensures SumOf(row.request, requests, (s: Sample) => InRow(base, i, j, row.project, row.storageClass, s),
                  (s: Sample) => s.amount * s.precision / 1073741824.0)
  {
    hide SumOf, ProjectStorage, SelectRequest, ReadFor, InRow;
    var kept := (r: Reading<PvcLabels>) => ReadFor(base, i, j, row, r.time, r.labels);
    var counts := (s: Sample) => InRow(base, i, j, row.project, row.storageClass, s);
    var value := (s: Sample) => s.amount * s.precision / 1073741824.0;
    RequestRead(Requests(requests), Usages(usages), base, hours, i, j, row);
    RequestOfReadings(Requests(requests), Usages(usages), base, hours, i, j, row, kept);
    forall s | s in requests
      ensures counts(s) <==> SelectRequest(s).Some? && kept(Reading(s.time, SelectRequest(s).value, value(s)))
    {
      SampleReadFor(base, i, j, row, s);
    }
    SumOfSamples(row.request, requests, SelectRequest, GIB, kept, counts, value);
  }

  /** Its usage in GiB is the sum of the usage samples whose claim and volume had a request in the same hour, and NULL
      without any. */
  lemma RowUsage(requests: seq<Sample>, usages: seq<Sample>, base: int, hours: nat, i: nat, j: nat, row: StorageRow)
    requires i <= j <= hours && row in Report(requests, usages, base, hours, i, j)
    ensures SumOf(row.usage, usages, (s: Sample) => UsageBilled(requests, base, i, j, row, s),
                  (s: Sample) => s.amount * s.precision / 1073741824.0)
  {
    hide SumOf, ProjectStorage, SelectUsage, UsageReadFor, UsageBilled, Requests;
    var kept := (r: Reading<PvcLabels>) => UsageReadFor(Requests(requests), base, i, j, row, r);
    var counts := (s: Sample) => UsageBilled(requests, base, i, j, row, s);
    var value := (s: Sample) => s.amount * s.precision / 1073741824.0;
    UsageOfReadings(Requests(requests), Usages(usages), base, hours, i, j, row, kept);
    forall s | s in usages
      ensures counts(s) <==> SelectUsage(s).Some? && kept(Reading(s.time, SelectUsage(s).value, value(s)))
    {
      SampleBilled(requests, base, i, j, row, s, value(s));
    }
    SumOfSamples(row.usage, usages, SelectUsage, GIB, kept, counts, value);
  }
}
