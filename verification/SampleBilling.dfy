/** The project report from the raw samples, read off their labels. */
module SampleBilling {
  import opened Wrappers
  import opened Sums
  import opened Reports
  import opened PodReport
  import opened PodTotals
  import opened ReportRows

  /** A sample with the four labels that every pod query groups by. */
  predicate Labelled(s: Sample) {
    "pod" in s.labels && "node" in s.labels && "namespace" in s.labels && "label_field_cattle_io_projectId" in s.labels
  }

  /** Two samples of one pod in one hour. */
  predicate Together(base: int, s: Sample, t: Sample) {
    && Labelled(s) && Labelled(t)
    && s.labels["pod"] == t.labels["pod"] && s.labels["node"] == t.labels["node"]
    && s.labels["namespace"] == t.labels["namespace"]
    && s.labels["label_field_cattle_io_projectId"] == t.labels["label_field_cattle_io_projectId"]
    && (s.time - base) / 3600 == (t.time - base) / 3600
  }

  /** Whether a sample's pod requested CPU in its hour. */
  ghost predicate CpuRequested(m: Metrics, base: int, s: Sample) {
    exists t | t in m.cpuRequest :: Together(base, s, t)
  }

  /** Whether it requested the accelerator in its hour. */
  ghost predicate Uses(m: Metrics, base: int, s: Sample, gpu: string) {
    exists t | t in m.gpuRequest ::
      Together(base, s, t) && "label_accelerator" in t.labels && t.labels["label_accelerator"] == gpu
  }

  /** Whether it is in the group of an accelerator, or of pods without one. */
  ghost predicate InGroup(m: Metrics, base: int, s: Sample, gpu: Option<string>) {
    match gpu
    case Some(a) => Uses(m, base, s, a)
    case None => forall a :: !Uses(m, base, s, a)
  }

  /** A project's sample of the period from hour `i` to hour `j`. */
  predicate OfProject(base: int, i: nat, j: nat, project: string, s: Sample) {
    base + 3600 * i <= s.time < base + 3600 * j
    && Labelled(s) && s.labels["label_field_cattle_io_projectId"] == project
  }

  /******* Samples and readings *******/

  lemma Selected(s: Sample)
    ensures SelectPod(s).Some? <==> Labelled(s)
    ensures Labelled(s) ==> SelectPod(s).value.project == s.labels["label_field_cattle_io_projectId"]
  {
  }

  lemma SelectedTogether(base: int, s: Sample, t: Sample)
    ensures Together(base, s, t)
       <==> SelectPod(s).Some? && SelectPod(t) == SelectPod(s)
            && HourOf(base, s.time) <= t.time < HourOf(base, s.time) + 3600
  {
  }

  lemma RequestedSample(m: Metrics, base: int, s: Sample)
    requires Labelled(s)
    ensures Requested(ReadMetrics(m), HourOf(base, s.time), SelectPod(s).value) <==> CpuRequested(m, base, s)
  {
    hide SelectPod, HourOf, Read;
    Selected(s);
    var raw, start, labels := ReadMetrics(m), HourOf(base, s.time), SelectPod(s).value;
    if r :| r in raw.cpuRequest && start <= r.time < start + 3600 && r.labels == labels {
      ReadFrom(m.cpuRequest, SelectPod, 1.0, r);
      var t :| t in m.cpuRequest && ReadAs(t, SelectPod, 1.0, r);
      SelectedTogether(base, s, t);
    }
    if t :| t in m.cpuRequest && Together(base, s, t) {
      SelectedTogether(base, s, t);
      var r := Reading(t.time, labels, t.amount * t.precision / 1.0);
      assert ReadAs(t, SelectPod, 1.0, r);
      ReadFrom(m.cpuRequest, SelectPod, 1.0, r);
    }
  }

  lemma SelectedGpu(s: Sample)
    ensures SelectGpu(s).Some? <==> SelectPod(s).Some? && "label_accelerator" in s.labels
    ensures SelectGpu(s).Some? ==> SelectGpu(s).value == GpuLabels(SelectPod(s).value, s.labels["label_accelerator"])
  {
  }

  lemma UsedSample(m: Metrics, base: int, s: Sample, gpu: string)
    requires Labelled(s)
    ensures gpu in Accelerators(ReadMetrics(m), HourOf(base, s.time), SelectPod(s).value) <==> Uses(m, base, s, gpu)
  {
    hide SelectPod, SelectGpu, HourOf, Read;
    Selected(s);
    var raw, start, labels := ReadMetrics(m), HourOf(base, s.time), SelectPod(s).value;
    if r :| r in raw.gpuRequest && start <= r.time < start + 3600 && r.labels == GpuLabels(labels, gpu) {
      ReadFrom(m.gpuRequest, SelectGpu, 1.0, r);
      var t :| t in m.gpuRequest && ReadAs(t, SelectGpu, 1.0, r);
      SelectedGpu(t);
      SelectedTogether(base, s, t);
    }
    if t :| t in m.gpuRequest && Together(base, s, t) && "label_accelerator" in t.labels
            && t.labels["label_accelerator"] == gpu {
      SelectedGpu(t);
      SelectedTogether(base, s, t);
      var r := Reading(t.time, GpuLabels(labels, gpu), t.amount * t.precision / 1.0);
      assert ReadAs(t, SelectGpu, 1.0, r);
      ReadFrom(m.gpuRequest, SelectGpu, 1.0, r);
    }
  }

  lemma GroupSample(m: Metrics, base: int, s: Sample, gpu: Option<string>)
    requires Labelled(s)
    ensures gpu in GpuCells(ReadMetrics(m), HourOf(base, s.time), SelectPod(s).value) <==> InGroup(m, base, s, gpu)
  {
    hide SelectPod, HourOf, ReadMetrics, Accelerators, Uses;
    Selected(s);
    forall a ensures a in Accelerators(ReadMetrics(m), HourOf(base, s.time), SelectPod(s).value)
                <==> Uses(m, base, s, a)
    {
      UsedSample(m, base, s, a);
    }
  }

  lemma SampleReadFor(m: Metrics, base: int, i: nat, j: nat, row: ProjectRow, s: Sample)
    ensures SelectPod(s).Some? && ReadFor(ReadMetrics(m), base, i, j, row, s.time, SelectPod(s).value)
       <==> OfProject(base, i, j, row.project, s) && InGroup(m, base, s, row.gpu)
  {
    hide SelectPod, ReadMetrics, GpuCells, InGroup, HourOf;
    Selected(s);
    if Labelled(s) {
      GroupSample(m, base, s, row.gpu);
    }
  }

  /******* The report *******/

  /** Any two rows of the report differ in project or accelerator. */
  lemma RowsDiffer(m: Metrics, base: int, hours: nat, i: nat, j: nat)
    ensures var report := ProjectReport(ReadMetrics(m), base, hours, i, j);
            forall a, b | 0 <= a < b < |report| ::
              report[a].project != report[b].project || report[a].gpu != report[b].gpu
  {
    OneRowPerPair(PodHourly(ReadMetrics(m), base, hours), HourStart(base, i), HourStart(base, j));
  }

  /** There is a row for a project and an accelerator, or none, exactly if the project has a CPU request sample of the
      period by a pod with that accelerator, or none, in that hour. */
  lemma RowsListed(m: Metrics, base: int, hours: nat, i: nat, j: nat, project: string, gpu: Option<string>)
    requires i <= j <= hours
    ensures (exists row | row in ProjectReport(ReadMetrics(m), base, hours, i, j) ::
               row.project == project && row.gpu == gpu)
       <==> exists s | s in m.cpuRequest :: OfProject(base, i, j, project, s) && InGroup(m, base, s, gpu)
  {
    hide ProjectReport, SelectPod, GpuCells, InGroup, HourOf, Read;
    var raw := ReadMetrics(m);
    var row := ProjectRow(0, 0, project, None, None, None, None, gpu, None);
    ReportListed(raw, base, hours, i, j, project, gpu);
    if r :| r in raw.cpuRequest && ReadFor(raw, base, i, j, row, r.time, r.labels) {
      ReadFrom(m.cpuRequest, SelectPod, 1.0, r);
      var s :| s in m.cpuRequest && ReadAs(s, SelectPod, 1.0, r);
      SampleReadFor(m, base, i, j, row, s);
    }
    if s :| s in m.cpuRequest && OfProject(base, i, j, project, s) && InGroup(m, base, s, gpu) {
      SampleReadFor(m, base, i, j, row, s);
      var r := Reading(s.time, SelectPod(s).value, s.amount * s.precision / 1.0);
      assert ReadAs(s, SelectPod, 1.0, r);
      ReadFrom(m.cpuRequest, SelectPod, 1.0, r);
    }
  }

  /** A row of the report is for its period, and its CPU request is the sum of its project's samples by pods with its
      accelerator. */
  lemma RowCpuRequest(m: Metrics, base: int, hours: nat, i: nat, j: nat, row: ProjectRow)
    requires i <= j <= hours && row in ProjectReport(ReadMetrics(m), base, hours, i, j)
    ensures row.start == base + 3600 * i && row.end == base + 3600 * j && row.cpuRequest.Some?
    ensures SumOf(row.cpuRequest, m.cpuRequest,
                  (s: Sample) => OfProject(base, i, j, row.project, s) && InGroup(m, base, s, row.gpu),
                  (s: Sample) => s.amount * s.precision)
  {
    hide SumOf, ProjectReport, ReadFor, InGroup, GpuCells, SelectPod, OfProject;
    var raw := ReadMetrics(m);
    var kept := (r: Reading<PodLabels>) => ReadFor(raw, base, i, j, row, r.time, r.labels);
    RowPeriod(raw, base, hours, i, j, row);
    CpuRequestNull(raw, base, hours, i, j, row);
    CpuRequestCell(raw, base, hours, i, j, row);
    CpuRequestRead(raw, base, hours, i, j, row);
    SumOfCell(row.cpuRequest, raw.cpuRequest, kept, (r: Reading<PodLabels>) => r.amount,
              (r: Reading<PodLabels>) => if ReadFor(raw, base, i, j, row, r.time, r.labels) then r.amount else 0.0);
    var counts := (s: Sample) => OfProject(base, i, j, row.project, s) && InGroup(m, base, s, row.gpu);
    var value := (s: Sample) => s.amount * s.precision;
    forall s | s in m.cpuRequest
      ensures counts(s) <==> SelectPod(s).Some? && kept(Reading(s.time, SelectPod(s).value, value(s)))
    {
      SampleReadFor(m, base, i, j, row, s);
    }
    SumOfSamples(row.cpuRequest, m.cpuRequest, SelectPod, 1.0, kept, counts, value);
  }

  /** What counts towards the other columns of a row: samples whose pods also requested CPU in that hour. */
  ghost predicate Billed(m: Metrics, base: int, i: nat, j: nat, row: ProjectRow, s: Sample) {
    OfProject(base, i, j, row.project, s) && InGroup(m, base, s, row.gpu) && CpuRequested(m, base, s)
  }

  ghost predicate ReadingBilled(raw: Readings, base: int, i: nat, j: nat, row: ProjectRow, r: Reading<PodLabels>) {
    ReadFor(raw, base, i, j, row, r.time, r.labels) && Requested(raw, HourOf(base, r.time), r.labels)
  }

  lemma SampleBilled(m: Metrics, base: int, i: nat, j: nat, row: ProjectRow, s: Sample, amount: real)
    ensures Billed(m, base, i, j, row, s)
       <==> SelectPod(s).Some?
            && ReadingBilled(ReadMetrics(m), base, i, j, row, Reading(s.time, SelectPod(s).value, amount))
  {
    hide SelectPod, ReadFor, InGroup, Requested, CpuRequested, HourOf, ReadMetrics;
    Selected(s);
    SampleReadFor(m, base, i, j, row, s);
    if Labelled(s) {
      RequestedSample(m, base, s);
    }
  }

  /** The samples behind a column that is joined on the right. */
  lemma RowJoined(m: Metrics, base: int, hours: nat, i: nat, j: nat, row: ProjectRow, col: Column,
                  samples: seq<Sample>, scale: real)
    requires i <= j <= hours && row in ProjectReport(ReadMetrics(m), base, hours, i, j) && scale > 0.0
    requires col.CpuUsage? || col.MemoryRequest? || col.MemoryUsage?
    requires JoinedMetric(ReadMetrics(m), col) == Read(samples, SelectPod, scale)
    ensures SumOf(ProjectCell(row, col), samples, (s: Sample) => Billed(m, base, i, j, row, s),
                  (s: Sample) => s.amount * s.precision / scale)
  {
    hide SumOf, ProjectReport, ReadFor, InGroup, GpuCells, SelectPod, Requested, ProjectCell, JoinedMetric, ReadMetrics,
         Billed;
    var raw := ReadMetrics(m);
    var metric, x := JoinedMetric(raw, col), ProjectCell(row, col);
    var kept := (r: Reading<PodLabels>) => ReadingBilled(raw, base, i, j, row, r);
    JoinedNull(raw, base, hours, i, j, row, col);
    JoinedCell(raw, base, hours, i, j, row, col);
    SumOfCell(x, metric, kept, (r: Reading<PodLabels>) => r.amount,
              (r: Reading<PodLabels>) =>
                if ReadFor(raw, base, i, j, row, r.time, r.labels) && Requested(raw, HourOf(base, r.time), r.labels)
                then r.amount else 0.0);
    var counts := (s: Sample) => Billed(m, base, i, j, row, s);
    var value := (s: Sample) => s.amount * s.precision / scale;
    forall s | s in samples
      ensures counts(s) <==> SelectPod(s).Some? && kept(Reading(s.time, SelectPod(s).value, value(s)))
    {
      SampleBilled(m, base, i, j, row, s, value(s));
    }
    SumOfSamples(x, samples, SelectPod, scale, kept, counts, value);
  }

  lemma JoinedSamples(m: Metrics)
    ensures JoinedMetric(ReadMetrics(m), CpuUsage) == Read(m.cpuUsage, SelectPod, 1.0)
    ensures JoinedMetric(ReadMetrics(m), MemoryRequest) == Read(m.memoryRequest, SelectPod, 1073741824.0)
    ensures JoinedMetric(ReadMetrics(m), MemoryUsage) == Read(m.memoryUsage, SelectPod, 1073741824.0)
  {
  }

  /** Its CPU usage, and its memory in GiB, add up the samples of pods that requested CPU in the same hour; a column
      without such samples is NULL. */
  lemma RowUsage(m: Metrics, base: int, hours: nat, i: nat, j: nat, row: ProjectRow)
    requires i <= j <= hours && row in ProjectReport(ReadMetrics(m), base, hours, i, j)
    ensures SumOf(row.cpuUsage, m.cpuUsage, (s: Sample) => Billed(m, base, i, j, row, s),
                  (s: Sample) => s.amount * s.precision / 1.0)
    ensures SumOf(row.memoryRequest, m.memoryRequest, (s: Sample) => Billed(m, base, i, j, row, s),
                  (s: Sample) => s.amount * s.precision / 1073741824.0)
    ensures SumOf(row.memoryUsage, m.memoryUsage, (s: Sample) => Billed(m, base, i, j, row, s),
                  (s: Sample) => s.amount * s.precision / 1073741824.0)
  {
    hide SumOf, ProjectReport, ReadMetrics, Billed, JoinedMetric;
    JoinedSamples(m);
    RowJoined(m, base, hours, i, j, row, CpuUsage, m.cpuUsage, 1.0);
    RowJoined(m, base, hours, i, j, row, MemoryRequest, m.memoryRequest, 1073741824.0);
    RowJoined(m, base, hours, i, j, row, MemoryUsage, m.memoryUsage, 1073741824.0);
  }

  /** What counts towards the accelerator request of a row: samples that name its accelerator. */
  ghost predicate GpuBilled(m: Metrics, base: int, i: nat, j: nat, row: ProjectRow, s: Sample) {
    && OfProject(base, i, j, row.project, s) && CpuRequested(m, base, s)
    && "label_accelerator" in s.labels && row.gpu == Some(s.labels["label_accelerator"])
  }

  lemma SampleGpuBilled(m: Metrics, base: int, i: nat, j: nat, row: ProjectRow, s: Sample, amount: real)
    ensures GpuBilled(m, base, i, j, row, s)
       <==> SelectGpu(s).Some?
            && GpuReadFor(ReadMetrics(m), base, i, j, row, Reading(s.time, SelectGpu(s).value, amount))
  {
    hide SelectPod, SelectGpu, Requested, CpuRequested, HourOf, ReadMetrics;
    Selected(s);
    SelectedGpu(s);
    if Labelled(s) {
      RequestedSample(m, base, s);
    }
  }

  /** Its accelerator request adds up the samples of its accelerator by pods that requested CPU in the same hour. */
  lemma RowGpuRequest(m: Metrics, base: int, hours: nat, i: nat, j: nat, row: ProjectRow)
    requires i <= j <= hours && row in ProjectReport(ReadMetrics(m), base, hours, i, j)
    ensures SumOf(row.gpuRequest, m.gpuRequest, (s: Sample) => GpuBilled(m, base, i, j, row, s),
                  (s: Sample) => s.amount * s.precision)
  {
    hide SumOf, ProjectReport, SelectGpu, Requested, GpuBilled, GpuReadFor;
    var raw := ReadMetrics(m);
    var kept := (r: Reading<GpuLabels>) => GpuReadFor(raw, base, i, j, row, r);
    GpuRequestNull(raw, base, hours, i, j, row);
    GpuRequestCell(raw, base, hours, i, j, row);
    SumOfCell(row.gpuRequest, raw.gpuRequest, kept, (r: Reading<GpuLabels>) => r.amount,
              (r: Reading<GpuLabels>) => if GpuReadFor(raw, base, i, j, row, r) then r.amount else 0.0);
    var counts := (s: Sample) => GpuBilled(m, base, i, j, row, s);
    var value := (s: Sample) => s.amount * s.precision;
    forall s | s in m.gpuRequest
      ensures counts(s) <==> SelectGpu(s).Some? && kept(Reading(s.time, SelectGpu(s).value, value(s)))
    {
      SampleGpuBilled(m, base, i, j, row, s, value(s));
    }
    SumOfSamples(row.gpuRequest, m.gpuRequest, SelectGpu, 1.0, kept, counts, value);
  }
}
