/** The CPU, memory and accelerator reports: four hourly tables LEFT JOINed to the hourly CPU requests,
    and the roll-up of the joined rows by project and accelerator. */
module PodReport {
  import opened Wrappers
  import opened Sums
  import opened Reports

  /******* First level: one table per metric *******/

  datatype PodLabels = PodLabels(pod: string, node: string, namespace: string, project: string)

  datatype GpuLabels = GpuLabels(pod: PodLabels, gpu: string)

  const PROJECT_LABEL := "label_field_cattle_io_projectId"

  function SelectPod(s: Sample): Option<PodLabels> {
    if "pod" in s.labels && "node" in s.labels && "namespace" in s.labels && PROJECT_LABEL in s.labels
    then Some(PodLabels(s.labels["pod"], s.labels["node"], s.labels["namespace"], s.labels[PROJECT_LABEL]))
    else None
  }

  function SelectGpu(s: Sample): Option<GpuLabels> {
    var pod := SelectPod(s);
    if pod.Some? && "label_accelerator" in s.labels
    then Some(GpuLabels(pod.value, s.labels["label_accelerator"]))
    else None
  }

  datatype Metrics = Metrics(cpuRequest: seq<Sample>, cpuUsage: seq<Sample>,
                             memoryRequest: seq<Sample>, memoryUsage: seq<Sample>, gpuRequest: seq<Sample>)

  datatype Readings = Readings(cpuRequest: seq<Reading<PodLabels>>, cpuUsage: seq<Reading<PodLabels>>,
                               memoryRequest: seq<Reading<PodLabels>>, memoryUsage: seq<Reading<PodLabels>>,
                               gpuRequest: seq<Reading<GpuLabels>>)

  function ReadMetrics(m: Metrics): Readings {
    Readings(Read(m.cpuRequest, SelectPod, 1.0), Read(m.cpuUsage, SelectPod, 1.0),
             Read(m.memoryRequest, SelectPod, GIB), Read(m.memoryUsage, SelectPod, GIB),
             Read(m.gpuRequest, SelectGpu, 1.0))
  }

  /******* Second level: the four-way join *******/

  datatype PodRow = PodRow(start: int, end: int, labels: PodLabels,
                           cpuRequest: Option<real>, cpuUsage: Option<real>,
                           memoryRequest: Option<real>, memoryUsage: Option<real>,
                           gpu: Option<string>, gpuRequest: Option<real>)

  datatype Column = CpuRequest | CpuUsage | MemoryRequest | MemoryUsage | GpuRequest

  function OrZero(x: Option<real>): real {
    if x.Some? then x.value else 0.0
  }

  function Cell(row: PodRow, col: Column): Option<real> {
    match col
    case CpuRequest => row.cpuRequest
    case CpuUsage => row.cpuUsage
    case MemoryRequest => row.memoryRequest
    case MemoryUsage => row.memoryUsage
    case GpuRequest => row.gpuRequest
  }

  function PodKey(row: PodRow): (int, int, PodLabels) {
    (row.start, row.end, row.labels)
  }

  function SameKey(l: PodRow, r: HourRow<PodLabels>): bool {
    PodKey(l) == KeyOf(r)
  }

  function SamePod(l: PodRow, r: HourRow<GpuLabels>): bool {
    PodKey(l) == (r.start, r.end, r.labels.pod)
  }

  function Amount<L>(r: Option<HourRow<L>>): Option<real> {
    if r.Some? then Some(r.value.amount) else None
  }

  function Requesting(r: HourRow<PodLabels>): PodRow {
    PodRow(r.start, r.end, r.labels, Some(r.amount), None, None, None, None, None)
  }

  function WithCpuUsage(l: PodRow, r: Option<HourRow<PodLabels>>): PodRow {
    l.(cpuUsage := Amount(r))
  }

  function WithMemoryRequest(l: PodRow, r: Option<HourRow<PodLabels>>): PodRow {
    l.(memoryRequest := Amount(r))
  }

  function WithMemoryUsage(l: PodRow, r: Option<HourRow<PodLabels>>): PodRow {
    l.(memoryUsage := Amount(r))
  }

  function WithGpu(l: PodRow, r: Option<HourRow<GpuLabels>>): PodRow {
    l.(gpu := if r.Some? then Some(r.value.labels.gpu) else None, gpuRequest := Amount(r))
  }

  function RequestRows(raw: Readings, base: int, hours: nat): seq<PodRow> {
    Map(HourlyReport(raw.cpuRequest, base, hours), Requesting)
  }

  function CpuRows(raw: Readings, base: int, hours: nat): seq<PodRow> {
    LeftJoin(RequestRows(raw, base, hours), HourlyReport(raw.cpuUsage, base, hours), SameKey, WithCpuUsage)
  }

  function MemoryRequestRows(raw: Readings, base: int, hours: nat): seq<PodRow> {
    LeftJoin(CpuRows(raw, base, hours), HourlyReport(raw.memoryRequest, base, hours), SameKey, WithMemoryRequest)
  }

  function MemoryRows(raw: Readings, base: int, hours: nat): seq<PodRow> {
    LeftJoin(MemoryRequestRows(raw, base, hours), HourlyReport(raw.memoryUsage, base, hours), SameKey, WithMemoryUsage)
  }

  function JoinedRows(raw: Readings, base: int, hours: nat): seq<PodRow> {
    LeftJoin(MemoryRows(raw, base, hours), HourlyReport(raw.gpuRequest, base, hours), SamePod, WithGpu)
  }

  function PodStart(row: PodRow): int {
    row.start
  }

  /** The joined report table once all of its hours have run. */
  function PodHourly(raw: Readings, base: int, hours: nat): seq<PodRow> {
    ByHours(JoinedRows(raw, base, hours), PodStart, base, hours)
  }

  /******* Third level: by project and accelerator *******/

  datatype ProjectRow = ProjectRow(start: int, end: int, project: string,
                                   cpuRequest: Option<real>, cpuUsage: Option<real>,
                                   memoryRequest: Option<real>, memoryUsage: Option<real>,
                                   gpu: Option<string>, gpuRequest: Option<real>)

  /** SQL's `sum`: NULLs are ignored, and a column of NULLs sums to NULL. */
  function NullSum(rows: seq<PodRow>, col: Column): Option<real> {
    if exists row | row in rows :: Cell(row, col).Some?
    then Some(Sum(rows, (row: PodRow) => OrZero(Cell(row, col))))
    else None
  }

  function Roll(start: int, end: int, g: Group<(string, Option<string>), PodRow>): ProjectRow {
    ProjectRow(start, end, g.key.0, NullSum(g.rows, CpuRequest), NullSum(g.rows, CpuUsage),
               NullSum(g.rows, MemoryRequest), NullSum(g.rows, MemoryUsage), g.key.1, NullSum(g.rows, GpuRequest))
  }

  function ProjectAndGpu(row: PodRow): (string, Option<string>) {
    (row.labels.project, row.gpu)
  }

  function ByProject(rows: seq<PodRow>, start: int, end: int): seq<ProjectRow> {
    Map(GroupBy(Filter(rows, (row: PodRow) => start <= row.start && row.end <= end), ProjectAndGpu),
        (g: Group<(string, Option<string>), PodRow>) => Roll(start, end, g))
  }

  /** The report from hour `i` to hour `j`. */
  function ProjectReport(raw: Readings, base: int, hours: nat, i: nat, j: nat): seq<ProjectRow> {
    ByProject(PodHourly(raw, base, hours), HourStart(base, i), HourStart(base, j))
  }

  function ProjectCell(row: ProjectRow, col: Column): Option<real> {
    match col
    case CpuRequest => row.cpuRequest
    case CpuUsage => row.cpuUsage
    case MemoryRequest => row.memoryRequest
    case MemoryUsage => row.memoryUsage
    case GpuRequest => row.gpuRequest
  }
}
