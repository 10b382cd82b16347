# A verified model of a BalticLSC platform

The platform runs batches of modules on a Kubernetes cluster that Rancher manages. This project models, in Dafny, the
parts of it that carry state or arithmetic, and proves what they guarantee and exactly when they fail to.

- **Metering** (`Sums`, `Reports`, `PodReport`, `PodTotals`, `ProjectBilling`, `ReportRows`, `SampleBilling`,
  `StorageReport`, `StorageRows`). The SQL pipeline from raw samples to hourly tables, joined tables and reports per
  project, and what each cell of a report is in terms of the samples. Tables are bags held in sequences, amounts are
  exact reals, NULL is `None`, and LEFT JOIN keeps multiplicities.
- **Module lifecycle** (`ModuleLifecycle`, `ModuleProperties`, `ModuleIntegrity`, `ClusterProxy`, `QuotaFormat`,
  `Decimals`). The cluster proxy's calls as sequences of API calls, each of which the API server may reject.
- **Project resolver** (`Rancher`, `ProjectResolver`, `ResolverProperties`). A cache that is rebuilt by refreshes that
  may fail partway.
- **Project members** (`ProjectMembers`, `MemberProperties`). The reconciliation of role bindings with a desired list.
- **Chaos monkey** (`Boogeyman`, `BoogeymanRuns`). The master worker as a class, and the watchers, clients, worker and
  cluster as an interleaved state machine.
- **Admission** (`JsonPatch`, `Admission`, `PatchProperties`, `DocumentProperties`). The webhook's decisions and the
  JSON patches it emits, applied as sections 4 of RFC 6901 and 4.1 of RFC 6902 say, and both in terms of the document.
- **Ingress hosts** (`IngressHosts`). The Rego rule against a cached inventory.

Failures of remote calls are parameters: predicates or outcomes that say which calls fail. Random and map-order choices
are nondeterministic, so what is proved holds for all of them.

Where the code and its documentation differ, the model follows the code: namespaces are named after the project and the
batch (the documentation says `balticlsc-`), a module's volumes after the module (the documentation also shows
`volume-0` and `conf`), and the claim size, documented in GiB, is 1024 times the number in bytes, in 32 bits.

Some expected properties are false of the code. Each comes with the exact condition and with an input that fails:

- A project's CPU bill equals the raw total if and only if no pod with a *positive* request has two accelerators in the
  hour of that request (`CpuRequestExact`, `DoubleBillExample`).
- A project without members is given an owner when some binding has an empty user id (`FindSucceeds`,
  `GroupBindingExample`).
- A member update converges if and only if the desired members are well formed (`Converges`, `MalformedExample`). A
  call leads further from the goal exactly if the server stores a member as something not desired (`NeverFurther`), and
  outside the old and the desired members exactly if it stores one as something that is neither (`BetweenIff`).
- A pod's patch works if and only if each container that lacks a limit has a limits object and the names of the
  resources in question have no slash or tilde (`PatchWorksIff`, `NoLimitsExample`).
- A dispose that cannot delete the Deployment breaks references exactly if it deletes anything else
  (`DisposeKeepsHealthIff`, `RejectedDeletionExample`).
- The CPU quota is read back rounded up exactly below an overflow bound (`CpuRoundTrip`, `CpuOverflowExample`).
- Ingress hosts are unique throughout a run if and only if every request that has a live rival meets an inventory that
  lists a rival (`RunsUniqueIff`, `LaggingExample`).

## Model

| member | source | states |
|---|---|---|
| `Reports.GroupedSum` | resource-monitoring/operator-metering/report-queries/rise-pod-cpu-request-report-query.yaml:45-53 | GROUP BY loses and repeats nothing: the sums over the groups add up to the sum over the rows |
| `Reports.GroupsExactly` | resource-monitoring/operator-metering/report-queries/rise-by-project-cpu-mem-gpu-report-query.yaml:52 | there is one group for each key that occurs, holding all rows of that key |
| `Reports.HourlyConservation` | resource-monitoring/operator-metering/report-queries/rise-pod-cpu-request-report-query.yaml:47-53 | hourly half-open windows count every reading of the covered time exactly once, under any weight that depends on hour and labels |
| `Reports.HourlyKeyed` | resource-monitoring/operator-metering/report-queries/rise-pod-cpu-usage-report-query.yaml:38-53 | an hourly table has one row per window and label set, which is what makes the joins on those columns safe |
| `Reports.JoinLeftSum` | resource-monitoring/operator-metering/report-queries/rise-pod-cpu-mem-gpu-report-query.yaml:63-71 | LEFT JOIN repeats a left column once per match and keeps it once without a match |
| `Reports.JoinRightSum` | resource-monitoring/operator-metering/report-queries/rise-pod-cpu-mem-gpu-report-query.yaml:63-71 | LEFT JOIN counts a right column once per left row that matches it and drops rows that match none |
| `Reports.ByHoursSum` | resource-monitoring/operator-metering/report-queries/rise-pod-cpu-mem-gpu-report-query.yaml:72-73 | running the join hour by hour neither loses nor repeats rows |
| `PodTotals.StageKeys` | resource-monitoring/operator-metering/report-queries/rise-pod-cpu-mem-gpu-report-query.yaml:63-69 | the first three joins keep the CPU request rows one for one, key by key |
| `PodTotals.GpuMatches` | resource-monitoring/operator-metering/report-queries/rise-pod-gpu-request-report-query.yaml:38-55 | the extra grouping column gives a pod as many rows as it requested accelerators in the hour |
| `PodTotals.GpuFanOut` | resource-monitoring/operator-metering/report-queries/rise-pod-cpu-mem-gpu-report-query.yaml:70-71 | the accelerator join repeats every earlier column once for each accelerator of the pod in the hour that counts, and once without an accelerator for a pod that has none |
| `ProjectBilling.RollUp` | resource-monitoring/operator-metering/report-queries/rise-by-project-cpu-mem-gpu-report-query.yaml:39-52 | grouping by project and accelerator, with sums that ignore NULL, preserves each column's total over any choice of groups |
| `ProjectBilling.CpuRequestGroups` | resource-monitoring/operator-metering/report-queries/rise-by-project-cpu-mem-gpu-report-query.yaml:39-52 | whatever groups of project and accelerator are added up, a CPU request is billed once for each of them that its pod is in in that hour |
| `ProjectBilling.JoinedGroups` | resource-monitoring/operator-metering/report-queries/rise-pod-cpu-mem-gpu-report-query.yaml:64-71 | CPU usage and memory are billed in the same way where the pod requested CPU in the same hour |
| `ProjectBilling.GpuRequestGroups` | resource-monitoring/operator-metering/report-queries/rise-pod-cpu-mem-gpu-report-query.yaml:70-71 | an accelerator request is billed in the group of its accelerator alone, where the pod requested CPU in the same hour |
| `ReportRows.OneRowPerPair` | resource-monitoring/operator-metering/report-queries/rise-by-project-cpu-mem-gpu-report-query.yaml:52 | no two rows of the report are for the same project and accelerator |
| `ReportRows.PairListed` | resource-monitoring/operator-metering/report-queries/rise-by-project-cpu-mem-gpu-report-query.yaml:50-52 | there is a row for a project and an accelerator, or none, if and only if a joined row of the period has them |
| `ReportRows.RowExactly` | resource-monitoring/operator-metering/report-queries/rise-by-project-cpu-mem-gpu-report-query.yaml:40-49 | each cell is the SQL sum of its own column over the joined rows of the period with the row's project and accelerator, NULL if all of them are NULL |
| `ReportRows.JoinedRowListed` | resource-monitoring/operator-metering/report-queries/rise-pod-cpu-mem-gpu-report-query.yaml:63-71 | the joined table has a row for a pod, an hour and an accelerator if and only if the pod requested CPU and that accelerator in the hour; without an accelerator if it requested none |
| `SampleBilling.RowsListed` | resource-monitoring/operator-metering/report-queries/rise-by-project-cpu-mem-gpu-report-query.yaml:39-52 | from raw samples: the report has a row for a project and an accelerator, or none, if and only if a CPU request sample of the project in the period is by a pod that requested that accelerator, or none, in that hour |
| `SampleBilling.RowCpuRequest` | resource-monitoring/operator-metering/report-queries/rise-pod-cpu-request-report-query.yaml:38-53 | a row's CPU request is the sum of amount times precision over the project's samples by pods with its accelerator |
| `SampleBilling.RowUsage` | resource-monitoring/operator-metering/report-queries/rise-pod-memory-usage-report-query.yaml:38-53 | CPU usage, memory requests and memory usage, the latter two in GiB, are such sums over samples of pods that requested CPU in the same hour, and NULL without any |
| `SampleBilling.RowGpuRequest` | resource-monitoring/operator-metering/report-queries/rise-pod-gpu-request-report-query.yaml:38-55 | the accelerator request is the sum over the samples that name the row's accelerator, by pods that requested CPU in the same hour, and NULL without any |
| `ProjectBilling.CpuRequestTotal` | resource-monitoring/operator-metering/report-queries/rise-by-project-cpu-mem-gpu-report-query.yaml:39-52 | a project's CPU request over all accelerator groups is the sum of its readings of the period, each times max(1, accelerators) |
| `ProjectBilling.CpuRequestTotalByHour` | resource-monitoring/operator-metering/report-queries/rise-by-project-cpu-mem-gpu-report-query.yaml:39-52 | the same over the rows of the hourly request table |
| `ProjectBilling.CpuRequestExact` | resource-monitoring/operator-metering/report-queries/rise-by-project-cpu-mem-gpu-report-query.yaml:43-52 | for non-negative readings the bill is never below the raw total, and equals it if and only if every reading with a positive amount has at most one accelerator |
| `ProjectBilling.DoubleBillExample` | resource-monitoring/operator-metering/report-queries/rise-pod-cpu-mem-gpu-report-query.yaml:70-71 | one positive request by a pod with two accelerators is not billed its raw total |
| `ProjectBilling.ZeroRequestExample` | resource-monitoring/operator-metering/report-queries/rise-pod-gpu-request-report-query.yaml:55 | a pod with two accelerators and a request of zero is billed exactly, so the condition needs the positive amount |
| `ProjectBilling.CpuRequestOfSamples` | resource-monitoring/operator-metering/report-queries/rise-pod-cpu-request-report-query.yaml:45-53 | from raw samples to the bill: a project is billed exactly its samples of the period if and only if none of its pods with a positive request in the period has two accelerators in that hour |
| `ProjectBilling.JoinedTotal` | resource-monitoring/operator-metering/report-queries/rise-pod-cpu-mem-gpu-report-query.yaml:64-71 | CPU usage, memory requests and memory usage are billed where the pod requested CPU in the same hour, times max(1, accelerators) |
| `ProjectBilling.JoinedKept` | resource-monitoring/operator-metering/report-queries/rise-pod-cpu-mem-gpu-report-query.yaml:64-65 | with at most one accelerator such a column bills the raw readings restricted to keys that have a CPU request |
| `ProjectBilling.JoinedExact` | resource-monitoring/operator-metering/report-queries/rise-pod-cpu-mem-gpu-report-query.yaml:64-65 | that never exceeds the raw total, and is all of it if and only if no positive reading lacks a CPU request |
| `ProjectBilling.GpuRequestTotal` | resource-monitoring/operator-metering/report-queries/rise-pod-cpu-mem-gpu-report-query.yaml:70-71 | accelerator requests are billed once, where the pod requested CPU in the same hour |
| `ProjectBilling.AdjacentReports` | resource-monitoring/operator-metering/report-queries/rise-by-project-cpu-mem-gpu-report-query.yaml:50-51 | two reports of adjacent periods add up to the report of both |
| `ProjectBilling.DailyReportsAddUp` | resource-monitoring/operator-metering/reports/rise-by-project-cpu-mem-gpu-monthly.yaml:6-14 | for any project and column, the daily reports of a month add up to the monthly report |
| `ProjectBilling.RawTotalOfSamples` | resource-monitoring/operator-metering/report-queries/rise-pod-cpu-request-report-query.yaml:45-52 | the raw total is the sum over the samples in the period that carry all four labels |
| `StorageReport.RequestTotal` | resource-monitoring/operator-metering/report-queries/rise-pvc-report-query.yaml:42-48 | storage requests are conserved: the join on all seven columns repeats and loses none of them |
| `StorageReport.RequestTotalOfSamples` | resource-monitoring/operator-metering/report-queries/rise-pvc-request-report-query.yaml:45-53 | the same from raw samples |
| `StorageReport.UsageTotal` | resource-monitoring/operator-metering/report-queries/rise-by-project-pvc-report-query.yaml:32-42 | storage usage is billed once, where the same claim, volume, class and project had a request in the same hour |
| `StorageReport.UsageExact` | resource-monitoring/operator-metering/report-queries/rise-pvc-report-query.yaml:42-48 | for usage that is not negative the bill never exceeds the raw usage, and is all of it if and only if every positive reading has a request |
| `StorageReport.UsageTotalOfSamples` | resource-monitoring/operator-metering/report-queries/rise-pvc-usage-report-query.yaml:45-54 | the same from raw samples with all five labels |
| `StorageReport.FiltersAgree` | resource-monitoring/operator-metering/report-queries/rise-by-project-pvc-report-query.yaml:40-41 | filtering on `period_start < E` and on `period_end <= E` selects the same rows if and only if no row's window lies across E |
| `StorageReport.AlignedFilters` | resource-monitoring/operator-metering/report-queries/rise-by-project-cpu-mem-gpu-report-query.yaml:50-51 | for periods of whole hours the two filters always agree |
| `StorageRows.OneRowPerPair` | resource-monitoring/operator-metering/report-queries/rise-by-project-pvc-report-query.yaml:42 | no two rows of the report are for the same project and storage class |
| `StorageRows.PairListed` | resource-monitoring/operator-metering/report-queries/rise-by-project-pvc-report-query.yaml:40-42 | there is a row for a project and storage class if and only if a joined row of the period has them |
| `StorageRows.RowExactly` | resource-monitoring/operator-metering/report-queries/rise-by-project-pvc-report-query.yaml:32-39 | each cell is the SQL sum of its column over the joined rows of the period with the row's project and storage class |
| `StorageRows.RowsListed` | resource-monitoring/operator-metering/report-queries/rise-pvc-request-report-query.yaml:45-53 | from raw samples: there is a row for a project and storage class if and only if the period has a request sample of theirs with all four labels |
| `StorageRows.RowRequest` | resource-monitoring/operator-metering/report-queries/rise-pvc-request-report-query.yaml:45-53 | a row's request in GiB is the sum over those samples |
| `StorageRows.RowUsage` | resource-monitoring/operator-metering/report-queries/rise-pvc-report-query.yaml:42-48 | its usage in GiB is the sum over the usage samples whose claim, volume, namespace, class and project have a request in the same hour, and NULL without any |
| `ModuleLifecycle.NamespaceInjective` | cluster-proxy/server/main.go:65-67 | different batches get different namespaces |
| `ModuleLifecycle.VolumeNameInjective` | cluster-proxy/server/main.go:73-75 | a volume's name determines its module and its index, digits containing no hyphen |
| `ModuleProperties.StorageExact` | cluster-proxy/server/main.go:206 | the 32-bit size computation is exact if and only if the size is at least -2097152 and below 2097152 |
| `ModuleProperties.RunAddsPrefix` | cluster-proxy/server/main.go:190-415 | a run takes exactly a prefix of its creations: those that succeed were free, those after the first failure stay as they were, and all succeed if and only if each is accepted |
| `ModuleProperties.ClaimsCreated` | cluster-proxy/server/main.go:193-223 | the claims after any number of creations are the old ones and one for each volume reached, named after the module and the index in the namespace of the project and the batch |
| `ModuleProperties.ClaimCreated` | cluster-proxy/server/main.go:195-214 | each has the requested storage class, and the size times 1024 in 32 bits |
| `ModuleProperties.OthersCreated` | cluster-proxy/server/main.go:234-412 | the ConfigMap, the Service and the Deployment are there exactly from their creation on, in that order |
| `ModuleProperties.CreatedConfigMap` | cluster-proxy/server/main.go:234-270 | a ConfigMap holds each file under its own key and nothing else |
| `ModuleProperties.CreatedDeployment` | cluster-proxy/server/main.go:219-264 | a Deployment has a volume and a mount for each claim, and a mount for each file |
| `ModuleProperties.RunOnlyAdds` | cluster-proxy/server/main.go:190-415 | no object that existed is lost or overwritten |
| `ModuleProperties.RunSucceeds` | cluster-proxy/server/main.go:190-415 | a run succeeds when its names are free and nothing is rejected |
| `ModuleProperties.RunThenDispose` | cluster-proxy/server/main.go:458-515 | disposing of a module right after a successful run restores the state exactly, for any number of volumes and files |
| `ModuleProperties.FailedRunThenDispose` | cluster-proxy/server/main.go:469-514 | whatever made a run fail, of what it created a dispose removes the Service and what an older Deployment of that name refers to; without one, the Service at most, even one that stood in the way, and the claims and the ConfigMap stay |
| `ModuleProperties.RetryAfterFailure` | cluster-proxy/server/main.go:215-219 | a later run of any build of that module gets exactly as far as without the failed run, or to the first object that was stranded |
| `ModuleProperties.SameBuildBlocked` | cluster-proxy/server/main.go:215-219 | for the same build that is its first creation, unless nothing was stranded |
| `ModuleIntegrity.MountsProvide` | cluster-proxy/server/main.go:221-263 | every volume is mounted at its path over its own claim, and every file is found with its contents at its path |
| `ModuleIntegrity.RunKeepsHealth` | cluster-proxy/server/main.go:194-404 | a run keeps all references between objects intact, whichever creation fails |
| `ModuleIntegrity.DisposeKeepsHealthIff` | cluster-proxy/server/main.go:469-514 | a dispose keeps them intact if and only if the Deployment is gone afterwards or nothing was deleted |
| `ModuleIntegrity.RejectedDeletionExample` | cluster-proxy/server/main.go:478-492 | a dispose whose deletion of the Deployment is rejected leaves it without its Service |
| `ModuleIntegrity.RunsKeepHealthIff` | cluster-proxy/server/main.go:194-514 | a run of calls keeps references intact at every moment if and only if each of its disposes does no harm |
| `ModuleIntegrity.RunsKeepHealth` | cluster-proxy/server/main.go:194-514 | with deletions of Deployments failing only when they are absent, at every moment of every run of prepare, run, dispose and purge calls each Deployment has its namespace, claims, ConfigMap and Service, distinct volume names, and mounts that name its volumes |
| `ModuleIntegrity.StepLeavesOthers` | cluster-proxy/server/main.go:65-78 | a call about one module or batch leaves every object of every other module as it was, whichever of its API calls fail |
| `ModuleIntegrity.RunsLeaveOthers` | cluster-proxy/server/main.go:182-517 | so does any run of such calls, from any state whose Deployments' volumes are named after their modules |
| `ModuleIntegrity.RunsNamed` | cluster-proxy/server/main.go:194-263 | every run keeps the volumes of each Deployment named after its module |
| `ModuleIntegrity.RunLaterDispose` | cluster-proxy/server/main.go:458-515 | running a module and disposing of it later restores its objects, whatever other modules did in between and whichever of their calls failed |
| `ModuleIntegrity.HealthyFailedRun` | cluster-proxy/server/main.go:404-413 | in a healthy cluster, and with a taken Deployment name too, a dispose after a failed run does what it would have done before the run, and leaves what the run created except the Service |
| `ModuleIntegrity.FailedRunLaterDispose` | cluster-proxy/server/main.go:458-515 | what a dispose after a failed run leaves does not depend on what other modules did in between |
| `ModuleIntegrity.HealthyRetry` | cluster-proxy/server/main.go:215-219 | in a healthy cluster a retry gets exactly as far as without the failed run, or to the first stranded object, a taken Deployment name included |
| `ClusterProxy.HealthyDispose` | cluster-proxy/server/main.go:469-515 | in a healthy cluster a dispose succeeds if and only if the Deployment is there and no call is rejected |
| `ClusterProxy.Server.RunBalticModule` | cluster-proxy/server/main.go:182-415 | creates objects in order and stops at the first failure; the new state is the prefix state, and the status is ERROR unless at most the Deployment failed |
| `ClusterProxy.Server.DisposeBalticModule` | cluster-proxy/server/main.go:458-517 | makes every call whatever becomes of the others; the status is ERROR if and only if some call failed |
| `ClusterProxy.Server.PrepareWorkspace` | cluster-proxy/server/main.go:81-119 | creates the batch's namespace, and reports how that went |
| `ClusterProxy.Server.PurgeWorkspace` | cluster-proxy/server/main.go:162-179 | deletes the batch's namespace with everything in it, or nothing |
| `ModuleProperties.PurgedExactly` | cluster-proxy/server/main.go:162-179 | claims, ConfigMaps, Services and Deployments of the namespace are all gone, and those of other namespaces stay as they were |
| `QuotaFormat.FormatQuotas` | cluster-proxy/server/main.go:557-584 | reads each quota field on its own; a field that cannot be parsed stays zero |
| `QuotaFormat.PrintedQuantity` | cluster-proxy/server/main.go:93-95 | a printed quantity is read as its number in thousandths, mebibytes or gibibytes |
| `Decimals.PrintedDigits` | cluster-proxy/server/main.go:93-95 | decimal notation: most significant digit first, no leading zeros |
| `QuotaFormat.CpuRoundTrip` | cluster-proxy/server/main.go:559-562 | the CPU quota read back is the least multiple of 1000 not below the printed one if and only if it is from 0 to 2147483000, or a negative multiple of 1000 |
| `QuotaFormat.CpuOverflowExample` | cluster-proxy/server/main.go:561 | 2147483001 millicores are not read back rounded up |
| `QuotaFormat.QuotaRoundTrip` | cluster-proxy/server/main.go:93-95 | reading the printed quota gives memory back exactly, storage exactly if and only if it is not negative, CPU as above, and ten claims |
| `ProjectResolver.IndexUnique` | namespace-controller/server/project_resolver.go:207-215 | the facts read determine both maps: nothing of an old cache survives |
| `ProjectResolver.Resolver.ClearCache` | namespace-controller/server/project_resolver.go:207-215 | empties both maps |
| `ProjectResolver.Resolver.UpdateCache` | namespace-controller/server/project_resolver.go:133-188 | leaves the cache alone if the listing fails, and otherwise the index of what was read before the first error |
| `ProjectResolver.Resolver.ResolveProjectsByUser` | namespace-controller/server/project_resolver.go:65-79 | answers from the cache if it has bindings of the user, and after a refresh otherwise |
| `ProjectResolver.Resolver.ResolveProjectIdByNamespace` | namespace-controller/server/project_resolver.go:81-95 | answers from the cache if it has the namespace, and after a refresh otherwise |
| `ProjectResolver.Resolver.CachedUserByProject` | namespace-controller/server/project_resolver.go:97-108 | finds some user bound to the project if there is one, in any map order |
| `ProjectResolver.Resolver.FindUserByProject` | namespace-controller/server/project_resolver.go:110-131 | the answer is one that the hit path or the refresh path allows |
| `ResolverProperties.CompleteUsers` | namespace-controller/server/project_resolver.go:142-157 | after a complete refresh a user's entry is the sequence of that user's bindings across all listed projects that have an id and a name, in listing order, owners being those with the role `project-owner` |
| `ResolverProperties.CompleteNamespaces` | namespace-controller/server/project_resolver.go:159-168 | after a complete refresh a namespace's entry is the last listed project with an id and a name that holds it |
| `ResolverProperties.PartialRead` | namespace-controller/server/project_resolver.go:133-168 | a refresh that fails at a project has read all before it and, if it failed at the namespaces, that project's members |
| `ResolverProperties.PartialAnswers` | namespace-controller/server/project_resolver.go:133-168 | what the two maps answer after such a refresh |
| `ResolverProperties.CallsKeepPrefix` | namespace-controller/server/project_resolver.go:133-168 | after any sequence of calls, failing anywhere, the cache is the index of a prefix of the directory |
| `ResolverProperties.CallsKeepOneReading` | namespace-controller/server/project_resolver.go:133-168 | when the directory changes, the cache reflects the reading of the last refresh that got past the listing and no other, and is empty before the first |
| `ResolverProperties.CachedAnswers` | namespace-controller/server/project_resolver.go:65-95 | a cached project list is a prefix of the true one, and a cached namespace answer is true if each namespace is in one project |
| `ResolverProperties.FindSucceeds` | namespace-controller/server/project_resolver.go:110-131 | whatever prefix is cached, a user is found if and only if the project has a member or some binding has an empty user id, and is a member unless its id is empty |
| `ResolverProperties.OwnerFlags` | namespace-controller/server/project_resolver.go:97-128 | a hit takes the owner flag of the user's first listed binding to the project; after a refresh only a user with a single binding can be an owner |
| `ResolverProperties.FlagsAgree` | namespace-controller/server/project_resolver.go:97-128 | the two paths return the same owner flag if and only if the user has one binding or is not the owner there |
| `ResolverProperties.GroupBindingExample` | namespace-controller/server/project_resolver.go:122-130 | a group's binding makes a project without members get an answer |
| `ProjectMembers.EncodeDecode` | upstream/rancher-go/client/client.go:435-456 | a member reads back as written if and only if it is a group, or a user with a principal |
| `MemberProperties.DecodedFields` | upstream/rancher-go/client/client.go:84-101 | a binding is read with its id, user, project and role, as a user exactly if it has a user principal |
| `ProjectMembers.Client.GetProjectMembers` | upstream/rancher-go/client/client.go:71-105 | decodes the bindings in order |
| `ProjectMembers.Client.AddProjectMember` | upstream/rancher-go/client/client.go:435-472 | adds the encoded member unless its kind is unknown or the server refuses |
| `ProjectMembers.Client.DeleteProjectMember` | upstream/rancher-go/client/client.go:489-503 | removes the binding with that id unless the server refuses |
| `ProjectMembers.Client.UpdateProject` | upstream/rancher-go/client/client.go:351-423 | goes through the states of its additions and then its deletions, tolerating failures of single ones; the early failures change no binding |
| `ProjectMembers.FindMember` | upstream/rancher-go/client/client.go:426-433 | finds a member if and only if an equivalent one is there |
| `MemberProperties.StateExactly` | upstream/rancher-go/client/client.go:406-418 | after any number of calls exactly the old bindings not deleted, with their ids, and the members added are held |
| `MemberProperties.AddedFor` | upstream/rancher-go/client/client.go:435-456 | every new binding is for the updated project and for the user, principal and role of a desired member |
| `MemberProperties.AdditionHeld` | upstream/rancher-go/client/client.go:406-412 | an addition that takes effect is held from then on, under the id that the server gave it |
| `MemberProperties.Between` | upstream/rancher-go/client/client.go:392-418 | at every moment each binding that should stay is held with its id, and nothing but old and added members is |
| `MemberProperties.BetweenIff` | upstream/rancher-go/client/client.go:392-418 | every state lies within the old and the desired members if and only if no addition that takes effect is stored as something that is neither |
| `MemberProperties.BetweenStorable` | upstream/rancher-go/client/client.go:392-418 | for well-formed members every state lies within the old and the desired members |
| `MemberProperties.NeverFurther` | upstream/rancher-go/client/client.go:406-418 | the number of missing and of unwanted members grows at a call if and only if the call stores a member as something not desired |
| `MemberProperties.NeverFurtherStorable` | upstream/rancher-go/client/client.go:406-418 | for well-formed members it never grows, however the calls end |
| `MemberProperties.Converges` | upstream/rancher-go/client/client.go:392-418 | when every call takes effect the members equal the desired ones if and only if all of those are well formed |
| `MemberProperties.ConvergesToGrants` | upstream/rancher-go/client/client.go:392-418 | the same in terms of what the server stores: the final bindings grant exactly the desired roles if and only if each desired member is a group, or a user with a principal |
| `MemberProperties.NothingToDo` | upstream/rancher-go/client/client.go:392-402 | an update issues no call if and only if the members already agree |
| `MemberProperties.SecondUpdate` | upstream/rancher-go/client/client.go:392-418 | a second update issues no call |
| `MemberProperties.RetriesFailures` | upstream/rancher-go/client/client.go:406-418 | after failures the next update adds and deletes exactly what did not take effect |
| `MemberProperties.MalformedExample` | upstream/rancher-go/client/client.go:94-101 | a user without a principal is stored as a group, and the next update starts over |
| `Boogeyman.CompletedPrefix` | tests/boogeyman/boogeyman.go:121-206 | the worker gets as far as the first command that panics |
| `Boogeyman.Updated` | tests/boogeyman/boogeyman.go:185-203 | an update adds its name to the set of its kind or removes it from there, and a modification changes nothing |
| `Boogeyman.Worker.HandleUpdate` | tests/boogeyman/boogeyman.go:185-203 | the same of the worker's fields |
| `Boogeyman.DeploymentsDeleted` | tests/boogeyman/boogeyman.go:321-352 | deleting all Deployments is one deletion for each of them and then one for each claim, and no other call |
| `Boogeyman.PodsDeleted` | tests/boogeyman/boogeyman.go:290-315 | deleting all pods is one deletion for each pod of the set, and no other call |
| `Boogeyman.ChosenDeleted` | tests/boogeyman/boogeyman.go:248-284 | random deletions are of names in the set, as many as were asked for, or one for Deployments |
| `Boogeyman.DeployCalls` | tests/boogeyman/boogeyman.go:403-426 | deploying without a shared claim is creating a claim and deploying with it |
| `Boogeyman.Worker.Execute` | tests/boogeyman/boogeyman.go:125-203 | a command makes its calls and leaves the sets alone, an update changes its set and makes no call, and choosing from an empty set panics |
| `Boogeyman.Worker.MasterWorker` | tests/boogeyman/boogeyman.go:121-206 | the sets are the updates handled in order, the calls those of each command in order, up to the first panic |
| `BoogeymanRuns.RunsMirrored` | tests/boogeyman/boogeyman.go:536-616 | in every interleaving, folding the events on their way over a set gives what the cluster holds while the watch is open |
| `BoogeymanRuns.ClusterChanged` | tests/boogeyman/boogeyman.go:536-616 | the cluster gains and loses exactly the objects that are created and deleted |
| `BoogeymanRuns.QuiescentMirrors` | tests/boogeyman/boogeyman.go:185-202 | at quiescence each set equals the cluster's contents |
| `BoogeymanRuns.QuiescentSets` | tests/boogeyman/boogeyman.go:185-202 | at quiescence the three sets are the cluster's Deployments, claims and pods |
| `BoogeymanRuns.SettlesMirrored` | tests/boogeyman/boogeyman.go:121-206 | left alone, the program reaches quiescence with the right sets in a bounded number of steps, whichever come first |
| `BoogeymanRuns.CrashIff` | tests/boogeyman/boogeyman.go:273-275 | the worker is down if and only if it took a random deletion with nothing in its set |
| `BoogeymanRuns.PanicsIffEmpty` | tests/boogeyman/boogeyman.go:266-275 | with the watch open and nothing pending, a random deletion crashes the worker if and only if the cluster holds nothing to delete |
| `BoogeymanRuns.CrashMeansBehind` | tests/boogeyman/boogeyman.go:375-382 | with an open watch and something to delete, only a worker that is behind on events can crash |
| `BoogeymanRuns.KindsCommute` | tests/boogeyman/boogeyman.go:185-202 | how events of different kinds are interleaved does not matter |
| `Admission.ReviewContainers` | namespace-controller/server/admission_controller.go:163-203 | a pod is allowed if and only if each container has requests and no shared resource has a limit above its request, whatever the map order; the reason names a real fault, and the patch has one operation per missing limit |
| `Admission.Webhook.ReviewPod` | namespace-controller/server/admission_controller.go:144-203 | pods outside normal users' projects pass as they are, others get the decision and the patch |
| `Admission.Webhook.ReviewNamespace` | namespace-controller/server/admission_controller.go:91-143 | the answer for a user with no project, several, or one as owner or member |
| `DocumentProperties.AcceptableExactly` | namespace-controller/server/admission_controller.go:163-189 | in the document: a container is acceptable if and only if it has requests and, for each resource with both quantities, the limit is at most the request |
| `DocumentProperties.AllowedPod` | namespace-controller/server/admission_controller.go:163-203 | a pod that is let in has requests in each container and no limit above the request of the same resource |
| `DocumentProperties.DeniedPod` | namespace-controller/server/admission_controller.go:163-189 | a pod that is denied has a container without requests or with a limit above its request |
| `DocumentProperties.NamespaceDecision` | namespace-controller/server/admission_controller.go:113-143 | a namespace is let in if and only if its name starts with the project's; then the project annotation is set and no other scalar of the document changes |
| `JsonPatch.AddThenGet` | namespace-controller/server/admission_controller.go:190-194 | section 4.1 of RFC 6902: what an operation adds is found where it was added |
| `JsonPatch.UnescapePair` | namespace-controller/server/admission_controller.go:193 | section 4 of RFC 6901: `~1` stands for a slash and `~0` for a tilde |
| `JsonPatch.PlainPair` | namespace-controller/server/admission_controller.go:193 | section 3 of RFC 6901: each token of a path follows a slash |
| `PatchProperties.OneOperation` | namespace-controller/server/admission_controller.go:190-194 | an operation adds one limit to one container or fails; which of the two depends on the limits object and the resource's name |
| `PatchProperties.PatchApplied` | namespace-controller/server/admission_controller.go:163-196 | a patch succeeds if and only if each of its operations would alone, in any order |
| `PatchProperties.PatchWorksIff` | namespace-controller/server/admission_controller.go:190-194 | the patch sets every missing limit to the request and changes nothing else if and only if the limits objects exist and the names have no slash or tilde |
| `DocumentProperties.PatchedScalars` | namespace-controller/server/admission_controller.go:190-194 | the scalars of the patched document are those of the document and, for each request without a limit, that request's quantity as the limit |
| `DocumentProperties.MissingLimitSet` | namespace-controller/server/admission_controller.go:190-194 | in whatever order the operations are applied, a missing limit becomes exactly the quantity requested |
| `PatchProperties.PatchFails` | namespace-controller/server/admission_controller.go:193 | without a limits object, or for a name with a slash, the whole patch fails |
| `PatchProperties.NoLimitsExample` | namespace-controller/server/admission_controller.go:190-194 | a pod with a request and no limits object is let in with a patch that fails |
| `PatchProperties.PatchedPod` | namespace-controller/server/admission_controller.go:163-196 | afterwards every request has a limit no higher than itself, and existing limits and all requests are kept |
| `PatchProperties.Readmitted` | namespace-controller/server/admission_controller.go:214-221 | the patched pod is allowed again, with no operations |
| `PatchProperties.NamespacePatched` | namespace-controller/server/admission_controller.go:124-143 | a namespace is let in if and only if its name starts with the project's; it ends up in that project whatever it named itself, keeps its other annotations, and is a fixed point of the review |
| `IngressHosts.UsualGroups` | ingress-rule-conflict-controller/conf/k8suniqueingresshost_template.yaml:22-25 | the regular expressions accept the API groups of ingresses |
| `IngressHosts.GroupExactly` | ingress-rule-conflict-controller/conf/k8suniqueingresshost_template.yaml:22 | the groups that the regular expression accepts, its dots standing for any character |
| `IngressHosts.VersionExactly` | ingress-rule-conflict-controller/conf/k8suniqueingresshost_template.yaml:25 | the versions that the regular expression accepts: such a group, a slash and something more |
| `IngressHosts.DeniedIff` | ingress-rule-conflict-controller/conf/k8suniqueingresshost_template.yaml:15-29 | a request is denied if and only if a host of any of its rules is in any rule of a listed ingress of another namespace or name |
| `IngressHosts.PutUniqueIff` | ingress-rule-conflict-controller/conf/k8suniqueingresshost_template.yaml:20-29 | a create or an update leaves hosts unique if and only if, should a live ingress of another name have one of its hosts, the inventory lists such an ingress too |
| `IngressHosts.AdmittedUnique` | ingress-rule-conflict-controller/conf/k8suniqueingresshost_template.yaml:20-29 | a request that passes with a covering inventory keeps hosts unique |
| `IngressHosts.ExactDenial` | ingress-rule-conflict-controller/conf/k8suniqueingresshost_template.yaml:15-29 | with an exact inventory a request is denied if and only if admitting it would break uniqueness |
| `IngressHosts.RunsUnique` | ingress-rule-conflict-controller/conf/k8suniqueingresshost_template.yaml:15-29 | over every run of creates, updates and deletes whose reviews see what is live, whatever stale entries they see as well, a host in a rule of one live ingress is in no rule of another |
| `IngressHosts.RunsUniqueIff` | ingress-rule-conflict-controller/conf/k8suniqueingresshost_template.yaml:15-29 | hosts are unique at every moment of a run if and only if every create or update in it meets that condition |
| `IngressHosts.LaggingExample` | ingress-rule-conflict-controller/conf/k8suniqueingresshost_template.yaml:24 | an inventory that lags lets two ingresses have one host |
| `IngressHosts.StaleExample` | ingress-rule-conflict-controller/conf/k8suniqueingresshost_template.yaml:24-27 | a stale entry denies a request that would break nothing |

## Left out

- Transport and serving: gRPC, HTTP, TLS, the Kubernetes and Rancher clients; each remote call is a step that may fail.
- JSON and YAML encoding, logging and status messages; errors are values, documents are trees.
- The push of the resolver's cache to OPA, which has no effect on the maps, and the panic when it cannot be sent.
- Data races: the resolver and the worker's sets are each used by one goroutine at a time.
- Rounding of `double` in the reports, which add up exact reals.
- Late hourly reports: a roll-up sees the hourly tables of the hours that have run, complete.
- A missing `volumename` label reads as NULL in the storage request query; Presto reports an error for that subscript.
- ClusterProxy.Server.RunBalticModule: does not model the images, environments, ports, resources and affinities of the
  Deployments and Services that it creates, because nothing else refers to them.
- Finalizers and grace periods: a deleted object is gone at once, and a deleted namespace with everything in it.
- ClusterProxy.Server.PrepareWorkspace: does not model the annotations of the namespace, because the quota strings in
  them are modelled apart from it, in `QuotaFormat`.
- QuotaFormat.FormatQuotas: does not model quantity syntax other than an integer alone or with `m`, `Mi` or `Gi`, nor
  quantities beyond 64 bits, because the proxy prints no others.
- In documents, quantities are the amounts they denote, so two spellings of one amount are the same.
- ProjectMembers.Client.UpdateProject: does not model the name and the other settings of a project that it replaces
  along with its members, because they do not affect them.
- Changes of a project's bindings by others while an update runs.
- `CheckWorkspaceStatus`, `CheckBalticModuleStatus`, `GetClusterDescription` and the simple getters, which only read.
- Timing and distribution of the chaos monkey's random choices.
- Deployment scripts, data sources, producers and consumers.
