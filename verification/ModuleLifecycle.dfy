/** The Kubernetes objects behind a module: their names, what a run creates and what disposing of it deletes. */
module ModuleLifecycle {
  import opened Decimals
  import opened Integers

  /******* Names *******/

  /** A namespace and a name in it. */
  type Name = (string, string)

  function NamespaceOf(project: string, batch: string): string {
    project + "-" + batch
  }

  function VolumeName(moduleId: string, idx: nat): string {
    moduleId + "-" + Decimal(idx)
  }

  function FileKey(idx: nat): string {
    "file-" + Decimal(idx)
  }

  lemma NamespaceInjective(project: string, a: string, b: string)
    requires NamespaceOf(project, a) == NamespaceOf(project, b)
    ensures a == b
  {
    assert a == NamespaceOf(project, a)[|project| + 1..];
    assert b == NamespaceOf(project, b)[|project| + 1..];
  }

  /** The digits of an index contain no hyphen, so a volume's name determines its module and index. */
  lemma VolumeNameInjective(a: string, i: nat, b: string, j: nat)
    requires VolumeName(a, i) == VolumeName(b, j)
    ensures a == b && i == j
  {
    HyphenatedInjective(a, i, b, j);
  }

  lemma FileKeyInjective(i: nat, j: nat)
    requires FileKey(i) == FileKey(j)
    ensures i == j
  {
    assert FileKey(i) == "file" + "-" + Decimal(i) && FileKey(j) == "file" + "-" + Decimal(j);
    HyphenatedInjective("file", i, "file", j);
  }

  /******* Objects *******/

  datatype VolumeDescription = VolumeDescription(size: int, storageClass: string, mountPath: string)

  datatype ConfigFile = ConfigFile(data: string, mountPath: string)

  /** The parts of a build request that the created objects are named after or refer to. */
  datatype Build = Build(batch: string, moduleId: string, volumes: seq<VolumeDescription>, configFiles: seq<ConfigFile>)

  datatype Claim = Claim(storageClass: string, storage: int)

  datatype VolumeSource = FromClaim(claim: string) | FromConfigMap(configMap: string)

  datatype Volume = Volume(name: string, source: VolumeSource)

  datatype Mount = Mount(volume: string, path: string, subPath: string)

  datatype Deployment = Deployment(volumes: seq<Volume>, mounts: seq<Mount>)

  /** What the API server holds. */
  datatype State = State(namespaces: set<string>, claims: map<Name, Claim>, configMaps: map<Name, map<string, string>>,
                         services: set<Name>, deployments: map<Name, Deployment>)

  /** The size is multiplied in 32 bits. */
  function ClaimOf(v: VolumeDescription): Claim {
    Claim(v.storageClass, WrapInt32(v.size * 1024))
  }

  function NS(project: string, b: Build): string {
    NamespaceOf(project, b.batch)
  }

  function ModuleName(project: string, b: Build): Name {
    (NS(project, b), b.moduleId)
  }

  function ClaimName(project: string, b: Build, idx: nat): Name {
    (NS(project, b), VolumeName(b.moduleId, idx))
  }

  /** The claims for the first `n` volumes. */
  function NewClaims(project: string, b: Build, n: nat): (claims: map<Name, Claim>)
    requires n <= |b.volumes|
    ensures claims.Keys == set i: nat | i < n :: ClaimName(project, b, i)
  {
    if n == 0 then map[] else NewClaims(project, b, n - 1)[ClaimName(project, b, n - 1) := ClaimOf(b.volumes[n - 1])]
  }

  function ConfigData(files: seq<ConfigFile>): (data: map<string, string>)
    ensures data.Keys == set i: nat | i < |files| :: FileKey(i)
  {
    if files == [] then map[]
    else
      var n := |files| - 1;
      ConfigData(files[..n])[FileKey(n) := files[n].data]
  }

  function ClaimVolumes(moduleId: string, n: nat): (volumes: seq<Volume>)
    ensures |volumes| == n
    ensures forall i: nat | i < n :: volumes[i] == Volume(VolumeName(moduleId, i), FromClaim(VolumeName(moduleId, i)))
  {
    seq(n, i requires 0 <= i < n => Volume(VolumeName(moduleId, i), FromClaim(VolumeName(moduleId, i))))
  }

  function ConfigVolumes(b: Build): seq<Volume> {
    if b.configFiles == [] then [] else [Volume(b.moduleId, FromConfigMap(b.moduleId))]
  }

  function ClaimMounts(b: Build): (mounts: seq<Mount>)
    ensures |mounts| == |b.volumes|
    ensures forall i: nat | i < |mounts| :: mounts[i] == Mount(VolumeName(b.moduleId, i), b.volumes[i].mountPath, "")
  {
    seq(|b.volumes|, i requires 0 <= i < |b.volumes| => Mount(VolumeName(b.moduleId, i), b.volumes[i].mountPath, ""))
  }

  function ConfigMounts(b: Build): (mounts: seq<Mount>)
    ensures |mounts| == |b.configFiles|
    ensures forall i: nat | i < |mounts| :: mounts[i] == Mount(b.moduleId, b.configFiles[i].mountPath, FileKey(i))
  {
    seq(|b.configFiles|,
        i requires 0 <= i < |b.configFiles| => Mount(b.moduleId, b.configFiles[i].mountPath, FileKey(i)))
  }

  function DeploymentOf(b: Build): Deployment {
    Deployment(ClaimVolumes(b.moduleId, |b.volumes|) + ConfigVolumes(b), ClaimMounts(b) + ConfigMounts(b))
  }

  /******* Running a module *******/

  /** Creations in the order in which they are attempted: the claims, the ConfigMap if there are files, the Service
      and the Deployment. */
  function ConfigSteps(b: Build): nat {
    if b.configFiles == [] then 0 else 1
  }

  function Total(b: Build): nat {
    |b.volumes| + ConfigSteps(b) + 2
  }

  /** The state once the first `k` creations have succeeded. */
  function Added(project: string, s: State, b: Build, k: nat): State
    requires k <= Total(b)
  {
    var n, name := |b.volumes|, ModuleName(project, b);
    s.(claims := s.claims + NewClaims(project, b, if k < n then k else n),
       configMaps :=
         if b.configFiles != [] && k > n then s.configMaps[name := ConfigData(b.configFiles)] else s.configMaps,
       services := if k > n + ConfigSteps(b) then s.services + {name} else s.services,
       deployments := if k == Total(b) then s.deployments[name := DeploymentOf(b)] else s.deployments)
  }

  /** Whether the `i`th object does not exist yet. */
  predicate Free(project: string, s: State, b: Build, i: nat)
    requires i < Total(b)
  {
    if i < |b.volumes| then ClaimName(project, b, i) !in s.claims
    else if i < |b.volumes| + ConfigSteps(b) then ModuleName(project, b) !in s.configMaps
    else if i == |b.volumes| + ConfigSteps(b) then ModuleName(project, b) !in s.services
    else ModuleName(project, b) !in s.deployments
  }

  /** The API server accepts the `i`th creation unless it rejects it for reasons of its own, its namespace does not
      exist, or its name is taken. */
  predicate Accepts(project: string, s: State, b: Build, rejects: nat -> bool, i: nat)
    requires i < Total(b)
  {
    !rejects(i) && NS(project, b) in s.namespaces && Free(project, s, b, i)
  }

  /** How many creations succeed before the first that fails. */
  function Progress(project: string, s: State, b: Build, rejects: nat -> bool, from: nat): (k: nat)
    requires from <= Total(b)
    ensures from <= k <= Total(b)
    ensures forall i | from <= i < k :: Accepts(project, s, b, rejects, i)
    ensures k < Total(b) ==> !Accepts(project, s, b, rejects, k)
    decreases Total(b) - from
  {
    if from < Total(b) && Accepts(project, s, b, rejects, from)
    then Progress(project, s, b, rejects, from + 1)
    else from
  }

  function Ran(project: string, s: State, b: Build, rejects: nat -> bool): State {
    Added(project, s, b, Progress(project, s, b, rejects, 0))
  }

  /******* Disposing of a module *******/

  datatype DisposeCall = GetDeployment | DeleteDeployment | DeleteService | DeleteVolume(i: nat)

  /** The volumes that disposing of a module sees: none if its Deployment cannot be read. */
  function SeenVolumes(s: State, name: Name, rejects: DisposeCall -> bool): seq<Volume> {
    if name in s.deployments && !rejects(GetDeployment) then s.deployments[name].volumes else []
  }

  function DeletedClaims(ns: string, volumes: seq<Volume>, rejects: DisposeCall -> bool): set<Name> {
    set i: nat | i < |volumes| && volumes[i].source.FromClaim? && !rejects(DeleteVolume(i)) :: (ns, volumes[i].name)
  }

  function DeletedConfigMaps(ns: string, volumes: seq<Volume>, rejects: DisposeCall -> bool): set<Name> {
    set i: nat | i < |volumes| && volumes[i].source.FromConfigMap? && !rejects(DeleteVolume(i)) :: (ns, volumes[i].name)
  }

  /** Deleting an absent object changes nothing. */
  function Disposed(s: State, name: Name, rejects: DisposeCall -> bool): State {
    var volumes := SeenVolumes(s, name, rejects);
    s.(claims := s.claims - DeletedClaims(name.0, volumes, rejects),
       configMaps := s.configMaps - DeletedConfigMaps(name.0, volumes, rejects),
       services := if rejects(DeleteService) then s.services else s.services - {name},
       deployments := if rejects(DeleteDeployment) then s.deployments else s.deployments - {name})
  }

  /******* Workspaces *******/

  function Prepared(s: State, ns: string, rejected: bool): State {
    if rejected then s else s.(namespaces := s.namespaces + {ns})
  }

  /** Deleting a namespace deletes everything in it. */
  function Purged(s: State, ns: string): State {
    State(s.namespaces - {ns},
          map n | n in s.claims && n.0 != ns :: s.claims[n],
          map n | n in s.configMaps && n.0 != ns :: s.configMaps[n],
          set n | n in s.services && n.0 != ns,
          map n | n in s.deployments && n.0 != ns :: s.deployments[n])
  }
}
