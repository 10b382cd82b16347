/** Round trips, failures, isolation and referential integrity of the module lifecycle. */
module ModuleProperties {
  import opened Decimals
  import opened Integers
  import opened ModuleLifecycle

  /******* What is created *******/

  function Min(x: nat, y: nat): nat {
    if x < y then x else y
  }

  lemma {:induction false} NewClaimAt(project: string, b: Build, n: nat, i: nat)
    requires i < n <= |b.volumes|
    ensures NewClaims(project, b, n)[ClaimName(project, b, i)] == ClaimOf(b.volumes[i])
  {
    if i < n - 1 {
      NewClaimAt(project, b, n - 1, i);
      if ClaimName(project, b, i) == ClaimName(project, b, n - 1) {
        VolumeNameInjective(b.moduleId, i, b.moduleId, n - 1);
      }
    }
  }

  /** Every configuration file is kept under its own key, whatever the number of files. */
  lemma {:induction false} ConfigDataAt(files: seq<ConfigFile>, i: nat)
    requires i < |files|
    ensures ConfigData(files)[FileKey(i)] == files[i].data
  {
    var n := |files| - 1;
    if i < n {
      ConfigDataAt(files[..n], i);
      if FileKey(i) == FileKey(n) {
        FileKeyInjective(i, n);
      }
    }
  }

  /** The size asked for is kept exactly when 1024 times it fits in 32 bits. */
  lemma StorageExact(v: VolumeDescription)
    ensures ClaimOf(v).storage == v.size * 1024 <==> -0x20_0000 <= v.size < 0x20_0000
  {
  }

  /** All of a module's names are free in its namespace, which exists. */
  ghost predicate AllFree(project: string, s: State, b: Build) {
    NS(project, b) in s.namespaces && forall i | 0 <= i < Total(b) :: Free(project, s, b, i)
  }

  lemma ModuleVolumes(b: Build, i: nat)
    requires i < |DeploymentOf(b).volumes|
    ensures i < |b.volumes| ==>
        DeploymentOf(b).volumes[i] == Volume(VolumeName(b.moduleId, i), FromClaim(VolumeName(b.moduleId, i)))
    ensures i >= |b.volumes| ==> DeploymentOf(b).volumes[i] == Volume(b.moduleId, FromConfigMap(b.moduleId))
  {
  }

  lemma VolumeCount(b: Build)
    ensures |DeploymentOf(b).volumes| == |b.volumes| + ConfigSteps(b)
  {
  }

  /** Disposing of a module finds all of its claims. */
  lemma ModuleClaims(project: string, b: Build, rejects: DisposeCall -> bool)
    requires forall i: nat :: !rejects(DeleteVolume(i))
    ensures DeletedClaims(NS(project, b), DeploymentOf(b).volumes, rejects) == NewClaims(project, b, |b.volumes|).Keys
  {
    hide DeploymentOf, NewClaims;
    var n, volumes, ns := |b.volumes|, DeploymentOf(b).volumes, NS(project, b);
    forall i: nat | i < |volumes|
      ensures i < n ==> volumes[i] == Volume(VolumeName(b.moduleId, i), FromClaim(VolumeName(b.moduleId, i)))
      ensures i >= n ==> volumes[i] == Volume(b.moduleId, FromConfigMap(b.moduleId))
    {
      ModuleVolumes(b, i);
    }
    VolumeCount(b);
    forall i: nat | i < n ensures ClaimName(project, b, i) in DeletedClaims(ns, volumes, rejects) {
      assert volumes[i].source.FromClaim? && ClaimName(project, b, i) == (ns, volumes[i].name);
    }
    forall x | x in DeletedClaims(ns, volumes, rejects) ensures x in NewClaims(project, b, n).Keys {
      var i: nat :|
        i < |volumes| && volumes[i].source.FromClaim? && !rejects(DeleteVolume(i)) && x == (ns, volumes[i].name);
      assert i < n && x == ClaimName(project, b, i);
    }
  }

  /** Disposing of a module finds its ConfigMap. */
  lemma ModuleConfigMap(project: string, b: Build, rejects: DisposeCall -> bool)
    requires forall i: nat :: !rejects(DeleteVolume(i))
    ensures DeletedConfigMaps(NS(project, b), DeploymentOf(b).volumes, rejects)
         == if b.configFiles == [] then {} else {ModuleName(project, b)}
  {
    hide DeploymentOf;
    var n, volumes, ns := |b.volumes|, DeploymentOf(b).volumes, NS(project, b);
    forall i: nat | i < |volumes|
      ensures i < n ==> volumes[i].source.FromClaim?
      ensures i >= n ==> volumes[i] == Volume(b.moduleId, FromConfigMap(b.moduleId))
    {
      ModuleVolumes(b, i);
    }
    VolumeCount(b);
    if b.configFiles != [] {
      assert volumes[n].source.FromConfigMap?;
      assert ModuleName(project, b) in DeletedConfigMaps(ns, volumes, rejects);
    }
  }

  lemma AddedThenRemoved<K, V>(m: map<K, V>, added: map<K, V>)
    requires m.Keys !! added.Keys
    ensures m + added - added.Keys == m
  {
  }

  lemma SetThenRemoved<K, V>(m: map<K, V>, k: K, v: V)
    requires k !in m
    ensures m[k := v] - {k} == m
  {
  }

  lemma NewClaimsFree(project: string, s: State, b: Build)
    requires AllFree(project, s, b)
    ensures s.claims.Keys !! NewClaims(project, b, |b.volumes|).Keys
    ensures b.configFiles != [] ==> ModuleName(project, b) !in s.configMaps
    ensures ModuleName(project, b) !in s.services && ModuleName(project, b) !in s.deployments
  {
    forall i: nat | i < |b.volumes| ensures ClaimName(project, b, i) !in s.claims {
      assert Free(project, s, b, i);
    }
    assert Free(project, s, b, |b.volumes|) && Free(project, s, b, Total(b) - 2) && Free(project, s, b, Total(b) - 1);
  }

  /** Disposing of a module right after a successful run restores the state exactly. */
  lemma RunThenDispose(project: string, s: State, b: Build)
    requires AllFree(project, s, b)
    ensures Disposed(Added(project, s, b, Total(b)), ModuleName(project, b), (c: DisposeCall) => false) == s
  {
    hide NewClaims, DeploymentOf, ConfigData, DeletedClaims, DeletedConfigMaps;
    var never := (c: DisposeCall) => false;
    var name := ModuleName(project, b);
    var t := Added(project, s, b, Total(b));
    assert SeenVolumes(t, name, never) == DeploymentOf(b).volumes;
    ModuleClaims(project, b, never);
    ModuleConfigMap(project, b, never);
    NewClaimsFree(project, s, b);
    AddedThenRemoved(s.claims, NewClaims(project, b, |b.volumes|));
    SetThenRemoved(s.deployments, name, DeploymentOf(b));
    assert s.services + {name} - {name} == s.services;
    if b.configFiles != [] {
      SetThenRemoved(s.configMaps, name, ConfigData(b.configFiles));
    }
  }

  /** A run that the API server rejects nothing of succeeds whenever the names are free. */
  lemma RunSucceeds(project: string, s: State, b: Build)
    requires AllFree(project, s, b)
    ensures Ran(project, s, b, (i: nat) => false) == Added(project, s, b, Total(b))
  {
    var never := (i: nat) => false;
    forall i | 0 <= i < Total(b) ensures Accepts(project, s, b, never, i) {
      assert Free(project, s, b, i);
    }
  }

  /******* When a creation fails *******/

  /** A run adds a prefix of its creations and nothing else: what it creates was free, and what it does not reach
      stays as it was. */
  lemma RunAddsPrefix(project: string, s: State, b: Build, rejects: nat -> bool, k: nat)
    requires k == Progress(project, s, b, rejects, 0)
    ensures forall i | 0 <= i < k :: Free(project, s, b, i)
    ensures var t := Ran(project, s, b, rejects);
            forall i | 0 <= i < Total(b) :: Free(project, t, b, i) <==> Free(project, s, b, i) && i >= k
    ensures k == Total(b) <==> forall i | 0 <= i < Total(b) :: Accepts(project, s, b, rejects, i)
  {
    var t := Ran(project, s, b, rejects);
    forall i | 0 <= i < k ensures Free(project, s, b, i) {
      assert Accepts(project, s, b, rejects, i);
    }
    forall i | 0 <= i < Total(b) ensures Free(project, t, b, i) <==> Free(project, s, b, i) && i >= k {
      if i < |b.volumes| {
        ClaimAdded(project, s, b, k, i);
      }
    }
  }

  /** A run overwrites nothing. */
  lemma RunOnlyAdds(project: string, s: State, b: Build, rejects: nat -> bool)
    ensures var t := Ran(project, s, b, rejects);
            && t.namespaces == s.namespaces && s.services <= t.services
            && (forall c | c in s.claims :: c in t.claims && t.claims[c] == s.claims[c])
            && (forall n | n in s.configMaps :: n in t.configMaps && t.configMaps[n] == s.configMaps[n])
            && (forall n | n in s.deployments :: n in t.deployments && t.deployments[n] == s.deployments[n])
  {
    hide Progress, NewClaims;
    var k := Progress(project, s, b, rejects, 0);
    RunAddsPrefix(project, s, b, rejects, k);
    OldClaimsKept(project, s, b, k);
    if b.configFiles != [] && k > |b.volumes| {
      assert Free(project, s, b, |b.volumes|);
    }
    if k == Total(b) {
      assert Free(project, s, b, Total(b) - 1);
    }
  }

  lemma ClaimText(project: string, b: Build, i: nat)
    ensures ClaimName(project, b, i) == (project + "-" + b.batch, b.moduleId + "-" + Decimal(i))
  {
  }

  /** The claims after `k` creations: those that were there, and one for each volume that it got to. */
  lemma ClaimsCreated(project: string, s: State, b: Build, k: nat, c: Name)
    requires k <= Total(b)
    ensures c in Added(project, s, b, k).claims <==>
            || c in s.claims
            || exists i: nat ::
                 i < k && i < |b.volumes| && c == (project + "-" + b.batch, b.moduleId + "-" + Decimal(i))
  {
    var m := if k < |b.volumes| then k else |b.volumes|;
    if c in NewClaims(project, b, m) {
      var i: nat :| i < m && c == ClaimName(project, b, i);
      ClaimText(project, b, i);
    }
    if i: nat :| i < m && c == (project + "-" + b.batch, b.moduleId + "-" + Decimal(i)) {
      ClaimText(project, b, i);
      assert ClaimName(project, b, i) in NewClaims(project, b, m);
    }
  }

  /** Each has the storage class and the size that were asked for. */
  lemma ClaimCreated(project: string, s: State, b: Build, k: nat, i: nat)
    requires k <= Total(b) && i < k && i < |b.volumes|
    ensures var t, c := Added(project, s, b, k), (project + "-" + b.batch, b.moduleId + "-" + Decimal(i));
            && c in t.claims && t.claims[c].storageClass == b.volumes[i].storageClass
            && t.claims[c].storage == WrapInt32(b.volumes[i].size * 1024)
  {
    var m := if k < |b.volumes| then k else |b.volumes|;
    ClaimText(project, b, i);
    NewClaimAt(project, b, m, i);
    assert ClaimName(project, b, i) in NewClaims(project, b, m);
  }

  /** The other objects, as far as the creations got. */
  lemma OthersCreated(project: string, s: State, b: Build, k: nat)
    requires k <= Total(b)
    ensures var t, name, n := Added(project, s, b, k), (project + "-" + b.batch, b.moduleId), |b.volumes|;
            var c := if b.configFiles == [] then 0 else 1;
            && t.namespaces == s.namespaces
            && t.configMaps.Keys == s.configMaps.Keys + (if c == 1 && k > n then {name} else {})
            && t.services == s.services + (if k > n + c then {name} else {})
            && t.deployments.Keys == s.deployments.Keys + (if k > n + c + 1 then {name} else {})
            && (c == 1 && k > n ==> t.configMaps[name] == ConfigData(b.configFiles))
            && (k > n + c + 1 ==> t.deployments[name] == DeploymentOf(b))
  {
    hide NewClaims, ConfigData, DeploymentOf;
  }

  lemma CreatedFile(files: seq<ConfigFile>, i: nat)
    requires i < |files|
    ensures "file-" + Decimal(i) in ConfigData(files) && ConfigData(files)["file-" + Decimal(i)] == files[i].data
  {
    ConfigDataAt(files, i);
    assert FileKey(i) == "file-" + Decimal(i);
    assert FileKey(i) in ConfigData(files);
  }

  /** A ConfigMap holds each file under its own key and nothing else. */
  lemma CreatedConfigMap(files: seq<ConfigFile>, key: string)
    ensures key in ConfigData(files) <==> exists i: nat :: i < |files| && key == "file-" + Decimal(i)
  {
    if i: nat :| i < |files| && key == "file-" + Decimal(i) {
      CreatedFile(files, i);
    }
    if key in ConfigData(files) {
      hide ConfigData;
      var i: nat :| i < |files| && key == FileKey(i);
      assert key == "file-" + Decimal(i);
    }
  }

  /** A Deployment has a volume for each claim and for the ConfigMap, and a mount for each volume and file. */
  lemma CreatedDeployment(b: Build)
    ensures var d, n := DeploymentOf(b), |b.volumes|;
            && |d.volumes| == n + ConfigSteps(b) && |d.mounts| == n + |b.configFiles|
            && (forall i: nat | i < n ::
                  var v := b.moduleId + "-" + Decimal(i);
                  d.volumes[i] == Volume(v, FromClaim(v)) && d.mounts[i] == Mount(v, b.volumes[i].mountPath, ""))
            && (b.configFiles != [] ==> d.volumes[n] == Volume(b.moduleId, FromConfigMap(b.moduleId)))
            && forall i: nat | i < |b.configFiles| ::
                 d.mounts[n + i] == Mount(b.moduleId, b.configFiles[i].mountPath, "file-" + Decimal(i))
  {
    var d, n := DeploymentOf(b), |b.volumes|;
    forall i: nat | i < n
      ensures d.volumes[i] == Volume(b.moduleId + "-" + Decimal(i), FromClaim(b.moduleId + "-" + Decimal(i)))
      ensures d.mounts[i] == Mount(b.moduleId + "-" + Decimal(i), b.volumes[i].mountPath, "")
    {
      assert d.volumes[i] == ClaimVolumes(b.moduleId, n)[i] && d.mounts[i] == ClaimMounts(b)[i];
    }
    forall i: nat | i < |b.configFiles|
      ensures d.mounts[n + i] == Mount(b.moduleId, b.configFiles[i].mountPath, "file-" + Decimal(i))
    {
      assert d.mounts[n + i] == ConfigMounts(b)[i];
    }
  }

  /** A purged namespace is gone with everything in it, and nothing else is touched. */
  lemma PurgedExactly(s: State, ns: string)
    ensures var t := Purged(s, ns);
            && ns !in t.namespaces && (forall other | other != ns :: other in t.namespaces <==> other in s.namespaces)
            && (forall n: Name | n.0 == ns ::
                  n !in t.claims && n !in t.configMaps && n !in t.services && n !in t.deployments)
            && (forall n: Name | n.0 != ns && n in s.claims :: n in t.claims && t.claims[n] == s.claims[n])
            && (forall n: Name | n.0 != ns && n in s.configMaps ::
                  n in t.configMaps && t.configMaps[n] == s.configMaps[n])
            && (forall n: Name | n.0 != ns && n in s.deployments ::
                  n in t.deployments && t.deployments[n] == s.deployments[n])
            && t.claims.Keys <= s.claims.Keys && t.configMaps.Keys <= s.configMaps.Keys
            && t.deployments.Keys <= s.deployments.Keys
            && (forall n: Name | n.0 != ns :: n in t.services <==> n in s.services)
  {
  }

  lemma OldClaimsKept(project: string, s: State, b: Build, k: nat)
    requires k <= Total(b) && forall i | 0 <= i < k :: Free(project, s, b, i)
    ensures var t := Added(project, s, b, k);
            forall c | c in s.claims :: c in t.claims && t.claims[c] == s.claims[c]
  {
    hide NewClaims;
    var m := if k < |b.volumes| then k else |b.volumes|;
    forall i: nat | i < m ensures ClaimName(project, b, i) !in s.claims {
      assert Free(project, s, b, i);
    }
  }

  lemma ClaimAdded(project: string, s: State, b: Build, k: nat, i: nat)
    requires k <= Total(b) && i < |b.volumes|
    ensures ClaimName(project, b, i) in Added(project, s, b, k).claims
        <==> ClaimName(project, b, i) in s.claims || i < k
  {
    var n := if k < |b.volumes| then k else |b.volumes|;
    if ClaimName(project, b, i) in NewClaims(project, b, n) {
      var j: nat :| j < n && ClaimName(project, b, j) == ClaimName(project, b, i);
      VolumeNameInjective(b.moduleId, i, b.moduleId, j);
    }
  }

  /** The creations that no dispose can find without a Deployment: the claims and the ConfigMap. */
  function Stranded(b: Build, k: nat): nat {
    if k < |b.volumes| + ConfigSteps(b) then k else |b.volumes| + ConfigSteps(b)
  }

  /** The state without the claims and the ConfigMap behind these volumes. */
  function WithoutVolumes(s: State, ns: string, volumes: seq<Volume>, rejects: DisposeCall -> bool): State {
    s.(claims := s.claims - DeletedClaims(ns, volumes, rejects),
       configMaps := s.configMaps - DeletedConfigMaps(ns, volumes, rejects))
  }

  lemma RemovedTwice<K, V>(m: map<K, V>, added: map<K, V>, removed: set<K>)
    ensures m + added - removed == m - removed + added - removed
    ensures removed !! added.Keys ==> m + added - removed == m - removed + added
  {
  }

  lemma SetIsUnion<K, V>(m: map<K, V>, k: K, v: V)
    ensures m[k := v] == m + map[k := v]
  {
  }

  lemma FailedRunDisposed(project: string, s: State, b: Build, k: nat)
    requires k < Total(b)
    ensures var name, never := ModuleName(project, b), (c: DisposeCall) => false;
            && var left := Added(project, Disposed(s, name, never), b, Stranded(b, k));
            Disposed(Added(project, s, b, k), name, never)
            == WithoutVolumes(left, name.0, SeenVolumes(s, name, never), never)
  {
    hide NewClaims, ConfigData, DeletedClaims, DeletedConfigMaps;
    var name, never := ModuleName(project, b), (c: DisposeCall) => false;
    var volumes := SeenVolumes(s, name, never);
    assert SeenVolumes(Added(project, s, b, k), name, never) == volumes;
    RemovedTwice(s.claims, NewClaims(project, b, if k < |b.volumes| then k else |b.volumes|),
                 DeletedClaims(name.0, volumes, never));
    ConfigMapRemovedTwice(project, s, b, DeletedConfigMaps(name.0, volumes, never));
  }

  lemma NothingDisposed(s: State, name: Name)
    requires name !in s.deployments
    ensures Disposed(s, name, (c: DisposeCall) => false) == s.(services := s.services - {name})
    ensures SeenVolumes(s, name, (c: DisposeCall) => false) == []
  {
    hide DeletedClaims, DeletedConfigMaps;
    NoVolumes(name.0, (c: DisposeCall) => false);
    assert s.deployments - {name} == s.deployments;
  }

  lemma WithoutNothing(s: State, ns: string, rejects: DisposeCall -> bool)
    ensures WithoutVolumes(s, ns, [], rejects) == s
  {
    hide DeletedClaims, DeletedConfigMaps;
    NoVolumes(ns, rejects);
  }

  lemma StrandedApart(project: string, s: State, b: Build, k: nat, services: set<Name>)
    requires k < Total(b)
    ensures Added(project, s.(services := services), b, Stranded(b, k))
         == Added(project, s, b, Stranded(b, k)).(services := services)
  {
    hide NewClaims, ConfigData;
  }

  /** Whatever made a run fail, a name that was taken included: of what it created, a dispose removes the Service and
      what a Deployment that was there before happens to refer to. Without such a Deployment it removes the Service at
      most, one that stood in the run's way included; the claims and the ConfigMap stay. */
  lemma FailedRunThenDispose(project: string, s: State, b: Build, k: nat)
    requires k < Total(b)
    ensures var name, never := ModuleName(project, b), (c: DisposeCall) => false;
            && var left := Added(project, Disposed(s, name, never), b, Stranded(b, k));
            Disposed(Added(project, s, b, k), name, never)
            == WithoutVolumes(left, name.0, SeenVolumes(s, name, never), never)
    ensures ModuleName(project, b) !in s.deployments ==>
              Disposed(Added(project, s, b, k), ModuleName(project, b), (c: DisposeCall) => false)
              == Added(project, s, b, Stranded(b, k)).(services := s.services - {ModuleName(project, b)})
  {
    hide Added, Disposed, WithoutVolumes, SeenVolumes;
    FailedRunDisposed(project, s, b, k);
    if ModuleName(project, b) !in s.deployments {
      var name := ModuleName(project, b);
      NothingDisposed(s, name);
      StrandedApart(project, s, b, k, s.services - {name});
      WithoutNothing(Added(project, s, b, Stranded(b, k)).(services := s.services - {name}), name.0,
                     (c: DisposeCall) => false);
    }
  }

  lemma ConfigMapRemovedTwice(project: string, s: State, b: Build, removed: set<Name>)
    ensures var name, data := ModuleName(project, b), ConfigData(b.configFiles);
            && s.configMaps[name := data] - removed == (s.configMaps - removed)[name := data] - removed
            && s.configMaps - removed - removed == s.configMaps - removed
  {
    var name, data := ModuleName(project, b), ConfigData(b.configFiles);
    RemovedTwice(s.configMaps, map[name := data], removed);
    SetIsUnion(s.configMaps, name, data);
    SetIsUnion(s.configMaps - removed, name, data);
  }

  lemma NoVolumes(ns: string, rejects: DisposeCall -> bool)
    ensures DeletedClaims(ns, [], rejects) == {} && DeletedConfigMaps(ns, [], rejects) == {}
  {
  }

  /** The first creation of a later build of the same module that what is stranded stands in the way of. */
  function FirstBlocked(b: Build, stranded: nat, later: Build): nat {
    if later.volumes != [] && b.volumes != [] && stranded > 0 then 0
    else if later.configFiles != [] && b.configFiles != [] && stranded > |b.volumes| then |later.volumes|
    else Total(later)
  }

  /** A later run of any build of the same module gets as far as it would if nothing were stranded, or to the first
      object that is. */
  lemma StrandedProgress(project: string, clean: State, b: Build, stranded: nat, later: Build, rejects: nat -> bool)
    requires stranded <= |b.volumes| + ConfigSteps(b) && later.batch == b.batch && later.moduleId == b.moduleId
    ensures Progress(project, Added(project, clean, b, stranded), later, rejects, 0)
         == Min(Progress(project, clean, later, rejects, 0), FirstBlocked(b, stranded, later))
  {
    hide Progress, NewClaims, ConfigData;
    var left := Added(project, clean, b, stranded);
    forall i | 0 <= i < Total(later)
      ensures Free(project, left, later, i) <==> Free(project, clean, later, i) && !Blocked(b, stranded, later, i)
    {
      StillFree(project, clean, b, stranded, later, i);
    }
    ProgressBlocked(project, clean, left, b, stranded, later, rejects);
  }

  /** So it does after a failed run and a dispose. */
  lemma RetryAfterFailure(project: string, s: State, b: Build, k: nat, later: Build, rejects: nat -> bool)
    requires k < Total(b) && ModuleName(project, b) !in s.deployments
    requires later.batch == b.batch && later.moduleId == b.moduleId
    ensures var name, never := ModuleName(project, b), (c: DisposeCall) => false;
            Progress(project, Disposed(Added(project, s, b, k), name, never), later, rejects, 0)
            == Min(Progress(project, Disposed(s, name, never), later, rejects, 0),
                   FirstBlocked(b, Stranded(b, k), later))
  {
    hide Progress, NewClaims, ConfigData;
    NothingAdded(project, s, b);
    FailedRunThenDispose(project, s, b, 0);
    FailedRunThenDispose(project, s, b, k);
    StrandedProgress(project, s.(services := s.services - {ModuleName(project, b)}), b, Stranded(b, k), later, rejects);
  }

  /** Unless nothing was stranded, the same build gets nowhere. */
  lemma SameBuildBlocked(b: Build, k: nat)
    ensures Stranded(b, k) > 0 ==> FirstBlocked(b, Stranded(b, k), b) == 0
    ensures Stranded(b, k) == 0 ==> FirstBlocked(b, Stranded(b, k), b) == Total(b)
  {
  }

  predicate Blocked(b: Build, stranded: nat, later: Build, i: nat) {
    || (i < |later.volumes| && i < |b.volumes| && i < stranded)
    || (later.configFiles != [] && i == |later.volumes| && b.configFiles != [] && stranded > |b.volumes|)
  }

  lemma StillFree(project: string, s: State, b: Build, stranded: nat, later: Build, i: nat)
    requires stranded <= |b.volumes| + ConfigSteps(b) && i < Total(later)
    requires later.batch == b.batch && later.moduleId == b.moduleId
    ensures Free(project, Added(project, s, b, stranded), later, i)
       <==> Free(project, s, later, i) && !Blocked(b, stranded, later, i)
  {
    var m := Min(stranded, |b.volumes|);
    if i < |later.volumes| {
      var c := ClaimName(project, later, i);
      if i < m {
        assert c == ClaimName(project, b, i);
      }
      if c in NewClaims(project, b, m) {
        var j: nat :| j < m && ClaimName(project, b, j) == c;
        VolumeNameInjective(b.moduleId, i, b.moduleId, j);
      }
    }
  }

  lemma ProgressBlocked(project: string, s: State, t: State, b: Build, stranded: nat, later: Build,
                        rejects: nat -> bool)
    requires s.namespaces == t.namespaces
    requires forall i | 0 <= i < Total(later) ::
      Free(project, t, later, i) <==> Free(project, s, later, i) && !Blocked(b, stranded, later, i)
    ensures Progress(project, t, later, rejects, 0)
         == Min(Progress(project, s, later, rejects, 0), FirstBlocked(b, stranded, later))
  {
    hide Free;
    var x, y := Progress(project, s, later, rejects, 0), Progress(project, t, later, rejects, 0);
    var z := FirstBlocked(b, stranded, later);
    forall i | 0 <= i < Total(later)
      ensures Accepts(project, t, later, rejects, i)
         <==> Accepts(project, s, later, rejects, i) && !Blocked(b, stranded, later, i)
    {
    }
    assert forall i | 0 <= i < z && i < Total(later) :: !Blocked(b, stranded, later, i);
    assert z < Total(later) ==> Blocked(b, stranded, later, z);
  }

  lemma NothingAdded(project: string, s: State, b: Build)
    ensures Added(project, s, b, 0) == s
  {
    assert s.claims + NewClaims(project, b, 0) == s.claims;
  }
}
