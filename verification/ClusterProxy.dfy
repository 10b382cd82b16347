/** The cluster proxy's workspace and module calls, each a sequence of API calls that may fail. */
module ClusterProxy {
  import opened Wrappers
  import opened ModuleLifecycle
  import opened ModuleProperties
  import opened ModuleIntegrity

  datatype ApiError = Rejected | NotFound | AlreadyExists

  datatype Status = ACTIVE | PENDING | ERROR | NOT_FOUND

  /** The API server. `rejected` stands for its own reasons to fail a call: quotas, permissions, the network. */
  class Cluster {
    var namespaces: set<string>
    var claims: map<Name, Claim>
    var configMaps: map<Name, map<string, string>>
    var services: set<Name>
    var deployments: map<Name, Deployment>

    function Contents(): State
      reads this
    {
      State(namespaces, claims, configMaps, services, deployments)
    }

    constructor ()
      ensures Contents() == State({}, map[], map[], {}, map[])
    {
      namespaces, claims, configMaps, services, deployments := {}, map[], map[], {}, map[];
    }

    method CreateNamespace(ns: string, rejected: bool) returns (err: Option<ApiError>)
      modifies this
      ensures err.None? <==> !rejected && ns !in old(namespaces)
      ensures Contents() == Prepared(old(Contents()), ns, err.Some?)
    {
      if rejected { return Some(Rejected); }
      if ns in namespaces { return Some(AlreadyExists); }
      namespaces := namespaces + {ns};
      return None;
    }

    method DeleteNamespace(ns: string, rejected: bool) returns (err: Option<ApiError>)
      modifies this
      ensures err.None? <==> !rejected && ns in old(namespaces)
      ensures Contents() == if err.None? then Purged(old(Contents()), ns) else old(Contents())
    {
      if rejected { return Some(Rejected); }
      if ns !in namespaces { return Some(NotFound); }
      namespaces := namespaces - {ns};
      claims := map n | n in claims && n.0 != ns :: claims[n];
      configMaps := map n | n in configMaps && n.0 != ns :: configMaps[n];
      services := set n | n in services && n.0 != ns;
      deployments := map n | n in deployments && n.0 != ns :: deployments[n];
      return None;
    }

    method CreateClaim(name: Name, claim: Claim, rejected: bool) returns (err: Option<ApiError>)
      modifies this
      ensures err.None? <==> !rejected && name.0 in old(namespaces) && name !in old(claims)
      ensures Contents()
           == if err.None? then old(Contents()).(claims := old(claims)[name := claim]) else old(Contents())
    {
      if rejected { return Some(Rejected); }
      if name.0 !in namespaces { return Some(NotFound); }
      if name in claims { return Some(AlreadyExists); }
      claims := claims[name := claim];
      return None;
    }

    method CreateConfigMap(name: Name, data: map<string, string>, rejected: bool) returns (err: Option<ApiError>)
      modifies this
      ensures err.None? <==> !rejected && name.0 in old(namespaces) && name !in old(configMaps)
      ensures Contents()
           == if err.None? then old(Contents()).(configMaps := old(configMaps)[name := data]) else old(Contents())
    {
      if rejected { return Some(Rejected); }
      if name.0 !in namespaces { return Some(NotFound); }
      if name in configMaps { return Some(AlreadyExists); }
      configMaps := configMaps[name := data];
      return None;
    }

    method CreateService(name: Name, rejected: bool) returns (err: Option<ApiError>)
      modifies this
      ensures err.None? <==> !rejected && name.0 in old(namespaces) && name !in old(services)
      ensures Contents() == if err.None? then old(Contents()).(services := old(services) + {name}) else old(Contents())
    {
      if rejected { return Some(Rejected); }
      if name.0 !in namespaces { return Some(NotFound); }
      if name in services { return Some(AlreadyExists); }
      services := services + {name};
      return None;
    }

    method CreateDeployment(name: Name, d: Deployment, rejected: bool) returns (err: Option<ApiError>)
      modifies this
      ensures err.None? <==> !rejected && name.0 in old(namespaces) && name !in old(deployments)
      ensures Contents()
           == if err.None? then old(Contents()).(deployments := old(deployments)[name := d]) else old(Contents())
    {
      if rejected { return Some(Rejected); }
      if name.0 !in namespaces { return Some(NotFound); }
      if name in deployments { return Some(AlreadyExists); }
      deployments := deployments[name := d];
      return None;
    }

    /** The client returns an empty object along with an error. */
    method GetDeployment(name: Name, rejected: bool) returns (d: Deployment, err: Option<ApiError>)
      ensures err.None? <==> !rejected && name in deployments
      ensures d == if err.None? then deployments[name] else Deployment([], [])
    {
      if rejected { return Deployment([], []), Some(Rejected); }
      if name !in deployments { return Deployment([], []), Some(NotFound); }
      return deployments[name], None;
    }

    method DeleteDeployment(name: Name, rejected: bool) returns (err: Option<ApiError>)
      modifies this
      ensures err.None? <==> !rejected && name in old(deployments)
      ensures Contents()
           == old(Contents()).(deployments := if rejected then old(deployments) else old(deployments) - {name})
    {
      if rejected { return Some(Rejected); }
      err := if name in deployments then None else Some(NotFound);
      deployments := deployments - {name};
    }

    method DeleteService(name: Name, rejected: bool) returns (err: Option<ApiError>)
      modifies this
      ensures err.None? <==> !rejected && name in old(services)
      ensures Contents() == old(Contents()).(services := if rejected then old(services) else old(services) - {name})
    {
      if rejected { return Some(Rejected); }
      err := if name in services then None else Some(NotFound);
      services := services - {name};
    }

    method DeleteClaim(name: Name, rejected: bool) returns (err: Option<ApiError>)
      modifies this
      ensures err.None? <==> !rejected && name in old(claims)
      ensures Contents() == old(Contents()).(claims := if rejected then old(claims) else old(claims) - {name})
    {
      if rejected { return Some(Rejected); }
      err := if name in claims then None else Some(NotFound);
      claims := claims - {name};
    }

    method DeleteConfigMap(name: Name, rejected: bool) returns (err: Option<ApiError>)
      modifies this
      ensures err.None? <==> !rejected && name in old(configMaps)
      ensures Contents()
           == old(Contents()).(configMaps := if rejected then old(configMaps) else old(configMaps) - {name})
    {
      if rejected { return Some(Rejected); }
      err := if name in configMaps then None else Some(NotFound);
      configMaps := configMaps - {name};
    }
  }

  /******* One more creation *******/

  /** The next creation is accepted in the state reached so far just when it is among those that a run makes. */
  lemma ProgressStep(project: string, s: State, b: Build, rejects: nat -> bool, k: nat)
    requires k < Total(b)
    ensures Free(project, Added(project, s, b, k), b, k) <==> Free(project, s, b, k)
    ensures Progress(project, s, b, rejects, k)
         == if Accepts(project, s, b, rejects, k) then Progress(project, s, b, rejects, k + 1) else k
  {
    if k < |b.volumes| {
      ClaimAdded(project, s, b, k, k);
    }
  }

  lemma ClaimStep(project: string, s: State, b: Build, rejects: nat -> bool, k: nat)
    requires k < |b.volumes|
    ensures var t, c := Added(project, s, b, k), ClaimName(project, b, k);
            && Progress(project, s, b, rejects, k)
               == (if !rejects(k) && c.0 in t.namespaces && c !in t.claims
                   then Progress(project, s, b, rejects, k + 1) else k)
            && Added(project, s, b, k + 1) == t.(claims := t.claims[c := ClaimOf(b.volumes[k])])
  {
    hide Added, NewClaims;
    ClaimProgress(project, s, b, rejects, k);
    ClaimState(project, s, b, k);
  }

  lemma ClaimProgress(project: string, s: State, b: Build, rejects: nat -> bool, k: nat)
    requires k < |b.volumes|
    ensures var t, c := Added(project, s, b, k), ClaimName(project, b, k);
            Progress(project, s, b, rejects, k)
            == if !rejects(k) && c.0 in t.namespaces && c !in t.claims
               then Progress(project, s, b, rejects, k + 1) else k
  {
    hide Progress, NewClaims, ConfigData, DeploymentOf;
    ProgressStep(project, s, b, rejects, k);
  }

  lemma ClaimState(project: string, s: State, b: Build, k: nat)
    requires k < |b.volumes|
    ensures var t := Added(project, s, b, k);
            Added(project, s, b, k + 1)
            == t.(claims := t.claims[ClaimName(project, b, k) := ClaimOf(b.volumes[k])])
  {
    hide NewClaims, ConfigData, DeploymentOf;
    NextClaimAdded(project, s, b, k);
  }

  lemma NextClaimAdded(project: string, s: State, b: Build, k: nat)
    requires k < |b.volumes|
    ensures s.claims + NewClaims(project, b, k + 1)
         == (s.claims + NewClaims(project, b, k))[ClaimName(project, b, k) := ClaimOf(b.volumes[k])]
  {
    var claims := NewClaims(project, b, k);
    assert s.claims + claims[ClaimName(project, b, k) := ClaimOf(b.volumes[k])]
        == (s.claims + claims)[ClaimName(project, b, k) := ClaimOf(b.volumes[k])];
  }

  lemma ConfigMapStep(project: string, s: State, b: Build, rejects: nat -> bool)
    requires b.configFiles != []
    ensures var k, name := |b.volumes|, ModuleName(project, b);
            var t := Added(project, s, b, k);
            && Progress(project, s, b, rejects, k)
               == (if !rejects(k) && name.0 in t.namespaces && name !in t.configMaps
                   then Progress(project, s, b, rejects, k + 1) else k)
            && Added(project, s, b, k + 1) == t.(configMaps := t.configMaps[name := ConfigData(b.configFiles)])
  {
    ProgressStep(project, s, b, rejects, |b.volumes|);
  }

  lemma ServiceStep(project: string, s: State, b: Build, rejects: nat -> bool)
    ensures var k, name := Total(b) - 2, ModuleName(project, b);
            var t := Added(project, s, b, k);
            && Progress(project, s, b, rejects, k)
               == (if !rejects(k) && name.0 in t.namespaces && name !in t.services
                   then Progress(project, s, b, rejects, k + 1) else k)
            && Added(project, s, b, k + 1) == t.(services := t.services + {name})
  {
    ProgressStep(project, s, b, rejects, Total(b) - 2);
  }

  lemma DeploymentStep(project: string, s: State, b: Build, rejects: nat -> bool)
    ensures var k, name := Total(b) - 1, ModuleName(project, b);
            var t := Added(project, s, b, k);
            && Progress(project, s, b, rejects, k)
               == (if !rejects(k) && name.0 in t.namespaces && name !in t.deployments then k + 1 else k)
            && Added(project, s, b, k + 1) == t.(deployments := t.deployments[name := DeploymentOf(b)])
  {
    ProgressStep(project, s, b, rejects, Total(b) - 1);
  }

  /******* One more deletion *******/

  lemma NextDeleted(ns: string, volumes: seq<Volume>, rejects: DisposeCall -> bool, i: nat)
    requires i < |volumes|
    ensures DeletedClaims(ns, volumes[..i + 1], rejects) == DeletedClaims(ns, volumes[..i], rejects)
         + if volumes[i].source.FromClaim? && !rejects(DeleteVolume(i)) then {(ns, volumes[i].name)} else {}
    ensures DeletedConfigMaps(ns, volumes[..i + 1], rejects) == DeletedConfigMaps(ns, volumes[..i], rejects)
         + if volumes[i].source.FromConfigMap? && !rejects(DeleteVolume(i)) then {(ns, volumes[i].name)} else {}
  {
    var some, more := volumes[..i], volumes[..i + 1];
    assert forall j | 0 <= j < i :: some[j] == more[j];
    assert more[i] == volumes[i];
  }

  /** Whether the `i`th volume is still there when its turn comes. */
  predicate VolumeThere(s: State, ns: string, volumes: seq<Volume>, rejects: DisposeCall -> bool, i: nat)
    requires i < |volumes|
  {
    var name := (ns, volumes[i].name);
    if volumes[i].source.FromClaim? then name in s.claims - DeletedClaims(ns, volumes[..i], rejects)
    else name in s.configMaps - DeletedConfigMaps(ns, volumes[..i], rejects)
  }

  predicate VolumesDelete(s: State, ns: string, volumes: seq<Volume>, rejects: DisposeCall -> bool, n: nat)
    requires n <= |volumes|
  {
    forall i: nat | i < n :: !rejects(DeleteVolume(i)) && VolumeThere(s, ns, volumes, rejects, i)
  }

  lemma NothingDeleted(s: State, ns: string, volumes: seq<Volume>, rejects: DisposeCall -> bool)
    ensures DeletedClaims(ns, volumes[..0], rejects) == {} && DeletedConfigMaps(ns, volumes[..0], rejects) == {}
    ensures VolumesDelete(s, ns, volumes, rejects, 0)
  {
  }

  lemma NextVolume(s: State, ns: string, volumes: seq<Volume>, rejects: DisposeCall -> bool, i: nat)
    requires i < |volumes|
    ensures VolumesDelete(s, ns, volumes, rejects, i + 1)
       <==> && VolumesDelete(s, ns, volumes, rejects, i) && !rejects(DeleteVolume(i))
            && VolumeThere(s, ns, volumes, rejects, i)
  {
  }

  predicate DisposeSucceeds(s: State, n: Name, rejects: DisposeCall -> bool) {
    && n in s.deployments && !rejects(GetDeployment) && !rejects(DeleteDeployment)
    && n in s.services && !rejects(DeleteService)
    && VolumesDelete(s, n.0, s.deployments[n].volumes, rejects, |s.deployments[n].volumes|)
  }

  /** In a healthy cluster a dispose succeeds exactly if the Deployment is there and no call is rejected. */
  lemma HealthyDispose(s: State, n: Name, rejects: DisposeCall -> bool)
    requires Healthy(s)
    ensures DisposeSucceeds(s, n, rejects) <==>
            && n in s.deployments && !rejects(GetDeployment) && !rejects(DeleteDeployment) && !rejects(DeleteService)
            && forall i: nat | i < |s.deployments[n].volumes| :: !rejects(DeleteVolume(i))
  {
    if n in s.deployments {
      var volumes := s.deployments[n].volumes;
      assert Intact(s, n, s.deployments[n]);
      forall i: nat | i < |volumes| ensures VolumeThere(s, n.0, volumes, rejects, i) {
        assert HasVolume(s, n, volumes[i]);
      }
    }
  }

  /******* The calls *******/

  class Server {
    const cluster: Cluster
    const projectName: string

    constructor (cluster: Cluster, projectName: string)
      ensures this.cluster == cluster && this.projectName == projectName
    {
      this.cluster, this.projectName := cluster, projectName;
    }

    /** `active` says whether the namespace comes back in phase Active. */
    method PrepareWorkspace(batch: string, rejected: bool, active: bool) returns (status: Status, err: Option<ApiError>)
      modifies cluster
      ensures cluster.Contents() == Step(projectName, old(cluster.Contents()), Prepare(batch, err.Some?))
      ensures cluster.namespaces == old(cluster.namespaces) + if err.None? then {projectName + "-" + batch} else {}
      ensures err.Some? <==> rejected || projectName + "-" + batch in old(cluster.namespaces)
      ensures status == if err.Some? then ERROR else if active then ACTIVE else PENDING
    {
      status := PENDING;
      err := cluster.CreateNamespace(NamespaceOf(projectName, batch), rejected);
      if err.Some? {
        status := ERROR;
      } else if active {
        status := ACTIVE;
      }
    }

    method PurgeWorkspace(batch: string, rejected: bool) returns (status: Status, err: Option<ApiError>)
      modifies cluster
      ensures cluster.Contents() == Step(projectName, old(cluster.Contents()), Purge(batch, err.Some?))
      ensures cluster.namespaces == old(cluster.namespaces) - if err.None? then {projectName + "-" + batch} else {}
      ensures err.Some? <==> rejected || projectName + "-" + batch !in old(cluster.namespaces)
      ensures status == if err.Some? then ERROR else NOT_FOUND
    {
      err := cluster.DeleteNamespace(NamespaceOf(projectName, batch), rejected);
      status := NOT_FOUND;
      if err.Some? {
        status := ERROR;
      }
    }

    /** The claims, up to the first that cannot be created, and the volumes and mounts that refer to them. */
    method CreateClaims(b: Build, rejects: nat -> bool)
      returns (volumes: seq<Volume>, volumeMounts: seq<Mount>, err: Option<ApiError>)
      modifies cluster
      ensures var s, k := old(cluster.Contents()), Progress(projectName, old(cluster.Contents()), b, rejects, 0);
              if err.None? then
                && k == Progress(projectName, s, b, rejects, |b.volumes|)
                && cluster.Contents() == Added(projectName, s, b, |b.volumes|)
              else
                k < |b.volumes| && cluster.Contents() == Added(projectName, s, b, k)
      ensures err.None? ==> volumes == ClaimVolumes(b.moduleId, |b.volumes|) && volumeMounts == ClaimMounts(b)
    {
      hide Progress, Added, Accepts, Free;
      ghost var s := cluster.Contents();
      var namespace := NamespaceOf(projectName, b.batch);
      volumes, volumeMounts := [], [];
      NothingAdded(projectName, s, b);
      for idx := 0 to |b.volumes|
        invariant cluster.Contents() == Added(projectName, s, b, idx)
        invariant Progress(projectName, s, b, rejects, 0) == Progress(projectName, s, b, rejects, idx)
        invariant volumes == ClaimVolumes(b.moduleId, idx)
        invariant volumeMounts == ClaimMounts(b)[..idx]
      {
        ClaimStep(projectName, s, b, rejects, idx);
        err := cluster.CreateClaim((namespace, VolumeName(b.moduleId, idx)), ClaimOf(b.volumes[idx]), rejects(idx));
        if err.Some? {
          return;
        }
        volumeMounts := volumeMounts + [Mount(VolumeName(b.moduleId, idx), b.volumes[idx].mountPath, "")];
        volumes := volumes + [Volume(VolumeName(b.moduleId, idx), FromClaim(VolumeName(b.moduleId, idx)))];
      }
      err := None;
    }

    /** One key for each configuration file, and the mounts that refer to them. */
    method ConfigFiles(b: Build) returns (data: map<string, string>, volumeMounts: seq<Mount>)
      ensures data == ConfigData(b.configFiles) && volumeMounts == ConfigMounts(b)
      ensures |data| > 0 <==> b.configFiles != []
    {
      data, volumeMounts := map[], [];
      for idx := 0 to |b.configFiles|
        invariant data == ConfigData(b.configFiles[..idx])
        invariant volumeMounts == ConfigMounts(b)[..idx]
      {
        assert b.configFiles[..idx + 1][..idx] == b.configFiles[..idx];
        data := data[FileKey(idx) := b.configFiles[idx].data];
        volumeMounts := volumeMounts + [Mount(b.moduleId, b.configFiles[idx].mountPath, FileKey(idx))];
      }
      assert b.configFiles[..|b.configFiles|] == b.configFiles;
      DataNonEmpty(b.configFiles);
    }

    method CreateServiceAndDeployment(b: Build, deployment: Deployment, rejects: nat -> bool, ghost s: State)
      returns (status: Status, err: Option<ApiError>)
      requires cluster.Contents() == Added(projectName, s, b, Total(b) - 2) && deployment == DeploymentOf(b)
      modifies cluster
      ensures var k := Progress(projectName, s, b, rejects, Total(b) - 2);
              && cluster.Contents() == Added(projectName, s, b, k)
              && (err.None? <==> k == Total(b))
              && status == if k < Total(b) - 1 then ERROR else PENDING
    {
      hide Progress, Added, Accepts, Free;
      var name := (NamespaceOf(projectName, b.batch), b.moduleId);
      ServiceStep(projectName, s, b, rejects);
      err := cluster.CreateService(name, rejects(Total(b) - 2));
      if err.Some? {
        return ERROR, err;
      }
      DeploymentStep(projectName, s, b, rejects);
      err := cluster.CreateDeployment(name, deployment, rejects(Total(b) - 1));
      return PENDING, err;
    }

    /** `rejects(i)` is whether the API server rejects the `i`th creation. */
    method RunBalticModule(b: Build, rejects: nat -> bool) returns (status: Status, err: Option<ApiError>)
      modifies cluster
      ensures cluster.Contents() == Step(projectName, old(cluster.Contents()), Run(b, rejects))
      ensures var k := Progress(projectName, old(cluster.Contents()), b, rejects, 0);
              && (err.None? <==> k == Total(b))
              && status == if k < Total(b) - 1 then ERROR else PENDING
    {
      hide Progress, Added, Accepts, Free, ConfigData, NewClaims;
      ghost var s := cluster.Contents();
      var volumes, volumeMounts, failure := CreateClaims(b, rejects);
      if failure.Some? {
        return ERROR, failure;
      }
      var data, configMounts := ConfigFiles(b);
      volumeMounts := volumeMounts + configMounts;
      if |data| > 0 {
        volumes := volumes + [Volume(b.moduleId, FromConfigMap(b.moduleId))];
        ConfigMapStep(projectName, s, b, rejects);
        err := cluster.CreateConfigMap((NamespaceOf(projectName, b.batch), b.moduleId), data, rejects(|b.volumes|));
        if err.Some? {
          return ERROR, err;
        }
      }
      assert Deployment(volumes, volumeMounts) == DeploymentOf(b);
      status, err := CreateServiceAndDeployment(b, Deployment(volumes, volumeMounts), rejects, s);
    }

    /** Deletes every claim and ConfigMap behind the volumes, whatever becomes of the others. */
    method DeleteVolumes(namespace: string, volumes: seq<Volume>, rejects: DisposeCall -> bool)
      returns (err: Option<ApiError>)
      modifies cluster
      ensures var s := old(cluster.Contents());
              && cluster.Contents() == s.(claims := s.claims - DeletedClaims(namespace, volumes, rejects),
                                          configMaps := s.configMaps - DeletedConfigMaps(namespace, volumes, rejects))
              && (err.None? <==> VolumesDelete(s, namespace, volumes, rejects, |volumes|))
    {
      hide DeletedClaims, DeletedConfigMaps, VolumesDelete;
      ghost var s := cluster.Contents();
      err := None;
      NothingDeleted(s, namespace, volumes, rejects);
      for i := 0 to |volumes|
        invariant cluster.Contents() == s.(claims := s.claims - DeletedClaims(namespace, volumes[..i], rejects),
                                           configMaps :=
                                               s.configMaps - DeletedConfigMaps(namespace, volumes[..i], rejects))
        invariant err.None? <==> VolumesDelete(s, namespace, volumes, rejects, i)
      {
        NextDeleted(namespace, volumes, rejects, i);
        NextVolume(s, namespace, volumes, rejects, i);
        var failure;
        if volumes[i].source.FromClaim? {
          failure := cluster.DeleteClaim((namespace, volumes[i].name), rejects(DeleteVolume(i)));
        } else {
          failure := cluster.DeleteConfigMap((namespace, volumes[i].name), rejects(DeleteVolume(i)));
        }
        if failure.Some? {
          err := failure;
        }
      }
      assert volumes[..|volumes|] == volumes;
    }

    /** Every call is made whatever becomes of the others. */
    method DisposeBalticModule(batch: string, moduleId: string, rejects: DisposeCall -> bool)
      returns (status: Status, retErr: Option<ApiError>)
      modifies cluster
      ensures cluster.Contents() == Step(projectName, old(cluster.Contents()), Dispose(batch, moduleId, rejects))
      ensures retErr.None? <==>
              DisposeSucceeds(old(cluster.Contents()), (NamespaceOf(projectName, batch), moduleId), rejects)
      ensures status == if retErr.None? then PENDING else ERROR
    {
      status := PENDING;
      var name := (NamespaceOf(projectName, batch), moduleId);
      var deployment, err := cluster.GetDeployment(name, rejects(GetDeployment));
      retErr := err;
      if err.Some? {
        status, retErr := ERROR, err;
      }
      err := cluster.DeleteDeployment(name, rejects(DeleteDeployment));
      if err.Some? {
        status, retErr := ERROR, err;
      }
      err := cluster.DeleteService(name, rejects(DeleteService));
      if err.Some? {
        status, retErr := ERROR, err;
      }
      err := DeleteVolumes(name.0, deployment.volumes, rejects);
      if err.Some? {
        status, retErr := ERROR, err;
      }
    }
  }

  lemma DataNonEmpty(files: seq<ConfigFile>)
    ensures |ConfigData(files)| == 0 <==> files == []
  {
    if files != [] {
      assert FileKey(0) in ConfigData(files);
    }
  }
}
